/** What each operation of kern/pmap.c and of env_setup_vm and env_free (kern/env.c) does to memory,
    tables and books, on values. Pmap.dfy performs the operations in place. */
module PmapSteps {
  import opened Mmu
  import opened PageTables
  import opened Lists
  import opened FreeListParts

  /** Page numbers of IOPHYSMEM (0xA0000) and MPENTRY_PADDR (0x7000). */
  const IOPHYS_FRAME := 160
  const MPENTRY_FRAME := 7

  /** The frames page_init puts on the free list, `first` being the frame of boot_alloc(0). */
  predicate Allocatable(i: nat, first: nat) {
    i != 0 && i != MPENTRY_FRAME && !(IOPHYS_FRAME <= i < first)
  }

  /** Both states translate every address of every address space alike, UVPT windows aside. */
  ghost predicate SameWalks(m: Mem, n: Mem) {
    && n.dirs == m.dirs
    && forall e: nat, p: nat, t: nat :: p != UVPT_PDX ==> Pte(n, e, p, t) == Pte(m, e, p, t)
  }

  ghost predicate SamePdes(m: Mem, n: Mem) {
    forall e: nat, p: nat :: Pde(n, e, p) == Pde(m, e, p)
  }

  /** Every frame other than `f` and `g` has the contents it had. */
  ghost predicate ContentsKept(m: Mem, n: Mem, f: int, g: int) {
    && |n.phys| == |m.phys|
    && forall i :: 0 <= i < |m.phys| && i != f && i != g ==> n.phys[i] == m.phys[i]
  }

  ghost predicate OtherPdesKept(m: Mem, n: Mem, e: nat) {
    forall e2: nat, p: nat :: e2 != e ==> Pde(n, e2, p) == Pde(m, e2, p)
  }

  /** Every directory entry names the table that it named, or none as before; its permissions may differ. */
  ghost predicate SameTables(m: Mem, n: Mem) {
    forall e: nat, p: nat ::
      (Pde(n, e, p).Present() <==> Pde(m, e, p).Present()) && Pde(n, e, p).frame == Pde(m, e, p).frame
  }

  /** The same, but that the missing table of (e, p) has been made in frame `tab`. */
  ghost predicate TableMade(m: Mem, n: Mem, e: nat, p: nat, tab: nat) {
    forall e2: nat, p2: nat ::
      if e2 == e && p2 == p && !Pde(m, e, p).Present() then Pde(n, e2, p2).Present() && Pde(n, e2, p2).frame == tab
      else (Pde(n, e2, p2).Present() <==> Pde(m, e2, p2).Present()) && Pde(n, e2, p2).frame == Pde(m, e2, p2).frame
  }

  lemma TableThen(m: Mem, m2: Mem, n: Mem, e: nat, p: nat, tab: nat)
    requires TableMade(m, m2, e, p, tab) && SameTables(m2, n)
    ensures TableMade(m, n, e, p, tab)
  {
  }

  /** The page that page_alloc takes. */
  function First(free: seq<nat>): nat {
    if free == [] then 0 else free[0]
  }

  /** The address spaces other than `e` are as they were, down to the frames of their tables. */
  ghost predicate OthersKept(m: Mem, n: Mem, e: nat) {
    && n.dirs - {e} == m.dirs - {e}
    && OtherPdesKept(m, n, e)
    && (forall e2 :: e2 != e ==> Space(n, e2) == Space(m, e2))
  }

  lemma OthersKeptTwice(m: Mem, m2: Mem, n: Mem, e: nat)
    requires OthersKept(m, m2, e) && OthersKept(m2, n, e)
    ensures OthersKept(m, n, e)
  {
  }

  /** The walk at page `pn` of `e` now finds `x`, and every other walk finds what it found. */
  ghost predicate EntrySet(m: Mem, n: Mem, e: nat, pn: nat, x: Entry) {
    && n.dirs == m.dirs
    && forall e2: nat, p: nat, t: nat :: p != UVPT_PDX ==>
         Pte(n, e2, p, t) == if e2 == e && p == Pdx(pn) && t == Ptx(pn) then x else Pte(m, e2, p, t)
  }

  lemma EntrySetTwice(m: Mem, m2: Mem, n: Mem, e: nat, pn: nat, x: Entry)
    requires EntrySet(m, m2, e, pn, ZERO) && EntrySet(m2, n, e, pn, x)
    ensures EntrySet(m, n, e, pn, x)
  {
  }

  lemma EntrySetSpaces(m: Mem, n: Mem, e: nat, pn: nat, x: Entry)
    requires EntrySet(m, n, e, pn, x) && OtherPdesKept(m, n, e) && pn < NPAGES && Pdx(pn) != UVPT_PDX
    ensures Space(n, e) == if x.Present() then Space(m, e)[pn := x] else Space(m, e) - {pn}
    ensures OthersKept(m, n, e)
  {
    SpaceSet(m, n, e, pn, x);
    forall e2: nat | e2 != e
      ensures Space(n, e2) == Space(m, e2)
    {
      SpaceSame(m, n, e2);
    }
  }

  /** page_remove of a mapped page, as it changes memory, counts and books. */
  lemma RemoveKeeps(m: Mem, a: Ledger, b: Book, e: nat, pn: nat)
    requires TablesOk(m, b) && LedgerOk(a, b)
    requires e != KERN && Pdx(pn) < UTOP_PDX && PteOf(m, e, pn).Present()
    ensures Pde(m, e, Pdx(pn)).frame < |m.phys| && PteOf(m, e, pn).frame < |a.pages|
    ensures var n, f := SetSlot(m, Pde(m, e, Pdx(pn)).frame, Ptx(pn), ZERO), PteOf(m, e, pn).frame;
      && f in b.managed
      && TablesOk(n, DropRef(b, PageRef(e, Pdx(pn), Ptx(pn)), f))
      && LedgerOk(Decref(a, f), DropRef(b, PageRef(e, Pdx(pn), Ptx(pn)), f))
      && SamePdes(m, n) && EntrySet(m, n, e, pn, ZERO)
  {
    var p, t, f := Pdx(pn), Ptx(pn), PteOf(m, e, pn).frame;
    UnmapPteKeeps(m, b, e, p, t);
    SetPteEffect(m, b, e, p, t, ZERO);
    assert f !in b.held;
    DropRefKeeps(a, b, PageRef(e, p, t), f);
  }

  /** page_insert's last two assignments: the entry, then the directory's permissions. */
  function WriteEntry(m: Mem, e: nat, pn: nat, x: Entry): Mem
    requires e in m.dirs
  {
    var y := Pde(m, e, Pdx(pn));
    SetSlot(SetSlot(m, y.frame, Ptx(pn), x), m.dirs[e], Pdx(pn), Entry(y.frame, y.flags + x.flags))
  }

  /** The two assignments may be taken in the other order, which keeps the directory entry the
      more permissive one throughout. */
  lemma WriteEntryOrder(m: Mem, b: Book, e: nat, pn: nat, x: Entry)
    requires TablesOk(m, b) && e in m.dirs && e != KERN && Pdx(pn) < UTOP_PDX && Pde(m, e, Pdx(pn)).Present()
    ensures Pde(m, e, Pdx(pn)).frame < |m.phys|
    ensures var y := Pde(m, e, Pdx(pn));
      var n := SetSlot(m, m.dirs[e], Pdx(pn), Entry(y.frame, y.flags + x.flags));
      && TablesOk(n, b) && SameWalks(m, n)
      && Pde(n, e, Pdx(pn)) == Entry(y.frame, y.flags + x.flags)
      && WriteEntry(m, e, pn, x) == SetSlot(n, y.frame, Ptx(pn), x)
      && (forall e2: nat, p2: nat :: e2 != e ==> Pde(n, e2, p2) == Pde(m, e2, p2))
      && SameTables(m, n)
  {
    var y := Pde(m, e, Pdx(pn));
    TableApart(m, b, e, Pdx(pn), e, Pdx(pn));
    assert Owns(e, Pdx(pn)) && Holds(m, TableRef(e, Pdx(pn)), y.frame);
    RaisePdeKeeps(m, b, e, Pdx(pn), x.flags);
    SetPdeEffect(m, b, e, Pdx(pn), Entry(y.frame, y.flags + x.flags));
    var n := SetSlot(m, m.dirs[e], Pdx(pn), Entry(y.frame, y.flags + x.flags));
    assert WriteEntry(m, e, pn, x).phys == SetSlot(n, y.frame, Ptx(pn), x).phys;
  }

  /** page_insert at an absent entry. */
  lemma InsertKeeps(m: Mem, b: Book, e: nat, pn: nat, x: Entry)
    requires TablesOk(m, b) && e in m.dirs && e != KERN && Pdx(pn) < UTOP_PDX
    requires Pde(m, e, Pdx(pn)).Present() && !PteOf(m, e, pn).Present()
    requires x.Present() && x.frame in b.managed
    requires forall r :: r in b.holders[x.frame] ==> r.PageRef?
    ensures Pde(m, e, Pdx(pn)).frame < |m.phys|
    ensures TablesOk(WriteEntry(m, e, pn, x), AddRef(b, PageRef(e, Pdx(pn), Ptx(pn)), x.frame))
    ensures EntrySet(m, WriteEntry(m, e, pn, x), e, pn, x) && OtherPdesKept(m, WriteEntry(m, e, pn, x), e)
    ensures PageRef(e, Pdx(pn), Ptx(pn)) !in b.holders[x.frame]
  {
    WriteEntryOrder(m, b, e, pn, x);
    var y := Pde(m, e, Pdx(pn));
    var n := SetSlot(m, m.dirs[e], Pdx(pn), Entry(y.frame, y.flags + x.flags));
    MapPteKeeps(n, b, e, Pdx(pn), Ptx(pn), x);
    SetPteEffect(n, b, e, Pdx(pn), Ptx(pn), x);
  }

  /** pp_ref++ is exact unless the 16-bit count was full. */
  lemma CountExact(a: Ledger, b: Book, r: Ref, f: nat)
    requires LedgerOk(a, b) && f in b.managed && r !in b.holders[f] && f !in b.free
    ensures LedgerOk(SetRef(a, f, (a.pages[f].ref + 1) % REF_LIMIT), AddRef(b, r, f)) <==>
      a.pages[f].ref + 1 < REF_LIMIT
  {
    assert |b.holders[f] + {r}| == a.pages[f].ref + 1;
    if a.pages[f].ref + 1 < REF_LIMIT {
      AddRefKeeps(a, b, r, f);
    }
  }

  /** page_insert of the page that is mapped there already. */
  lemma ReinsertKeeps(m: Mem, b: Book, e: nat, pn: nat, x: Entry)
    requires TablesOk(m, b) && e in m.dirs && e != KERN && Pdx(pn) < UTOP_PDX
    requires PteOf(m, e, pn).Present() && x.Present() && x.frame == PteOf(m, e, pn).frame
    ensures Pde(m, e, Pdx(pn)).frame < |m.phys|
    ensures TablesOk(WriteEntry(m, e, pn, x), b)
    ensures EntrySet(m, WriteEntry(m, e, pn, x), e, pn, x) && OtherPdesKept(m, WriteEntry(m, e, pn, x), e)
  {
    WriteEntryOrder(m, b, e, pn, x);
    var y := Pde(m, e, Pdx(pn));
    var n := SetSlot(m, m.dirs[e], Pdx(pn), Entry(y.frame, y.flags + x.flags));
    RemapPteKeeps(n, b, e, Pdx(pn), Ptx(pn), x);
    SetPteEffect(n, b, e, Pdx(pn), Ptx(pn), x);
  }

  /** page_insert's stores at `pn`, whatever is stored, change one walk and one directory entry. */
  lemma WriteEntryEffect(m: Mem, b: Book, e: nat, pn: nat, x: Entry)
    requires TablesOk(m, b) && e in m.dirs && e != KERN && Pdx(pn) < UTOP_PDX && Pde(m, e, Pdx(pn)).Present()
    ensures Pde(m, e, Pdx(pn)).frame < |m.phys|
    ensures EntrySet(m, WriteEntry(m, e, pn, x), e, pn, x) && OtherPdesKept(m, WriteEntry(m, e, pn, x), e)
    ensures SameTables(m, WriteEntry(m, e, pn, x))
  {
    WriteEntryOrder(m, b, e, pn, x);
    var y := Pde(m, e, Pdx(pn));
    var n := SetSlot(m, m.dirs[e], Pdx(pn), Entry(y.frame, y.flags + x.flags));
    SetPteEffect(n, b, e, Pdx(pn), Ptx(pn), x);
  }

  /** A count of page 0 is none of the counts that the books speak of. */
  lemma PageZeroUncounted(a: Ledger, b: Book, n: Count)
    requires LedgerOk(a, b) && |a.pages| > 0
    ensures LedgerOk(SetRef(a, 0, n), b) && 0 !in b.free && 0 !in b.managed
  {
    ChainFrame(a.pages, SetRef(a, 0, n).pages, a.freeList, b.free);
  }

  /** Nothing refers to page 0. */
  lemma PageZeroUnused(m: Mem, b: Book)
    requires TablesOk(m, b)
    ensures 0 < |b.holders| == |m.phys| && b.holders[0] == {} && 0 !in b.managed
  {
    assert m.dirs[KERN] < |m.phys|;
    assert forall r {:trigger r in b.holders[0]} :: r in b.holders[0] ==> Holds(m, r, 0);
  }

  /** Once an environment maps page 0, no books fit the tables. */
  lemma PageZeroMapped(m: Mem, e: nat, pn: nat)
    requires e != KERN && Pdx(pn) < UTOP_PDX && PteOf(m, e, pn).Present() && PteOf(m, e, pn).frame == 0
    ensures forall b: Book :: !TablesOk(m, b)
  {
    assert Holds(m, PageRef(e, Pdx(pn), Ptx(pn)), 0);
  }

  /** What page_insert may write at an absent entry, for a managed page or page 0. */
  lemma InsertReady(m: Mem, b: Book, e: nat, pn: nat, x: Entry)
    requires TablesOk(m, b) && e in m.dirs && e != KERN && Pdx(pn) < UTOP_PDX
    requires Pde(m, e, Pdx(pn)).Present() && !PteOf(m, e, pn).Present() && x.Present()
    requires x.frame != 0 ==> x.frame in b.managed && forall r :: r in b.holders[x.frame] ==> r.PageRef?
    ensures RowsApart(m, e, Pdx(pn))
    ensures EntrySet(m, WriteEntry(m, e, pn, x), e, pn, x) && OtherPdesKept(m, WriteEntry(m, e, pn, x), e)
    ensures SameTables(m, WriteEntry(m, e, pn, x))
    ensures x.frame != 0 ==>
      && TablesOk(WriteEntry(m, e, pn, x), AddRef(b, PageRef(e, Pdx(pn), Ptx(pn)), x.frame))
      && PageRef(e, Pdx(pn), Ptx(pn)) !in b.holders[x.frame]
  {
    WriteEntryEffect(m, b, e, pn, x);
    TableApart(m, b, e, Pdx(pn), e, Pdx(pn));
    if x.frame != 0 {
      InsertKeeps(m, b, e, pn, x);
    }
  }

  /** What page_insert may write over an entry that names the same page already, page 0 if it is absent. */
  lemma ReinsertReady(m: Mem, a: Ledger, b: Book, e: nat, pn: nat, x: Entry)
    requires TablesOk(m, b) && LedgerOk(a, b) && e in m.dirs && e != KERN && Pdx(pn) < UTOP_PDX
    requires Pde(m, e, Pdx(pn)).Present() && x.Present() && x.frame == PteOf(m, e, pn).frame
    ensures RowsApart(m, e, Pdx(pn)) && x.frame < |a.pages|
    ensures EntrySet(m, WriteEntry(m, e, pn, x), e, pn, x) && OtherPdesKept(m, WriteEntry(m, e, pn, x), e)
    ensures SameTables(m, WriteEntry(m, e, pn, x))
    ensures x.frame != 0 ==> TablesOk(WriteEntry(m, e, pn, x), b)
    ensures b.held == b.held - {x.frame}
  {
    WriteEntryEffect(m, b, e, pn, x);
    TableApart(m, b, e, Pdx(pn), e, Pdx(pn));
    PageZeroUnused(m, b);
    if PteOf(m, e, pn).Present() {
      assert Holds(m, PageRef(e, Pdx(pn), Ptx(pn)), x.frame);
      ReinsertKeeps(m, b, e, pn, x);
    }
  }

  /** The directory entry and the table that page_insert writes to are in range and apart. */
  ghost predicate RowsApart(m: Mem, e: nat, p: nat) {
    && e in m.dirs && m.dirs[e] < |m.phys| && Pde(m, e, p).frame < |m.phys| && Pde(m, e, p).frame != m.dirs[e]
    && forall f :: 0 <= f < |m.phys| ==> |m.phys[f]| == NPTENTRIES
  }

  lemma OthersSame(m: Mem, n: Mem, e: nat)
    requires SameWalks(m, n) && OtherPdesKept(m, n, e)
    ensures OthersKept(m, n, e)
  {
    forall e2: nat | e2 != e
      ensures Space(n, e2) == Space(m, e2)
    {
      SpaceSame(m, n, e2);
    }
  }

  lemma InsertDone(m: Mem, m2: Mem, n: Mem, e: nat, pn: nat, x: Entry)
    requires SameWalks(m, m2) && OtherPdesKept(m, m2, e)
    requires EntrySet(m2, n, e, pn, x) && OtherPdesKept(m2, n, e)
    requires pn < NPAGES && Pdx(pn) != UVPT_PDX && x.Present()
    ensures Space(n, e) == Space(m, e)[pn := x] && OthersKept(m, n, e)
  {
    EntrySetSpaces(m, n, e, pn, x);
  }

  /** A reference taken from page 0, which the allocator does not manage. */
  lemma StrayDecref(a: Ledger, b: Book)
    requires LedgerOk(a, b) && |a.pages| > 0
    ensures LedgerOk(Decref(a, 0), b) <==> a.pages[0].ref != 1
  {
    var n := (a.pages[0].ref + REF_LIMIT - 1) % REF_LIMIT;
    if n != 0 {
      ChainFrame(a.pages, Decref(a, 0).pages, a.freeList, b.free);
    }
  }

  /** What page_remove does behind a table: it clears the entry and takes a reference from the page found
      there, page 0 if the entry is absent. */
  lemma TakeOut(m: Mem, a: Ledger, b: Book, e: nat, pn: nat)
    requires TablesOk(m, b) && LedgerOk(a, b) && e in m.dirs && e != KERN && Pdx(pn) < UTOP_PDX
    requires Pde(m, e, Pdx(pn)).Present()
    ensures var tab, x := Pde(m, e, Pdx(pn)).frame, PteOf(m, e, pn);
      && |a.pages| > 0 && tab < |m.phys| && |m.phys[tab]| == NPTENTRIES && x.frame < |a.pages|
      && var n, a2, b2 := SetSlot(m, tab, Ptx(pn), ZERO), Decref(a, x.frame), Unmapped(m, b, e, Pdx(pn), Ptx(pn));
      && EntrySet(m, n, e, pn, ZERO) && SamePdes(m, n) && OtherPdesKept(m, n, e) && ContentsKept(m, n, tab, -1)
      && TablesOk(n, b2) && (LedgerOk(a2, b2) <==> x.Present() || a.pages[0].ref != 1)
      && (x.Present() || a.pages[0].ref != 1 || a2.freeList == 0)
      && a2.pages[0].ref == if x.Present() then a.pages[0].ref else (a.pages[0].ref + REF_LIMIT - 1) % REF_LIMIT
  {
    if PteOf(m, e, pn).Present() {
      RemoveKeeps(m, a, b, e, pn);
      assert Decref(a, PteOf(m, e, pn).frame).pages[0] == a.pages[0];
      hide TablesOk, LedgerOk, Decref, PteOf;
    } else {
      TakeNothing(m, a, b, e, pn);
      assert Decref(a, 0).pages[0].ref == (a.pages[0].ref + REF_LIMIT - 1) % REF_LIMIT;
      hide TablesOk, LedgerOk, Decref, SetSlot, PteOf;
    }
  }

  /** The same for an absent entry: no memory changes. */
  lemma TakeNothing(m: Mem, a: Ledger, b: Book, e: nat, pn: nat)
    requires TablesOk(m, b) && LedgerOk(a, b) && e in m.dirs && e != KERN && Pdx(pn) < UTOP_PDX
    requires Pde(m, e, Pdx(pn)).Present()
    requires !PteOf(m, e, pn).Present()
    ensures var tab := Pde(m, e, Pdx(pn)).frame;
      && |a.pages| > 0 && tab < |m.phys| && |m.phys[tab]| == NPTENTRIES && PteOf(m, e, pn) == ZERO
      && SetSlot(m, tab, Ptx(pn), ZERO) == m && Unmapped(m, b, e, Pdx(pn), Ptx(pn)) == b
      && (LedgerOk(Decref(a, 0), b) <==> a.pages[0].ref != 1) && (a.pages[0].ref != 1 || Decref(a, 0).freeList == 0)
  {
    var tab := Pde(m, e, Pdx(pn)).frame;
    assert Owns(e, Pdx(pn)) && Holds(m, TableRef(e, Pdx(pn)), tab);
    assert PteOf(m, e, pn) == ZERO;
    assert m.phys[tab][Ptx(pn) := ZERO] == m.phys[tab];
    StrayDecref(a, b);
    hide TablesOk, LedgerOk;
  }

  /** The books after the first free page has become the table of (e, p). */
  function WithTable(b: Book, e: nat, p: nat): Book
    requires b.free != [] && b.free[0] < |b.holders|
  {
    Book(b.free[1..], b.holders[b.free[0] := {TableRef(e, p)}], b.held, b.managed)
  }

  /** The books after page_insert of page `pp`, not page 0, at `pn`. */
  ghost function InsertBook(m: Mem, b: Book, e: nat, pn: nat, pp: nat): Book
    requires pp < |b.holders|
    requires Pde(m, e, Pdx(pn)).Present() || (b.free != [] && b.free[0] < |b.holders|)
  {
    var c := if Pde(m, e, Pdx(pn)).Present() then b else WithTable(b, e, Pdx(pn));
    if PteOf(m, e, pn).frame == pp then c
    else AddRef(Unmapped(m, c, e, Pdx(pn), Ptx(pn)), PageRef(e, Pdx(pn), Ptx(pn)), pp)
  }

  /** Enough frames are free for sys_page_alloc at `pn`. */
  ghost predicate CanAlloc(m: Mem, b: Book, e: nat, pn: nat) {
    && b.free != [] && b.free[0] < |b.holders|
    && (Pde(m, e, Pdx(pn)).Present() || (|b.free| > 1 && b.free[1] < |b.holders|))
  }

  /** The books after sys_page_alloc at `pn`. */
  ghost function AllocBook(m: Mem, b: Book, e: nat, pn: nat): Book
    requires CanAlloc(m, b, e, pn)
  {
    InsertBook(m, Book(b.free[1..], b.holders, b.held + {b.free[0]}, b.managed), e, pn, b.free[0])
  }

  /** What sys_page_alloc has taken off the free list `b.free` is unused, and so are the pages left there. */
  lemma FreeAreApart(a: Ledger, b: Book, b1: Book, m: Mem, e: nat, pn: nat)
    requires LedgerOk(a, b1) && b.free != [] && b1 == Book(b.free[1..], b.holders, b.held + {b.free[0]}, b.managed)
    ensures b.free[0] in b1.held && b.free[0] != 0 && b.free[0] < |b.holders| && b.free[0] < |a.pages|
    ensures b.holders[b.free[0]] == {}
    ensures a.pages[b.free[0]].ref == 0
    ensures |b.free| > 1 ==>
      b.free[1] < |b.holders| && b.free[1] != b.free[0] && b.free[1] != 0 && b.holders[b.free[1]] == {}
  {
    assert |b.free| > 1 ==> b.free[1] == b1.free[0] && b1.free[0] in b1.free;
  }

  /** Entering the cleared page `t`, just taken off the free list, as the table of (e, p). */
  lemma EnterTable(m: Mem, a: Ledger, b0: Book, b: Book, e: nat, p: nat, t: nat)
    requires TablesOk(m, b) && LedgerOk(a, b)
    requires b0.free != [] && t == b0.free[0] && t !in b0.held && t in b.managed && b.holders[t] == {}
    requires b == Book(b0.free[1..], b0.holders, b0.held + {t}, b0.managed)
    requires e in m.dirs && Owns(e, p) && !Pde(m, e, p).Present() && (e == KERN ==> m.dirs.Keys == {KERN})
    requires m.phys[t] == ZERO_FRAME
    ensures var n := SetSlot(m, m.dirs[e], p, Entry(t, {P, W}));
      && TablesOk(n, WithTable(b0, e, p)) && LedgerOk(SetRef(a, t, 1), WithTable(b0, e, p))
      && SameWalks(m, n) && Pde(n, e, p) == Entry(t, {P, W})
      && (forall e2: nat, p2: nat :: e2 != e || p2 != p ==> Pde(n, e2, p2) == Pde(m, e2, p2))
  {
    AddTableKeeps(m, b, e, p, t);
    AddRefKeeps(a, b, TableRef(e, p), t);
    assert b0.held + {t} - {t} == b0.held;
    assert AddRef(b, TableRef(e, p), t) == WithTable(b0, e, p);
  }

  /** Making a table changes the books of no page that is in use. */
  lemma TableElsewhere(a: Ledger, b: Book, a2: Ledger, b2: Book, e: nat, p: nat, pp: nat)
    requires LedgerOk(a, b) && LedgerOk(a2, b2) && (b2 == b || (b.free != [] && b2 == WithTable(b, e, p)))
    requires pp < |b.holders|
    requires if pp != 0 then pp in b.managed && (pp in b.held || b.holders[pp] != {}) else b2.holders[0] == b.holders[0]
    ensures |b2.holders| == |b.holders| && b2.holders[pp] == b.holders[pp] && b2.held == b.held
    ensures b2.managed == b.managed
    ensures pp != 0 ==> pp < |a.pages| && pp < |a2.pages| && a2.pages[pp].ref == a.pages[pp].ref
  {
    assert b.free != [] ==> b.free[0] in b.free;
  }

  /** `free` lists the allocatable pages below `i`, highest first, with counts 0. */
  ghost predicate Linked(pages: seq<Page>, head: int, free: seq<nat>, i: nat, first: nat) {
    && i <= |pages| && Chain(pages, head, free)
    && (forall f :: f in free <==> 0 <= f < i && Allocatable(f, first))
    && (forall f :: f in free ==> f < |pages| && pages[f].ref == 0)
    && (forall x, y :: 0 <= x < y < |free| ==> free[y] < free[x])
  }

  lemma LinkStart(pages: seq<Page>, first: nat)
    ensures Linked(pages, -1, [], 0, first)
  {
  }

  lemma PushHighest(free: seq<nat>, i: nat)
    requires (forall x, y :: 0 <= x < y < |free| ==> free[y] < free[x]) && forall f :: f in free ==> f < i
    ensures forall x, y :: 0 <= x < y < |[i] + free| ==> ([i] + free)[y] < ([i] + free)[x]
  {
    assert forall y :: 0 <= y < |free| ==> free[y] in free;
  }

  lemma LinkNext(pages: seq<Page>, head: int, free: seq<nat>, i: nat, first: nat)
    requires Linked(pages, head, free, i, first) && i < |pages|
    ensures if Allocatable(i, first) then Linked(pages[i := Page(head, 0)], i, [i] + free, i + 1, first)
            else Linked(pages, head, free, i + 1, first)
  {
    if Allocatable(i, first) {
      Prepend(pages, head, free, i, 0);
      PushHighest(free, i);
      assert forall f :: f in [i] + free <==> f == i || f in free;
    }
    hide Chain, Allocatable;
  }

  /** By their addresses: all but page 0, the boot code of the other CPUs at 0x7000, and what lies from 0xa0000 on
      before the first free page. */
  lemma AllocatableAt(first: nat)
    ensures forall i: nat :: Allocatable(i, first) <==>
      i != 0 && i * PGSIZE != 0x7000 && !(0xa_0000 <= i * PGSIZE && i < first)
  {
  }

  /** The books after page_init: no reference, and every allocatable page free. */
  ghost function FirstBook(free: seq<nat>, n: nat, first: nat): Book {
    Book(free, seq(n, j => {}), {}, set j | 0 <= j < n && Allocatable(j, first))
  }

  /** What page_init leaves is a valid memory with no reference at all. */
  lemma InitialBook(m: Mem, a: Ledger, kd: nat, free: seq<nat>, first: nat)
    requires m.dirs == map[KERN := kd] && IOPHYS_FRAME <= kd < first && kd < |m.phys| == |a.pages|
    requires m.phys[kd] == ZERO_FRAME[UVPT_PDX := Entry(kd, {U, P})]
    requires forall i :: 0 <= i < |m.phys| ==> |m.phys[i]| == NPTENTRIES
    requires Linked(a.pages, a.freeList, free, |a.pages|, first)
    ensures var b := FirstBook(free, |m.phys|, first);
      && TablesOk(m, b) && LedgerOk(a, b)
      && (forall i, j :: 0 <= i < j < |free| ==> free[j] < free[i]) && (forall i :: i in free <==> i in b.managed)
  {
    assert forall p: nat :: Pde(m, KERN, p) == if p == UVPT_PDX then Entry(kd, {U, P}) else ZERO;
  }

  /** The sizes and bounds that array accesses rely on. */
  lemma Shape(m: Mem, a: Ledger, b: Book)
    requires TablesOk(m, b) && LedgerOk(a, b)
    ensures |m.phys| == |a.pages| == |b.holders|
    ensures forall f :: 0 <= f < |m.phys| ==> |m.phys[f]| == NPTENTRIES
    ensures KERN in m.dirs && m.dirs[KERN] !in b.managed && forall e :: e in m.dirs ==> m.dirs[e] < |m.phys|
    ensures forall f :: f in b.managed ==> 0 < f < |m.phys|
    ensures b.free == [] || b.free[0] in b.managed
  {
  }

  /** A page that may be mapped is no directory and no table. */
  lemma DataFrame(m: Mem, b: Book, e: nat, p: nat, pp: nat)
    requires TablesOk(m, b) && e in m.dirs && e != KERN && p < UTOP_PDX && Pde(m, e, p).Present()
    requires pp < |b.holders| && forall r :: r in b.holders[pp] ==> r.PageRef?
    ensures pp != m.dirs[e] && pp != Pde(m, e, p).frame
  {
    assert Holds(m, DirRef(e), m.dirs[e]) && Holds(m, TableRef(e, p), Pde(m, e, p).frame);
  }

  /** Free pages have count 0; no free page and none that page_alloc has handed out is mapped, or used as
      a table or a directory: page_alloc's result is fresh. */
  lemma FreePagesUnmapped(m: Mem, a: Ledger, b: Book)
    requires TablesOk(m, b) && LedgerOk(a, b)
    ensures forall f :: f in b.free ==> f < |a.pages| && a.pages[f].ref == 0
    ensures forall f: nat, r: Ref :: f in b.free || f in b.held ==> !Holds(m, r, f)
    ensures forall f, e: nat, p: nat, t: nat ::
      ((f in b.free || f in b.held) && e != KERN && p < UTOP_PDX && t < NPTENTRIES && Pte(m, e, p, t).Present()) ==>
      Pte(m, e, p, t).frame != f
    ensures forall f, e: nat :: (f in b.free || f in b.held) && e in m.dirs ==> m.dirs[e] != f
    ensures forall f, e: nat, p: nat :: (f in b.free || f in b.held) && Owns(e, p) && Pde(m, e, p).Present() ==>
      Pde(m, e, p).frame != f
  {
    forall f, e: nat, p: nat, t: nat |
      (f in b.free || f in b.held) && e != KERN && p < UTOP_PDX && t < NPTENTRIES && Pte(m, e, p, t).Present()
      ensures Pte(m, e, p, t).frame != f
    {
      assert Holds(m, PageRef(e, p, t), Pte(m, e, p, t).frame);
    }
    forall f, e: nat | (f in b.free || f in b.held) && e in m.dirs ensures m.dirs[e] != f {
      assert e != KERN ==> Holds(m, DirRef(e), m.dirs[e]);
    }
    forall f, e: nat, p: nat | (f in b.free || f in b.held) && Owns(e, p) && Pde(m, e, p).Present()
      ensures Pde(m, e, p).frame != f
    {
      assert Holds(m, TableRef(e, p), Pde(m, e, p).frame);
    }
  }

  /** Making the cleared page `p`, just taken off the free list, the directory of `e`. */
  lemma EnterDir(m: Mem, a: Ledger, b0: Book, b: Book, e: nat, p: nat)
    requires TablesOk(m, b) && LedgerOk(a, b) && e < KERN && e !in m.dirs
    requires b0.free != [] && p == b0.free[0] && p !in b0.held && p in b.managed && b.holders[p] == {}
    requires b == Book(b0.free[1..], b0.holders, b0.held + {p}, b0.managed)
    ensures a.pages[p].ref == 0
    ensures var n := Mem(m.phys[p := DirFrame(m, p)], m.dirs[e := p]);
      && TablesOk(n, WithDir(b0, e)) && LedgerOk(SetRef(a, p, 1), WithDir(b0, e)) && OthersKept(m, n, e)
      && (forall pn :: pn in Space(n, e) ==> Pdx(pn) >= UTOP_PDX)
      && (forall q: nat :: q < UTOP_PDX ==> !Pde(n, e, q).Present())
  {
    hide TablesOk, LedgerOk, OthersKept, Space, Pte, Pde, SetRef;
    Shape(m, a, b);
    HeldIsFree(a, b, p);
    var row := DirFrame(m, p);
    DataFrameFree(m, b, p, row);
    var m2 := SetFrame(m, p, row);
    assert DirFrame(m2, p) == row by {
      assert forall q: nat :: KernelPde(m2, q) == KernelPde(m, q);
    }
    AddDirKeeps(m2, b, e, p);
    AddRefKeeps(a, b, DirRef(e), p);
    assert b0.held + {p} - {p} == b0.held;
    assert {} + {DirRef(e)} == {DirRef(e)};
    assert AddRef(b, DirRef(e), p) == WithDir(b0, e);
    var n := Mem(m2.phys, m2.dirs[e := p]);
    NewSpace(m, m2, n, e);
    assert forall q: nat :: q < UTOP_PDX ==> Pte(n, e, q, 0) == ZERO && Pde(n, e, q) == ZERO;
  }

  lemma HeldIsFree(a: Ledger, b: Book, p: nat)
    requires LedgerOk(a, b) && p in b.held && p in b.managed && b.holders[p] == {}
    ensures p !in b.free && a.pages[p].ref == 0
  {
  }

  /** `n` is `m` with a new address space `e` that is empty below UTOP. */
  lemma NewSpace(m: Mem, m2: Mem, n: Mem, e: nat)
    requires n.dirs - {e} == m.dirs - {e}
    requires forall e2: nat, p: nat :: e2 != e ==> Pde(n, e2, p) == Pde(m2, e2, p) == Pde(m, e2, p)
    requires forall e2: nat, p: nat, t: nat :: e2 != e ==> Pte(n, e2, p, t) == Pte(m2, e2, p, t) == Pte(m, e2, p, t)
    requires forall p: nat, t: nat :: p < UTOP_PDX ==> Pte(n, e, p, t) == ZERO
    ensures OthersKept(m, n, e) && forall pn :: pn in Space(n, e) ==> Pdx(pn) >= UTOP_PDX
  {
    forall e2: nat | e2 != e
      ensures Space(n, e2) == Space(m, e2)
    {
      SpaceSame(m, n, e2);
    }
  }

  lemma OthersThrough(m: Mem, m2: Mem, n: Mem, e: nat)
    requires SameWalks(m, m2) && OtherPdesKept(m, m2, e) && OthersKept(m2, n, e)
    ensures OthersKept(m, n, e)
  {
    forall e2: nat | e2 != e
      ensures Space(n, e2) == Space(m, e2)
    {
      SpaceSame(m, m2, e2);
    }
  }

  /** An entry of kern_pgdir is as it was, or names a new table. */
  ghost predicate KernelDirKept(m: Mem, n: Mem, p: nat) {
    Pde(n, KERN, p) == Pde(m, KERN, p) || (!Pde(m, KERN, p).Present() && Pde(n, KERN, p).flags == {P, W})
  }

  lemma KernelDirTwice(m: Mem, n: Mem, o: Mem)
    requires forall p: nat :: KernelDirKept(m, n, p)
    requires forall p: nat :: KernelDirKept(n, o, p)
    ensures forall p: nat :: KernelDirKept(m, o, p)
  {
    forall p: nat ensures KernelDirKept(m, o, p) {
      assert KernelDirKept(m, n, p) && KernelDirKept(n, o, p);
    }
  }

  /** The number of tables that the `k` pages from `pn` on reach. */
  function Tables(pn: nat, k: nat): nat {
    if k == 0 then 0 else Pdx(pn + k - 1) - Pdx(pn) + 1
  }

  function RegionEntry(q: nat, pn: nat, pa: nat, perm: Flags): Entry {
    Entry(if q < pn then 0 else pa + q - pn, perm + {P})
  }

  /** Consecutive pages from `pn` mapped to consecutive frames from `pa`. */
  ghost function Region(pn: nat, n: nat, pa: nat, perm: Flags): map<nat, Entry> {
    map q: nat {:trigger RegionEntry(q, pn, pa, perm)} | pn <= q < pn + n :: RegionEntry(q, pn, pa, perm)
  }

  lemma RegionGrows(space: map<nat, Entry>, pn: nat, k: nat, pa: nat, perm: Flags)
    ensures space + Region(pn, 0, pa, perm) == space
    ensures (space + Region(pn, k, pa, perm))[pn + k := Entry(pa + k, perm + {P})] ==
            space + Region(pn, k + 1, pa, perm)
  {
  }

  // ----- Tearing an address space down -----

  function Owner(r: Ref): nat {
    match r
    case DirRef(e) => e
    case TableRef(e, _) => e
    case PageRef(e, _, _) => e
  }

  /** Going from `b` to `c`, no reference was gained and none of an owner other than `e` was lost. */
  ghost predicate OnlyLost(b: Book, c: Book, e: nat) {
    && |c.holders| == |b.holders| && c.held == b.held && c.managed == b.managed
    && (forall f, r {:trigger r in c.holders[f]} :: 0 <= f < |c.holders| && r in c.holders[f] ==> r in b.holders[f])
    && (forall f, r {:trigger r in b.holders[f]} ::
          0 <= f < |c.holders| && r in b.holders[f] && Owner(r) != e ==> r in c.holders[f])
  }

  lemma OnlyLostTwice(b: Book, c: Book, d: Book, e: nat)
    requires OnlyLost(b, c, e) && OnlyLost(c, d, e)
    ensures OnlyLost(b, d, e)
  {
  }

  /** env_free's release of the table of (e, p), all of whose entries are clear. */
  lemma FreeTableKeeps(m: Mem, a: Ledger, b: Book, e: nat, p: nat)
    requires TablesOk(m, b) && LedgerOk(a, b) && e != KERN && e in m.dirs && p < UTOP_PDX && Pde(m, e, p).Present()
    requires forall t: nat :: t < NPTENTRIES ==> !Pte(m, e, p, t).Present()
    ensures 0 < Pde(m, e, p).frame < |a.pages|
    ensures var f, n := Pde(m, e, p).frame, SetSlot(m, m.dirs[e], p, ZERO);
      var c := DropRef(b, TableRef(e, p), f);
      && TablesOk(n, c) && LedgerOk(Decref(a, f), c) && OnlyLost(b, c, e)
      && OtherWalks(m, n, e, p) && Pde(n, e, p) == ZERO
  {
    DropTableKeeps(m, b, e, p);
    DropRefKeeps(a, b, TableRef(e, p), Pde(m, e, p).frame);
  }

  /** env_free's release of the directory of `e`, which is empty below UTOP. */
  lemma FreeDirKeeps(m: Mem, a: Ledger, b: Book, e: nat)
    requires TablesOk(m, b) && LedgerOk(a, b) && e != KERN && e in m.dirs
    requires forall p: nat :: p < UTOP_PDX ==> !Pde(m, e, p).Present()
    ensures m.dirs[e] < |a.pages| && m.dirs[e] != 0
    ensures var n, c := Mem(m.phys, m.dirs - {e}), DropRef(b, DirRef(e), m.dirs[e]);
      && TablesOk(n, c) && LedgerOk(Decref(a, m.dirs[e]), c) && OnlyLost(b, c, e)
      && OthersKept(m, n, e)
  {
    hide TablesOk, LedgerOk, OthersKept, Decref;
    Shape(m, a, b);
    DropDirKeeps(m, b, e);
    HolderNotHeld(a, b, m.dirs[e], DirRef(e));
    DropRefKeeps(a, b, DirRef(e), m.dirs[e]);
    DirGone(m, e);
  }

  lemma HolderNotHeld(a: Ledger, b: Book, f: nat, r: Ref)
    requires LedgerOk(a, b) && f in b.managed && f < |b.holders| && r in b.holders[f]
    ensures f !in b.held && f !in b.free
  {
  }

  /** Taking away a directory changes no other space. */
  lemma DirGone(m: Mem, e: nat)
    ensures OthersKept(m, Mem(m.phys, m.dirs - {e}), e)
  {
    var n := Mem(m.phys, m.dirs - {e});
    forall e2: nat | e2 != e
      ensures Space(n, e2) == Space(m, e2)
    {
      SpaceSame(m, n, e2);
    }
  }

  /** Once `e` has no directory, exactly its references are gone. */
  lemma AllLost(m: Mem, b: Book, c: Book, e: nat, f: nat)
    requires TablesOk(m, c) && OnlyLost(b, c, e) && e !in m.dirs && e != KERN && f < |b.holders|
    ensures c.holders[f] == set r | r in b.holders[f] && Owner(r) != e
  {
    assert forall r :: Owner(r) == e ==> !Holds(m, r, f);
  }

  lemma FreedBook(m: Mem, a: Ledger, b: Book, c: Book, e: nat)
    requires TablesOk(m, c) && LedgerOk(a, c) && OnlyLost(b, c, e) && e !in m.dirs && e != KERN
    ensures forall f :: f in c.managed ==>
      && f < |b.holders|
      && c.holders[f] == (set r | r in b.holders[f] && Owner(r) != e)
      && a.pages[f].ref == |set r | r in b.holders[f] && Owner(r) != e|
    ensures forall f :: f in c.free <==>
      f in c.managed && f !in c.held && forall r :: r in b.holders[f] ==> Owner(r) == e
  {
    forall f | f in c.managed
      ensures c.holders[f] == set r | r in b.holders[f] && Owner(r) != e
    {
      AllLost(m, b, c, e, f);
    }
  }

  ghost predicate IsTable(m: Mem, e: nat, f: nat) {
    exists p: nat :: p < UTOP_PDX && Pde(m, e, p).Present() && Pde(m, e, p).frame == f
  }

  /** Every frame keeps its contents but for the directory and the tables of `e`. */
  ghost predicate PagesKept(m: Mem, n: Mem, e: nat) {
    && e in m.dirs && |n.phys| == |m.phys|
    && forall f: nat :: f < |m.phys| && f != m.dirs[e] && !IsTable(m, e, f) ==> n.phys[f] == m.phys[f]
  }

  /** The walks through directory entries other than (e, p) are unchanged. */
  ghost predicate OtherWalks(m: Mem, n: Mem, e: nat, p: nat) {
    && n.dirs == m.dirs
    && (forall e2: nat, p2: nat :: e2 != e || p2 != p ==> Pde(n, e2, p2) == Pde(m, e2, p2))
    && (forall e2: nat, p2: nat, t: nat :: p2 != UVPT_PDX && (e2 != e || p2 != p) ==>
          Pte(n, e2, p2, t) == Pte(m, e2, p2, t))
  }

  /** The books after the first free page has become the directory of `e`. */
  function WithDir(b: Book, e: nat): Book
    requires b.free != [] && b.free[0] < |b.holders|
  {
    Book(b.free[1..], b.holders[b.free[0] := {DirRef(e)}], b.held, b.managed)
  }

  lemma OtherWalksKept(m: Mem, n: Mem, e: nat, p: nat)
    requires OtherWalks(m, n, e, p)
    ensures OthersKept(m, n, e)
  {
    forall e2: nat | e2 != e
      ensures Space(n, e2) == Space(m, e2)
    {
      SpaceSame(m, n, e2);
    }
  }

  // ----- Counts and the free list follow from the tables alone -----

  /** Two memories hold the same counted references. */
  ghost predicate SameRefs(m: Mem, n: Mem) {
    forall r, f: nat {:trigger Holds(m, r, f)} {:trigger Holds(n, r, f)} :: Holds(m, r, f) <==> Holds(n, r, f)
  }

  /** Whatever happened in between, the counts and the set of free pages depend only on the
      references that the tables hold. */
  lemma CountsFollowTables(m: Mem, a: Ledger, b: Book, n: Mem, a2: Ledger, b2: Book)
    requires TablesOk(m, b) && LedgerOk(a, b) && TablesOk(n, b2) && LedgerOk(a2, b2)
    requires SameRefs(m, n) && b2.managed == b.managed && b2.held == b.held
    ensures forall f :: f in b.managed ==> a2.pages[f].ref == a.pages[f].ref
    ensures (set f | f in b2.free) == (set f | f in b.free)
  {
    forall f | f in b.managed
      ensures b2.holders[f] == b.holders[f]
    {
      assert forall r :: r in b.holders[f] <==> Holds(m, r, f);
      assert forall r :: r in b2.holders[f] <==> Holds(n, r, f);
    }
  }

  /** If `e` has no address space in either memory and the others are untouched, the references are
      the same. */
  lemma OthersHoldTheSame(m: Mem, n: Mem, e: nat)
    requires OthersKept(m, n, e) && e !in m.dirs && e !in n.dirs && e < KERN
    ensures SameRefs(m, n)
  {
    assert m.dirs == m.dirs - {e} && n.dirs == n.dirs - {e};
    forall e2: nat, p: nat, t: nat | p < UTOP_PDX && t < NPTENTRIES
      ensures Pte(n, e2, p, t).Present() <==> Pte(m, e2, p, t).Present()
      ensures Pte(n, e2, p, t).Present() ==> Pte(n, e2, p, t) == Pte(m, e2, p, t)
    {
      var pn := p * NPTENTRIES + t;
      assert Pdx(pn) == p && Ptx(pn) == t;
      if e2 != e {
        assert Space(n, e2) == Space(m, e2);
        assert pn in Space(m, e2) <==> PteOf(m, e2, pn).Present();
        assert pn in Space(n, e2) <==> PteOf(n, e2, pn).Present();
      }
    }
  }

  // ----- Addresses of the kernel -----

  /** The part of an address space above UTOP that all environments share with kern_pgdir. */
  predicate SharedDir(p: nat) {
    UTOP_PDX <= p < NPDENTRIES && p != UVPT_PDX
  }

  /** The table above UTOP that a directory names is kern_pgdir's. */
  lemma SharedTable(m: Mem, b: Book, e: nat, p: nat)
    requires TablesOk(m, b) && e in m.dirs && e != KERN && SharedDir(p) && Pde(m, e, p).Present()
    ensures RowsApart(m, e, p) && Pde(m, e, p) == KernelPde(m, p)
    ensures forall e2 :: e2 in m.dirs ==>
      m.dirs[e2] != Pde(m, e, p).frame && Pde(m, e2, p).Present() && Pde(m, e2, p).frame == Pde(m, e, p).frame
    ensures forall t: nat :: t < NPTENTRIES ==> Pte(m, e, p, t) == m.phys[Pde(m, e, p).frame][t]
  {
    var tab := Pde(m, e, p).frame;
    assert Pde(m, e, p) == KernelPde(m, p) && Pde(m, KERN, p).Present();
    assert Owns(KERN, p) && Holds(m, TableRef(KERN, p), tab);
    forall e2 | e2 in m.dirs ensures m.dirs[e2] != tab {
      assert e2 != KERN ==> Holds(m, DirRef(e2), m.dirs[e2]);
    }
    assert forall e2 :: e2 in m.dirs && e2 != KERN ==> Pde(m, e2, p) == KernelPde(m, p);
  }

  /** page_insert's stores above UTOP are seen in every address space, kern_pgdir included; and if they raise
      the permissions of the directory entry, the kernel part of the environment differs from the others', and
      no books fit. */
  lemma SharedInsert(m: Mem, b: Book, e: nat, pn: nat, x: Entry)
    requires TablesOk(m, b) && e in m.dirs && e != KERN && SharedDir(Pdx(pn)) && Pde(m, e, Pdx(pn)).Present()
    ensures forall e2 :: e2 in m.dirs ==> PteOf(WriteEntry(m, e, pn, x), e2, pn) == x
    ensures !(x.flags <= Pde(m, e, Pdx(pn)).flags) ==> forall b2: Book :: !TablesOk(WriteEntry(m, e, pn, x), b2)
  {
    var p, tab := Pdx(pn), Pde(m, e, Pdx(pn)).frame;
    SharedTable(m, b, e, p);
    var n := WriteEntry(m, e, pn, x);
    SharedPdes(m, b, e, pn, x);
    forall e2 | e2 in m.dirs ensures PteOf(n, e2, pn) == x {
      assert Pde(n, e2, p).Present() && Pde(n, e2, p).frame == tab;
    }
    if !(x.flags <= Pde(m, e, p).flags) {
      forall b2: Book ensures !TablesOk(n, b2) {
        assert KernelPde(n, p) == KernelPde(m, p) && Pde(n, e, p) != KernelPde(m, p);
      }
    }
  }

  lemma SharedPdes(m: Mem, b: Book, e: nat, pn: nat, x: Entry)
    requires TablesOk(m, b) && e in m.dirs && e != KERN && SharedDir(Pdx(pn)) && Pde(m, e, Pdx(pn)).Present()
    ensures WriteEntry(m, e, pn, x).dirs == m.dirs
    ensures Slot(WriteEntry(m, e, pn, x), Pde(m, e, Pdx(pn)).frame, Ptx(pn)) == x
    ensures forall e2: nat :: e2 in m.dirs ==>
      Pde(WriteEntry(m, e, pn, x), e2, Pdx(pn)) ==
      (if e2 == e then Entry(Pde(m, e, Pdx(pn)).frame, Pde(m, e, Pdx(pn)).flags + x.flags) else Pde(m, e2, Pdx(pn)))
    ensures forall e2: nat, p2: nat :: p2 != Pdx(pn) ==> Pde(WriteEntry(m, e, pn, x), e2, p2) == Pde(m, e2, p2)
  {
    SharedTable(m, b, e, Pdx(pn));
    forall e2 | e2 in m.dirs && e2 != e ensures m.dirs[e2] != m.dirs[e] {
      assert Holds(m, DirRef(e), m.dirs[e]) && (e2 != KERN ==> Holds(m, DirRef(e2), m.dirs[e2]));
    }
  }

  /** A table in any directory is no directory, and the one named at `p` above UTOP is named at no other place. */
  lemma SharedApart(m: Mem, b: Book, e: nat, p: nat, e2: nat, p2: nat)
    requires TablesOk(m, b) && e in m.dirs && e != KERN && SharedDir(p) && Pde(m, e, p).Present()
    requires p2 != UVPT_PDX && Pde(m, e2, p2).Present()
    ensures Pde(m, e2, p2).frame != m.dirs[e]
    ensures p2 != p ==> Pde(m, e2, p2).frame != Pde(m, e, p).frame
  {
    var owner := if p2 < UTOP_PDX then e2 else KERN;
    var tab, g := Pde(m, e, p).frame, Pde(m, e2, p2).frame;
    assert p2 >= UTOP_PDX && e2 != KERN ==> Pde(m, e2, p2) == KernelPde(m, p2);
    assert Pde(m, e, p) == KernelPde(m, p);
    assert Owns(owner, p2) && Holds(m, TableRef(owner, p2), g);
    assert Holds(m, DirRef(e), m.dirs[e]);
    assert Holds(m, TableRef(KERN, p), tab);
  }

  lemma SharedPlaced(m: Mem, b: Book, e: nat, pn: nat, x: Entry)
    requires TablesOk(m, b) && e in m.dirs && e != KERN && SharedDir(Pdx(pn)) && Pde(m, e, Pdx(pn)).Present()
    ensures PlacedAbove(m, WriteEntry(m, e, pn, x), e, pn, x) && SameTables(m, WriteEntry(m, e, pn, x))
  {
    hide TablesOk, Pte;
    SharedInsert(m, b, e, pn, x);
    SharedOthers(m, b, e, pn, x);
    SharedSameTables(m, b, e, pn, x);
    NoSpace(m, WriteEntry(m, e, pn, x));
  }

  lemma SharedSameTables(m: Mem, b: Book, e: nat, pn: nat, x: Entry)
    requires TablesOk(m, b) && e in m.dirs && e != KERN && SharedDir(Pdx(pn)) && Pde(m, e, Pdx(pn)).Present()
    ensures SameTables(m, WriteEntry(m, e, pn, x)) && WriteEntry(m, e, pn, x).dirs == m.dirs
  {
    hide TablesOk;
    SharedPdes(m, b, e, pn, x);
  }

  lemma NoSpace(m: Mem, n: Mem)
    requires n.dirs == m.dirs
    ensures forall e: nat, p: nat, t: nat :: e !in m.dirs ==> Pte(n, e, p, t) == Pte(m, e, p, t)
  {
  }

  /** Every other address of every space is as it was. */
  lemma SharedOthers(m: Mem, b: Book, e: nat, pn: nat, x: Entry)
    requires TablesOk(m, b) && e in m.dirs && e != KERN && SharedDir(Pdx(pn)) && Pde(m, e, Pdx(pn)).Present()
    ensures forall e2: nat, p2: nat, t2: nat :: p2 != UVPT_PDX && (p2 != Pdx(pn) || t2 != Ptx(pn)) ==>
      Pte(WriteEntry(m, e, pn, x), e2, p2, t2) == Pte(m, e2, p2, t2)
  {
    hide TablesOk;
    SharedPdes(m, b, e, pn, x);
    SharedTable(m, b, e, Pdx(pn));
    forall e2: nat, p2: nat, t2: nat | p2 != UVPT_PDX && (p2 != Pdx(pn) || t2 != Ptx(pn)) && Pde(m, e2, p2).Present()
      ensures Pte(WriteEntry(m, e, pn, x), e2, p2, t2) == Pte(m, e2, p2, t2)
    {
      SharedApart(m, b, e, Pdx(pn), e2, p2);
    }
  }

  /** What page_insert at or above UTOP comes to. */
  datatype Above = Placed | Full | Panicked

  /** `x` is written at page `pn` of `e`, at or above UTOP: into the kernel's table, which all address spaces
      share; into a table of `e` alone if there was none; or, in the window at UVPT, into the directory of `e`. */
  ghost predicate PlacedAbove(m: Mem, n: Mem, e: nat, pn: nat, x: Entry) {
    && n.dirs == m.dirs
    && if Pdx(pn) == UVPT_PDX then
         && Pde(n, e, Ptx(pn)) == x
         && forall e2: nat, p: nat :: e2 != e || (p != Ptx(pn) && p != UVPT_PDX) ==> Pde(n, e2, p) == Pde(m, e2, p)
       else
         forall e2: nat, p: nat, t: nat :: p != UVPT_PDX ==>
           Pte(n, e2, p, t) ==
           if SeesAbove(m, e, pn, e2) && p == Pdx(pn) && t == Ptx(pn) then x else Pte(m, e2, p, t)
  }

  predicate SeesAbove(m: Mem, e: nat, pn: nat, e2: nat) {
    e2 in m.dirs && (e2 == e || Pde(m, e, Pdx(pn)).Present())
  }

  /** No books fit memory and counts. */
  ghost predicate NoBooks(m: Mem, a: Ledger) {
    forall b: Book :: !(TablesOk(m, b) && LedgerOk(a, b))
  }

  /** An environment other than `e` maps frame `f`. */
  ghost predicate MappedBeside(m: Mem, e: nat, f: nat) {
    exists e2: nat, p: nat, t: nat :: e2 != e && Holds(m, PageRef(e2, p, t), f)
  }

  lemma SameHolders(m: Mem, b: Book, n: Mem, b2: Book, f: nat)
    requires TablesOk(m, b) && TablesOk(n, b2) && f < |m.phys| == |n.phys|
    requires forall r :: Holds(n, r, f) <==> Holds(m, r, f)
    ensures b2.holders[f] == b.holders[f]
  {
    assert forall r :: r in b2.holders[f] <==> r in b.holders[f];
  }

  lemma MappedHere(m: Mem, e: nat, pn: nat, other: nat)
    requires PteOf(m, e, pn).Present() && Pdx(pn) < UTOP_PDX && e != KERN && e != other
    ensures MappedBeside(m, other, PteOf(m, e, pn).frame)
  {
    assert Holds(m, PageRef(e, Pdx(pn), Ptx(pn)), PteOf(m, e, pn).frame);
  }

  /** Where nothing but an entry of the kernel part changes, the references are as they were, so that a count that
      differs does not fit. */
  lemma CountOff(m: Mem, b: Book, a: Ledger, n: Mem, a2: Ledger, e: nat, f: nat)
    requires TablesOk(m, b) && LedgerOk(a, b) && MappedBeside(m, e, f) && n.dirs == m.dirs && SameTables(m, n)
    requires |n.phys| == |m.phys|
    requires forall e2: nat, p: nat, t: nat :: p < UTOP_PDX ==> Pte(n, e2, p, t) == Pte(m, e2, p, t)
    requires f < |a.pages| && f < |a2.pages| && a2.pages[f].ref != a.pages[f].ref
    ensures NoBooks(n, a2)
  {
    MappedIsNoTable(m, b, e, f);
    forall r ensures Holds(n, r, f) <==> Holds(m, r, f) {
    }
    forall b2: Book ensures !(TablesOk(n, b2) && LedgerOk(a2, b2)) {
      if TablesOk(n, b2) {
        SameHolders(m, b, n, b2, f);
        var e2: nat, p: nat, t: nat :| e2 != e && Holds(m, PageRef(e2, p, t), f);
        assert Holds(n, PageRef(e2, p, t), f) && f in b2.managed;
      }
    }
  }

  /** A page that is mapped is no table and no directory. */
  lemma MappedIsNoTable(m: Mem, b: Book, e: nat, f: nat)
    requires TablesOk(m, b) && MappedBeside(m, e, f)
    ensures f in b.managed && forall r :: Holds(m, r, f) ==> r.PageRef?
  {
    var e2: nat, p: nat, t: nat :| e2 != e && Holds(m, PageRef(e2, p, t), f);
    assert PageRef(e2, p, t) in b.holders[f];
  }

  /** page_insert behind a directory entry of the kernel part that is absent: the cleared page `t` becomes a table of
      this environment alone. */
  lemma LoneInsert(m: Mem, b: Book, e: nat, pn: nat, t: nat, x: Entry)
    requires TablesOk(m, b) && e in m.dirs && e != KERN && SharedDir(Pdx(pn)) && !Pde(m, e, Pdx(pn)).Present()
    requires t in b.managed && b.holders[t] == {} && m.phys[t] == ZERO_FRAME && x.Present()
    ensures var n1 := SetSlot(m, m.dirs[e], Pdx(pn), Entry(t, {P, W}));
      && RowsApart(n1, e, Pdx(pn)) && Pde(n1, e, Pdx(pn)) == Entry(t, {P, W}) && PteOf(n1, e, pn) == ZERO
      && var n := WriteEntry(n1, e, pn, x);
      && EntrySet(m, n, e, pn, x) && forall b2: Book :: !TablesOk(n, b2)
  {
    hide TablesOk;
    var d, p := m.dirs[e], Pdx(pn);
    var n1 := SetSlot(m, d, p, Entry(t, {P, W}));
    var n := WriteEntry(n1, e, pn, x);
    LoneApart(m, b, e, t);
    LoneShape(m, b, e, p);
    assert forall e2: nat, p2: nat ::
        Pde(n1, e2, p2) == if e2 == e && p2 == p then Entry(t, {P, W}) else Pde(m, e2, p2);
    assert forall e2: nat, p2: nat :: e2 != e || p2 != p ==> Pde(n, e2, p2) == Pde(m, e2, p2);
    assert Pde(n, e, p).Present() && Pde(n, e, p).frame == t;
    forall e2: nat, p2: nat, t2: nat | p2 != UVPT_PDX && (e2 != e || p2 != p) && Pde(m, e2, p2).Present()
      ensures Pte(n, e2, p2, t2) == Pte(m, e2, p2, t2)
    {
      assert Pde(m, e2, p2).frame != d && Pde(m, e2, p2).frame != t;
    }
    assert KernelPde(n, p) == KernelPde(m, p);
    forall b2: Book ensures !TablesOk(n, b2) {
      NotKernels(n, b2, e, p);
    }
  }

  lemma LoneShape(m: Mem, b: Book, e: nat, p: nat)
    requires TablesOk(m, b) && e in m.dirs && e != KERN && SharedDir(p)
    ensures m.dirs[e] < |m.phys| == |b.holders| && Pde(m, e, p) == KernelPde(m, p)
    ensures forall f :: 0 <= f < |m.phys| ==> |m.phys[f]| == NPTENTRIES
    ensures forall f :: f in b.managed ==> f < |m.phys|
  {
  }

  /** No books fit a directory entry that is not the kernel's. */
  lemma NotKernels(n: Mem, b: Book, e: nat, p: nat)
    requires e in n.dirs && e != KERN && SharedDir(p) && Pde(n, e, p) != KernelPde(n, p)
    ensures !TablesOk(n, b)
  {
  }

  /** A free page is no directory and no table, and a directory is no table. */
  lemma LoneApart(m: Mem, b: Book, e: nat, t: nat)
    requires TablesOk(m, b) && e in m.dirs && e != KERN && t in b.managed && b.holders[t] == {}
    ensures forall e2 :: e2 in m.dirs ==> m.dirs[e2] != t && (e2 != e ==> m.dirs[e2] != m.dirs[e])
    ensures forall e2: nat, p2: nat :: p2 != UVPT_PDX && Pde(m, e2, p2).Present() ==>
      Pde(m, e2, p2).frame != t && Pde(m, e2, p2).frame != m.dirs[e]
  {
    assert Holds(m, DirRef(e), m.dirs[e]);
    forall e2 | e2 in m.dirs ensures m.dirs[e2] != t && (e2 != e ==> m.dirs[e2] != m.dirs[e]) {
      assert e2 != KERN ==> Holds(m, DirRef(e2), m.dirs[e2]);
    }
    forall e2: nat, p2: nat | p2 != UVPT_PDX && Pde(m, e2, p2).Present()
      ensures Pde(m, e2, p2).frame != t && Pde(m, e2, p2).frame != m.dirs[e]
    {
      var owner := TableOwner(m, b, e2, p2);
      assert Holds(m, TableRef(owner, p2), Pde(m, e2, p2).frame);
    }
  }

  /** The address space that counts the table at (e, p). */
  lemma TableOwner(m: Mem, b: Book, e: nat, p: nat) returns (owner: nat)
    requires TablesOk(m, b) && p != UVPT_PDX && Pde(m, e, p).Present()
    ensures Holds(m, TableRef(owner, p), Pde(m, e, p).frame)
  {
    owner := if p < UTOP_PDX then e else KERN;
    assert p >= UTOP_PDX && e != KERN ==> Pde(m, e, p) == KernelPde(m, p);
  }

  /** page_insert's two stores in the window at UVPT, where the directory is its own table. */
  function WriteWindow(m: Mem, e: nat, q: nat, x: Entry): Mem
    requires e in m.dirs
  {
    var m2 := SetSlot(m, m.dirs[e], q, x);
    var y := Pde(m2, e, UVPT_PDX);
    SetSlot(m2, m.dirs[e], UVPT_PDX, Entry(y.frame, y.flags + x.flags))
  }

  /** The page becomes what directory entry `q` names. */
  lemma WindowInsert(m: Mem, b: Book, e: nat, q: nat, x: Entry)
    requires TablesOk(m, b) && e in m.dirs && e != KERN && q < NPDENTRIES && x.Present()
    ensures var n := WriteWindow(m, e, q, x);
      && n.dirs == m.dirs && Pde(n, e, q) == x
      && forall e2: nat, p: nat :: e2 != e || (p != q && p != UVPT_PDX) ==> Pde(n, e2, p) == Pde(m, e2, p)
    ensures MappedBeside(m, e, x.frame) ==> forall b2: Book :: !TablesOk(WriteWindow(m, e, q, x), b2)
  {
    var n, f := WriteWindow(m, e, q, x), x.frame;
    WindowPdes(m, b, e, q, x);
    if MappedBeside(m, e, f) {
      var e2: nat, p: nat, t: nat :| e2 != e && Holds(m, PageRef(e2, p, t), f);
      MappedIsNoTable(m, b, e, f);
      assert Holds(m, TableRef(e2, p), Pde(m, e2, p).frame) && Holds(m, DirRef(e), m.dirs[e]);
      assert Pte(n, e2, p, t) == Pte(m, e2, p, t);
      forall b2: Book ensures !TablesOk(n, b2) {
        WindowClash(n, b2, e, q, e2, p, t);
      }
    }
  }

  lemma WindowPdes(m: Mem, b: Book, e: nat, q: nat, x: Entry)
    requires TablesOk(m, b) && e in m.dirs && e != KERN && q < NPDENTRIES && x.Present()
    ensures var n := WriteWindow(m, e, q, x);
      && n.dirs == m.dirs && Pde(n, e, q) == x && |n.phys| == |m.phys|
      && (forall f :: 0 <= f < |m.phys| && f != m.dirs[e] ==> n.phys[f] == m.phys[f])
      && forall e2: nat, p: nat :: e2 != e || (p != q && p != UVPT_PDX) ==> Pde(n, e2, p) == Pde(m, e2, p)
  {
    forall e2 | e2 in m.dirs && e2 != e ensures m.dirs[e2] != m.dirs[e] {
      assert Holds(m, DirRef(e), m.dirs[e]) && (e2 != KERN ==> Holds(m, DirRef(e2), m.dirs[e2]));
    }
  }

  /** A page cannot be mapped and be named in a directory, too. */
  lemma WindowClash(n: Mem, b: Book, e: nat, q: nat, e2: nat, p: nat, t: nat)
    requires e in n.dirs && e != KERN && q < NPDENTRIES && Pde(n, e, q).Present()
    requires Holds(n, PageRef(e2, p, t), Pde(n, e, q).frame)
    ensures !TablesOk(n, b)
  {
    if TablesOk(n, b) {
      assert PageRef(e2, p, t) in b.holders[Pde(n, e, q).frame];
      if q == UVPT_PDX {
        assert Holds(n, DirRef(e), n.dirs[e]);
      } else {
        var owner := TableOwner(n, b, e, q);
      }
    }
  }

  lemma WindowStored(m: Mem, n: Mem, e: nat, q: nat, x: Entry)
    requires e in m.dirs && m.dirs[e] < |m.phys| && |m.phys[m.dirs[e]]| == NPDENTRIES && q < NPDENTRIES
    requires var d := m.dirs[e]; var row := m.phys[d][q := x];
      n == Mem(m.phys[d := row[UVPT_PDX := Entry(row[UVPT_PDX].frame, row[UVPT_PDX].flags + x.flags)]], m.dirs)
    ensures n == WriteWindow(m, e, q, x)
  {
    var d := m.dirs[e];
    var row := m.phys[d][q := x];
    var m2 := SetSlot(m, d, q, x);
    assert m2.phys[d] == row && Pde(m2, e, UVPT_PDX) == row[UVPT_PDX];
  }

  /** Through the window, the walk ends in the directory. */
  lemma WindowEntry(m: Mem, b: Book, e: nat, pn: nat)
    requires TablesOk(m, b) && e in m.dirs && Pdx(pn) == UVPT_PDX
    ensures m.dirs[e] < |m.phys| && |m.phys[m.dirs[e]]| == NPDENTRIES && PteOf(m, e, pn) == m.phys[m.dirs[e]][Ptx(pn)]
  {
    assert Pde(m, e, UVPT_PDX) == Entry(m.dirs[e], {P, U});
  }

  /** A page above UTOP lies in the shared part or in the window, whose directory entry is present; where an entry
      is absent the walk yields 0. */
  lemma AboveUser(m: Mem, b: Book, e: nat, pn: nat)
    requires TablesOk(m, b) && e in m.dirs && UTOP_PDX <= Pdx(pn) && pn < NPAGES
    ensures SharedDir(Pdx(pn)) || (Pdx(pn) == UVPT_PDX && Pde(m, e, Pdx(pn)).Present())
    ensures !Pde(m, e, Pdx(pn)).Present() ==> PteOf(m, e, pn) == ZERO
    ensures m.dirs[e] < |m.phys| && |m.phys[m.dirs[e]]| == NPDENTRIES
    ensures Pde(m, e, Pdx(pn)) == m.phys[m.dirs[e]][Pdx(pn)]
  {
    assert Pde(m, e, UVPT_PDX) == Entry(m.dirs[e], {P, U});
  }

  lemma SameMem(m: Mem, n: Mem)
    requires ContentsKept(m, n, -1, -1) && n.dirs == m.dirs
    ensures n == m
  {
  }

  lemma LonePlaced(m0: Mem, m: Mem, n: Mem, e: nat, pn: nat, x: Entry)
    requires SameWalks(m0, m) && SamePdes(m0, m) && EntrySet(m, n, e, pn, x) && e in m.dirs && Pdx(pn) != UVPT_PDX
    requires !Pde(m0, e, Pdx(pn)).Present()
    ensures PlacedAbove(m0, n, e, pn, x)
  {
  }

  lemma PlacedCount(m: Mem, b: Book, a: Ledger, n: Mem, a2: Ledger, e: nat, pn: nat, x: Entry)
    requires TablesOk(m, b) && LedgerOk(a, b) && MappedBeside(m, e, x.frame) && SharedDir(Pdx(pn))
    requires PlacedAbove(m, n, e, pn, x) && SameTables(m, n) && |n.phys| == |m.phys|
    requires x.frame < |a.pages| && x.frame < |a2.pages| && a2.pages[x.frame].ref != a.pages[x.frame].ref
    ensures NoBooks(n, a2)
  {
    CountOff(m, b, a, n, a2, e, x.frame);
  }

  // ----- user_mem_check -----

  const ULIM := 0xef80_0000

  /** The size of the address space; addresses and sizes are 32 bits wide and wrap. */
  const WORDS := 0x1_0000_0000

  /** The address that user_mem_check has come to after `k` turns, and the one it compares it with. */
  function Stop(va: nat, len: nat): nat {
    (va + len) % WORDS
  }

  function AddrAt(va: nat, k: nat): nat {
    (va + k * PGSIZE) % WORDS
  }

  /** The loop makes turn `k` if every test passes. */
  ghost predicate Visits(va: nat, len: nat, k: nat) {
    forall j: nat :: j <= k ==> AddrAt(va, j) < Stop(va, len)
  }

  /** The entry for `addr` exists and carries every flag of `perm`. */
  predicate Grants(m: Mem, e: nat, addr: nat, perm: Flags) {
    Pde(m, e, Pdx(addr / PGSIZE)).Present() && perm <= PteOf(m, e, addr / PGSIZE).flags
  }

  /** Some turn tests the page of `addr`. */
  ghost predicate Covered(va: nat, len: nat, addr: nat) {
    exists k: nat :: Visits(va, len, k) && AddrAt(va, k) / PGSIZE == addr / PGSIZE
  }

  /** Without a wrap, a turn is made exactly if its address lies in the range. */
  lemma VisitsNoWrap(va: nat, len: nat, k: nat)
    requires va + len < WORDS && va + k * PGSIZE < WORDS
    ensures Visits(va, len, k) <==> va + k * PGSIZE < va + len
  {
    if va + k * PGSIZE < va + len {
      forall j: nat | j <= k ensures AddrAt(va, j) < Stop(va, len) {
        assert va + j * PGSIZE <= va + k * PGSIZE;
      }
    } else {
      assert AddrAt(va, k) >= Stop(va, len);
    }
  }

  /** A range that ends at or beyond the end of the address space is not tested at all. */
  lemma VisitsNothing(va: nat, len: nat)
    requires va < WORDS && len < WORDS
    ensures (forall k: nat :: !Visits(va, len, k)) <==> len == 0 || va + len >= WORDS
  {
    assert AddrAt(va, 0) == va;
    if len == 0 || va + len >= WORDS {
      assert Stop(va, len) <= va;
    } else {
      VisitsNoWrap(va, len, 0);
    }
  }

  /** Every page of [va, va+len) is tested if and only if the range ends before the end of the address space
      and the bytes before `va` in its page do not push its end into one page more. */
  lemma VisitsCover(va: nat, len: nat)
    requires 0 < len < WORDS && va < WORDS
    ensures (forall addr: nat :: va <= addr < va + len ==> Covered(va, len, addr))
      <==> va + len < WORDS && va % PGSIZE + (len - 1) % PGSIZE < PGSIZE
  {
    var last := va + len - 1;
    if va + len >= WORDS {
      VisitsNothing(va, len);
      assert !Covered(va, len, va);
    } else if va % PGSIZE + (len - 1) % PGSIZE < PGSIZE {
      assert last / PGSIZE == va / PGSIZE + (len - 1) / PGSIZE;
      forall addr: nat | va <= addr < va + len ensures Covered(va, len, addr) {
        var k: nat := addr / PGSIZE - va / PGSIZE;
        assert k <= (len - 1) / PGSIZE;
        assert va + k * PGSIZE <= last && (va + k * PGSIZE) / PGSIZE == addr / PGSIZE;
        VisitsNoWrap(va, len, k);
      }
    } else {
      LastNotCovered(va, len);
    }
  }

  lemma LastNotCovered(va: nat, len: nat)
    requires 0 < len && va + len < WORDS && va % PGSIZE + (len - 1) % PGSIZE >= PGSIZE
    ensures !Covered(va, len, va + len - 1)
  {
    var last := va + len - 1;
    assert last / PGSIZE == va / PGSIZE + (len - 1) / PGSIZE + 1;
    var n: nat := (len - 1) / PGSIZE + 1;
    assert va + n * PGSIZE >= va + len && va + n * PGSIZE < WORDS;
    VisitsNoWrap(va, len, n);
    forall k: nat | Visits(va, len, k) ensures AddrAt(va, k) / PGSIZE != last / PGSIZE {
      assert k >= n ==> Visits(va, len, n);
      assert (va + k * PGSIZE) / PGSIZE == va / PGSIZE + k;
    }
  }

  /** Every page of a range that does not wrap is tested, but for the last if the offset condition fails. */
  lemma CoveredOrLast(va: nat, len: nat, addr: nat)
    requires 0 < len && va + len < WORDS && va <= addr < va + len
    ensures Covered(va, len, addr) ||
            (va % PGSIZE + (len - 1) % PGSIZE >= PGSIZE && addr / PGSIZE == (va + len - 1) / PGSIZE)
  {
    var k: nat := addr / PGSIZE - va / PGSIZE;
    if k <= (len - 1) / PGSIZE {
      assert (va + k * PGSIZE) / PGSIZE == addr / PGSIZE && va + k * PGSIZE < va + len;
      assert AddrAt(va, k) == va + k * PGSIZE;
      VisitsNoWrap(va, len, k);
    }
  }

  /** The hardware grants `perm` on the byte at `addr`. */
  ghost predicate Accessible(m: Mem, e: nat, addr: nat, perm: Flags) {
    perm <= AccessRights(m, e, addr / PGSIZE)
  }

  /** The hardware grants `perm` on every byte of a user range exactly if user_mem_check approves the range, and
      either its offsets fit into one page or the page that the loop then leaves out, the last, grants `perm` as
      well. */
  lemma AccessibleIff(m: Mem, b: Book, e: nat, va: nat, len: nat, perm: Flags)
    requires TablesOk(m, b) && e in m.dirs && e != KERN && perm != {} && 0 < len
    requires va + len <= UTOP_PDX * NPTENTRIES * PGSIZE
    ensures (forall addr: nat :: va <= addr < va + len ==> Accessible(m, e, addr, perm)) <==>
            && (forall k: nat :: Visits(va, len, k) ==> Grants(m, e, AddrAt(va, k), perm))
            && (va % PGSIZE + (len - 1) % PGSIZE < PGSIZE || Grants(m, e, va + len - 1, perm))
  {
    hide TablesOk, AccessRights, Visits, AddrAt;
    var last: nat := va + len - 1;
    forall addr: nat | va <= addr < va + len
      ensures Accessible(m, e, addr, perm) <==> Grants(m, e, addr, perm)
    {
      GrantsIsAccess(m, b, e, addr, perm);
    }
    if forall addr: nat :: va <= addr < va + len ==> Accessible(m, e, addr, perm) {
      assert Accessible(m, e, last, perm);
      forall k: nat | Visits(va, len, k) ensures Grants(m, e, AddrAt(va, k), perm) {
        VisitsInRange(va, len, k);
        assert Accessible(m, e, AddrAt(va, k), perm);
      }
    } else if forall k: nat :: Visits(va, len, k) ==> Grants(m, e, AddrAt(va, k), perm) {
      var addr: nat :| va <= addr < va + len && !Accessible(m, e, addr, perm);
      CoveredOrLast(va, len, addr);
    }
  }

  lemma GrantsIsAccess(m: Mem, b: Book, e: nat, addr: nat, perm: Flags)
    requires TablesOk(m, b) && e in m.dirs && e != KERN && perm != {} && Pdx(addr / PGSIZE) < UTOP_PDX
    ensures Accessible(m, e, addr, perm) <==> Grants(m, e, addr, perm)
  {
    RightsAreThePtes(m, b, e, addr / PGSIZE, perm);
  }

  lemma {:induction false} VisitsInRange(va: nat, len: nat, k: nat)
    requires va + len + PGSIZE <= WORDS && Visits(va, len, k)
    ensures va <= AddrAt(va, k) == va + k * PGSIZE < va + len
  {
    if k > 0 {
      VisitsInRange(va, len, k - 1);
      assert va + k * PGSIZE == va + (k - 1) * PGSIZE + PGSIZE;
    }
  }

  /** An input that sys_cputs hands on from any program: a range of nearly all memory, approved without a test. */
  lemma ApprovedUntested()
    ensures forall k: nat :: !Visits(0x80_0000, 0xffff_ffff, k)
    ensures 0x80_0000 % PGSIZE + (0xffff_ffff - 1) % PGSIZE < PGSIZE
  {
    VisitsNothing(0x80_0000, 0xffff_ffff);
  }

  /** In no address space does the entry of every page exist: kern_pgdir has nothing at address 0, and an
      environment has nothing in slot 959, between its kernel stacks and KERNBASE. So a round of the loop
      through all of memory meets an entry that fails, and the loop ends. */
  lemma SomeEntryFails(m: Mem, b: Book, e: nat, va: nat, perm: Flags) returns (k: nat)
    requires TablesOk(m, b) && e in m.dirs && va < WORDS
    ensures k < WORDS / PGSIZE && !Grants(m, e, AddrAt(va, k), perm)
  {
    var page := if e == KERN then 0 else 959 * NPTENTRIES;
    k := (page + WORDS / PGSIZE - va / PGSIZE) % (WORDS / PGSIZE);
    assert AddrAt(va, k) / PGSIZE == page;
    assert Pdx(page) == if e == KERN then 0 else 959;
    assert !Pde(m, e, Pdx(page)).Present();
  }

  /** The test of the loop at turn `k`, and the next address. */
  lemma TurnVisits(va: nat, len: nat, k: nat)
    requires va < WORDS && (k > 0 ==> Visits(va, len, k - 1))
    ensures AddrAt(va, k) < (va + len) % WORDS <==> Visits(va, len, k)
    ensures !Visits(va, len, k) ==> forall j: nat :: Visits(va, len, j) ==> j < k
    ensures AddrAt(va, 0) == va && AddrAt(va, k + 1) == (AddrAt(va, k) + PGSIZE) % WORDS && AddrAt(va, k) < WORDS
  {
    assert va + (k + 1) * PGSIZE == va + k * PGSIZE + PGSIZE;
  }

  /** What user_mem_check does: it returns 0, refuses the start, or names the first address that fails. */
  datatype MemCheck = Granted | AboveUlim | Fault(addr: nat)

  /** What an environment may do to its own memory between its creation and its end. */
  datatype Use = AllocAt(pn: nat, perm: Flags) | UnmapAt(pn: nat)

  /** What decides the course of a program that only allocates and unmaps pages of its own: the tables and the pages it
      has, and how many frames are free. */
  datatype Sketch = Sketch(tables: set<nat>, mapped: set<nat>, spare: nat)

  /** The sketch after one call. */
  function AfterUse(sk: Sketch, u: Use): Sketch {
    match u
    case AllocAt(pn, _) =>
      if sk.spare == 0 || (Pdx(pn) !in sk.tables && sk.spare == 1) then sk
      else Sketch(sk.tables + {Pdx(pn)}, sk.mapped + {pn},
                  sk.spare - (if Pdx(pn) in sk.tables then 1 else 2) + (if pn in sk.mapped then 1 else 0))
    case UnmapAt(pn) =>
      if Pdx(pn) in sk.tables && pn in sk.mapped then Sketch(sk.tables, sk.mapped - {pn}, sk.spare + 1) else sk
  }

  /** The call unmaps a page that is not mapped, behind a table that exists. */
  predicate IsStray(sk: Sketch, u: Use) {
    u.UnmapAt? && Pdx(u.pn) in sk.tables && u.pn !in sk.mapped
  }

  /** How many calls of the program are stray unmaps. */
  function Strays(sk: Sketch, script: seq<Use>): nat
    decreases |script|
  {
    if script == [] then 0 else (if IsStray(sk, script[0]) then 1 else 0) + Strays(AfterUse(sk, script[0]), script[1..])
  }

  /** So many stray unmaps bring page 0, counted `c` times, onto the free list. */
  function StrayLimit(c: Count): nat {
    if c == 0 then REF_LIMIT else c
  }

  /** The sketch is that of `e`, whose pages nobody shares. */
  ghost predicate Sketches(m: Mem, b: Book, e: nat, sk: Sketch) {
    && (forall p: nat :: p < UTOP_PDX ==> (p in sk.tables <==> Pde(m, e, p).Present()))
    && (forall q: nat :: Pdx(q) < UTOP_PDX ==> (q in sk.mapped <==> PteOf(m, e, q).Present()))
    && (forall q: nat :: Pdx(q) < UTOP_PDX && PteOf(m, e, q).Present() ==>
          PteOf(m, e, q).frame < |b.holders| && b.holders[PteOf(m, e, q).frame] == {PageRef(e, Pdx(q), Ptx(q))})
    && sk.spare == |b.free|
  }

  lemma PageNumber(p: nat, q: nat)
    requires Pdx(p) == Pdx(q) && Ptx(p) == Ptx(q)
    ensures p == q
  {
  }

  /** A page that is mapped has its table. */
  lemma TableOf(m: Mem, e: nat, q: nat)
    requires PteOf(m, e, q).Present()
    ensures Pde(m, e, Pdx(q)).Present()
  {
  }

  /** The sketch after sys_page_alloc. */
  lemma AllocSketch(m: Mem, a: Ledger, b: Book, n: Mem, e: nat, pn: nat, perm: Flags, sk: Sketch)
    requires TablesOk(m, b) && LedgerOk(a, b) && Sketches(m, b, e, sk) && e != KERN && Pdx(pn) < UTOP_PDX
    requires CanAlloc(m, b, e, pn) && EntrySet(m, n, e, pn, Entry(b.free[0], perm + {P}))
    requires forall p: nat :: Pde(n, e, p).Present() <==> Pde(m, e, p).Present() || p == Pdx(pn)
    ensures Sketches(n, AllocBook(m, b, e, pn), e, AfterUse(sk, AllocAt(pn, perm)))
  {
    hide TablesOk, LedgerOk, EntrySet, Pte, Pde;
    FreeHasNoHolder(m, a, b, 0);
    if |b.free| > 1 {
      FreeHasNoHolder(m, a, b, 1);
    }
    if !PteOf(m, e, pn).Present() {
      AbsentIsZero(m, b, e, pn);
    }
    OnlyThatPage(m, n, e, pn, Entry(b.free[0], perm + {P}));
  }

  lemma OnlyThatPage(m: Mem, n: Mem, e: nat, pn: nat, x: Entry)
    requires EntrySet(m, n, e, pn, x) && Pdx(pn) < UTOP_PDX
    ensures PteOf(n, e, pn) == x
    ensures forall q: nat :: Pdx(q) < UTOP_PDX && q != pn ==> PteOf(n, e, q) == PteOf(m, e, q)
  {
    forall q: nat | Pdx(q) < UTOP_PDX && q != pn
      ensures PteOf(n, e, q) == PteOf(m, e, q)
    {
      if Pdx(q) == Pdx(pn) && Ptx(q) == Ptx(pn) {
        PageNumber(q, pn);
      }
    }
  }

  /** A page on the free list is referred to by nothing. */
  lemma FreeHasNoHolder(m: Mem, a: Ledger, b: Book, i: nat)
    requires TablesOk(m, b) && LedgerOk(a, b) && i < |b.free|
    ensures 0 < b.free[i] < |b.holders| && b.holders[b.free[i]] == {}
    ensures forall j :: 0 <= j < |b.free| && j != i ==> b.free[j] != b.free[i]
  {
    assert b.free[i] in b.free;
  }

  /** The sketch after page_remove. */
  lemma UnmapSketch(m: Mem, b: Book, n: Mem, e: nat, pn: nat, sk: Sketch)
    requires Sketches(m, b, e, sk) && Pdx(pn) < UTOP_PDX && EntrySet(m, n, e, pn, ZERO) && SamePdes(m, n)
    ensures Sketches(n, Unmapped(m, b, e, Pdx(pn), Ptx(pn)), e, AfterUse(sk, UnmapAt(pn)))
  {
    hide EntrySet;
    assert PteOf(m, e, pn).Present() ==> Pde(m, e, Pdx(pn)).Present();
    hide Pte, Pde;
    OnlyThatPage(m, n, e, pn, ZERO);
  }

  /** The sketch of a new environment. */
  lemma FreshSketch(m: Mem, b: Book, e: nat, sk: Sketch)
    requires sk == Sketch({}, {}, |b.free|) && forall p: nat :: p < UTOP_PDX ==> !Pde(m, e, p).Present()
    ensures Sketches(m, b, e, sk)
  {
  }

  lemma SameSketch(m: Mem, n: Mem, b: Book, e: nat, sk: Sketch)
    requires Sketches(m, b, e, sk) && SameWalks(m, n) && SamePdes(m, n)
    ensures Sketches(n, b, e, sk)
  {
    assert forall q: nat :: Pdx(q) < UTOP_PDX ==> PteOf(n, e, q) == PteOf(m, e, q);
  }

  lemma OthersKeptSelf(m: Mem, e: nat)
    ensures OthersKept(m, m, e)
  {
  }

  /** While the books are kept, page 0 is not on the free list. */
  lemma ZeroNotFree(a: Ledger, b: Book)
    ensures LedgerOk(a, b) ==> a.freeList != 0
  {
    if LedgerOk(a, b) && b.free != [] {
      assert b.free[0] in b.free;
    }
  }

  datatype MapResult = Mapped | Invalid | NoMemory

  lemma MappedIsData(m: Mem, a: Ledger, b: Book, e: nat, pn: nat)
    requires TablesOk(m, b) && LedgerOk(a, b) && e in m.dirs && e != KERN && Pdx(pn) < UTOP_PDX
    requires PteOf(m, e, pn).Present()
    ensures var f := PteOf(m, e, pn).frame;
      && f in b.managed && f < |b.holders| && b.holders[f] != {} && f !in b.held
      && forall r :: r in b.holders[f] ==> r.PageRef?
  {
    assert Holds(m, PageRef(e, Pdx(pn), Ptx(pn)), PteOf(m, e, pn).frame);
  }

  lemma AbsentIsZero(m: Mem, b: Book, e: nat, pn: nat)
    requires TablesOk(m, b) && e != KERN && Pdx(pn) < UTOP_PDX && !PteOf(m, e, pn).Present()
    ensures PteOf(m, e, pn) == ZERO
  {
  }

  /** A page of the flat map has an entry and a table; any other page below UVPT is absent. */
  lemma InSpace(m: Mem, e: nat, pn: nat)
    requires pn < NPAGES && Pdx(pn) != UVPT_PDX
    ensures pn in Space(m, e) <==> PteOf(m, e, pn).Present()
    ensures PteOf(m, e, pn).Present() ==> Pde(m, e, Pdx(pn)).Present()
  {
  }

  /** Reordering the free list keeps the books. */
  lemma PartedLedger(a: Ledger, a2: Ledger, b: Book, limit: nat)
    requires LedgerOk(a, b) && |a2.pages| == |a.pages|
    requires forall f :: 0 <= f < |a.pages| ==> a2.pages[f].ref == a.pages[f].ref
    requires Chain(a2.pages, a2.freeList, Part(b.free, limit, true) + Part(b.free, limit, false))
    ensures LedgerOk(a2, Book(Part(b.free, limit, true) + Part(b.free, limit, false), b.holders, b.held, b.managed))
  {
    PartMembers(b.free, limit, true);
    PartMembers(b.free, limit, false);
    var lows, highs := Part(b.free, limit, true), Part(b.free, limit, false);
    forall i, j | 0 <= i < j < |lows + highs|
      ensures (lows + highs)[i] != (lows + highs)[j]
    {
      if i < |lows| <= j {
        assert (lows + highs)[i] in lows && (lows + highs)[j] in highs;
      }
    }
  }

  lemma TablesIgnoreOrder(m: Mem, b: Book, free: seq<nat>)
    requires TablesOk(m, b)
    ensures TablesOk(m, Book(free, b.holders, b.held, b.managed))
  {
  }

  /** The last two stores end the lists and join them. */
  lemma EndPart(a0: Ledger, pages: seq<Page>, heads: seq<int>, b: Book, limit: nat, tp0: Cell, tp1: Cell)
    requires LedgerOk(a0, b) && PartedAt(a0.pages, pages, heads, b.free, |b.free|, limit, tp0, tp1)
    ensures |heads| == 2 && (forall c :: c == tp0 || c == tp1 ==> if c.Head? then c.i < 2 else c.f < |pages|)
    ensures var pages2, heads2 := StoredPages(pages, tp1, -1), StoredHeads(heads, tp1, -1);
      LedgerOk(Ledger(StoredPages(pages2, tp0, heads2[1]), StoredHeads(heads2, tp0, heads2[1])[0]),
               Book(Part(b.free, limit, true) + Part(b.free, limit, false), b.holders, b.held, b.managed))
  {
    hide PartedAt, Parted, Chain, LedgerOk, Part, StoredPages, StoredHeads;
    AllParted(a0.pages, pages, heads, b.free, limit, tp0, tp1);
    var lows, highs := Part(b.free, limit, true), Part(b.free, limit, false);
    PartEnd(a0.pages, pages, heads, lows, highs, tp0, tp1);
    var pages2, heads2 := StoredPages(pages, tp1, -1), StoredHeads(heads, tp1, -1);
    var pages3, heads3 := StoredPages(pages2, tp0, heads2[1]), StoredHeads(heads2, tp0, heads2[1]);
    PartedLedger(a0, Ledger(pages3, heads3[0]), b, limit);
  }

  lemma PartStart(a: Ledger, b: Book, heads: seq<int>, limit: nat)
    requires LedgerOk(a, b) && |heads| == 2
    ensures Chain(a.pages, a.freeList, b.free) && PartedAt(a.pages, a.pages, heads, b.free, 0, limit, Head(0), Head(1))
    ensures a.freeList == if b.free == [] then -1 else b.free[0]
  {
    assert b.free[..0] == [] && b.free[0..] == b.free;
  }

  lemma SlotStored(m: Mem, n: Mem, t: nat, i: nat, x: Entry)
    requires t < |m.phys| && i < |m.phys[t]| && n == Mem(m.phys[t := m.phys[t][i := x]], m.dirs)
    ensures n == SetSlot(m, t, i, x)
  {
  }

  /** If `e` has no address space before or after, and no other address space has changed, then neither have
      the counts and the set of free pages. */
  lemma CycleRestores(m: Mem, a: Ledger, b: Book, n: Mem, a2: Ledger, b2: Book, e: nat)
    requires TablesOk(m, b) && LedgerOk(a, b) && TablesOk(n, b2) && LedgerOk(a2, b2)
    requires OthersKept(m, n, e) && e !in m.dirs && e !in n.dirs && e < KERN && b2.managed == b.managed
    requires b2.held == b.held
    ensures forall f :: f in b2.managed ==> f < |a2.pages| && f < |a.pages| && a2.pages[f].ref == a.pages[f].ref
    ensures (set f | f in b2.free) == (set f | f in b.free)
  {
    Shape(m, a, b);
    Shape(n, a2, b2);
    OthersHoldTheSame(m, n, e);
    CountsFollowTables(m, a, b, n, a2, b2);
  }
}
