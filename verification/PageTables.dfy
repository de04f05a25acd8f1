/** The physical memory that holds page directories and page tables, and what the kernel must
    keep true of it. The memory (Mem), the allocator's books (Ledger) and the ghost account of who
    refers to which frame (Book) are values here; Pmap.dfy updates them in place. */
module PageTables {
  import opened Mmu
  import opened Lists

  /** PDX(UTOP), PDX(UPAGES), PDX(UVPT) and PDX(KERNBASE). */
  const UTOP_PDX := 955
  const UPAGES_PDX := 956
  const UVPT_PDX := 957
  const KSTACK_PDX := 958
  const KERNBASE_PDX := 960

  /** The slot of kern_pgdir among the address spaces; environment slots are below it. */
  const KERN := 1024

  /** A frame as an array of entries; only directories and tables are read as such. */
  type Frame = seq<Entry>

  /** Physical memory, and the directory frame of every address space. */
  datatype Mem = Mem(phys: seq<Frame>, dirs: map<nat, nat>)

  /** pp_ref is 16 bits wide. */
  const REF_LIMIT := 0x1_0000
  type Count = n: nat | n < 0x1_0000

  /** struct Page: the next free page, or -1, and the reference count. */
  datatype Page = Page(link: int, ref: Count)

  datatype Ledger = Ledger(pages: seq<Page>, freeList: int)

  /** A counted reference: an environment using a frame as its directory, a directory entry
      holding it as a table, or a table entry mapping it. */
  datatype Ref =
    | DirRef(e: nat)
    | TableRef(e: nat, pdx: nat)
    | PageRef(e: nat, pdx: nat, ptx: nat)

  /** The free list, the references to each frame, the frames handed out by page_alloc that nothing
      refers to yet, and the frames page_init gave to the allocator. */
  datatype Book = Book(free: seq<nat>, holders: seq<set<Ref>>, held: set<nat>, managed: set<nat>)

  // ----- Reading the tables -----

  function Slot(m: Mem, f: nat, i: nat): Entry {
    if f < |m.phys| && i < |m.phys[f]| then m.phys[f][i] else ZERO
  }

  function Pde(m: Mem, e: nat, pdx: nat): Entry {
    if e in m.dirs then Slot(m, m.dirs[e], pdx) else ZERO
  }

  /** The entry reached by walking both levels; absent when the table is. */
  function Pte(m: Mem, e: nat, pdx: nat, ptx: nat): Entry {
    if Pde(m, e, pdx).Present() then Slot(m, Pde(m, e, pdx).frame, ptx) else ZERO
  }

  /** Directory entries whose table is counted: the user part of an environment, the kernel part of
      kern_pgdir. Environments share the latter without counting. */
  predicate Owns(e: nat, pdx: nat) {
    if e == KERN then UTOP_PDX <= pdx < NPDENTRIES && pdx != UVPT_PDX else pdx < UTOP_PDX
  }

  predicate Holds(m: Mem, r: Ref, f: nat) {
    match r
    case DirRef(e) => e != KERN && e in m.dirs && m.dirs[e] == f
    case TableRef(e, p) => Owns(e, p) && Pde(m, e, p).Present() && Pde(m, e, p).frame == f
    case PageRef(e, p, t) =>
      e != KERN && p < UTOP_PDX && t < NPTENTRIES && Pte(m, e, p, t).Present() && Pte(m, e, p, t).frame == f
  }

  // ----- The invariant of the tables -----

  predicate WellFormed(m: Mem, b: Book) {
    && |m.phys| == |b.holders|
    && (forall f :: 0 <= f < |m.phys| ==> |m.phys[f]| == NPTENTRIES)
    && KERN in m.dirs && m.dirs[KERN] !in b.managed
    && (forall e :: e in m.dirs ==> m.dirs[e] < |m.phys|)
    && (forall f :: f in b.managed ==> 0 < f < |m.phys|)
  }

  /** The book lists exactly the references that the tables hold, all to managed frames. */
  ghost predicate BookExact(m: Mem, b: Book)
    requires WellFormed(m, b)
  {
    && (forall f, r {:trigger r in b.holders[f]} :: 0 <= f < |b.holders| ==> (r in b.holders[f] <==> Holds(m, r, f)))
    && (forall f: nat, r {:trigger Holds(m, r, f)} :: Holds(m, r, f) ==> f in b.managed && r in b.holders[f])
  }

  /** A directory or table has one reference, so no page mapping and no second table shares it. */
  ghost predicate Separate(b: Book) {
    forall f, r {:trigger r in b.holders[f]} ::
      0 <= f < |b.holders| && r in b.holders[f] && !r.PageRef? ==> b.holders[f] == {r}
  }

  /** Absent entries of the user part are zero, and a directory entry is at least as permissive as
      every present entry below it. */
  ghost predicate EntriesOk(m: Mem) {
    && (forall e: nat, p: nat :: e != KERN && p < UTOP_PDX && !Pde(m, e, p).Present() ==> Pde(m, e, p) == ZERO)
    && (forall e: nat, p: nat, t: nat :: e != KERN && p < UTOP_PDX && !Pte(m, e, p, t).Present() ==>
          Pte(m, e, p, t) == ZERO)
    && (forall e: nat, p: nat, t: nat :: e != KERN && p < UTOP_PDX && Pte(m, e, p, t).Present() ==>
          Pte(m, e, p, t).flags <= Pde(m, e, p).flags)
  }

  /** The directory entry env_setup_vm copies from kern_pgdir. */
  function KernelPde(m: Mem, p: nat): Entry {
    var k := Pde(m, KERN, p);
    if p == UTOP_PDX || p == UPAGES_PDX then Entry(k.frame, k.flags + {U})
    else if p == KSTACK_PDX || p >= KERNBASE_PDX then k
    else ZERO
  }

  /** Above UTOP all address spaces are the same, except for the window at UVPT through which each
      sees its own tables. */
  ghost predicate KernelPart(m: Mem) {
    && (forall p: nat :: p < UTOP_PDX ==> Pde(m, KERN, p) == ZERO)
    && (forall e :: e in m.dirs ==> Pde(m, e, UVPT_PDX) == Entry(m.dirs[e], {P, U}))
    && (forall e, p: nat :: e in m.dirs && e != KERN && UTOP_PDX <= p < NPDENTRIES && p != UVPT_PDX ==>
          Pde(m, e, p) == KernelPde(m, p))
  }

  ghost predicate TablesOk(m: Mem, b: Book) {
    && WellFormed(m, b) && BookExact(m, b) && Separate(b) && EntriesOk(m) && KernelPart(m)
  }

  // ----- The invariant of the allocator -----

  function Links(pages: seq<Page>): (link: seq<int>)
    ensures |link| == |pages| && forall i :: 0 <= i < |pages| ==> link[i] == pages[i].link
  {
    seq(|pages|, i requires 0 <= i < |pages| => pages[i].link)
  }

  /** The list of pages that starts at page `head` runs through `free` and ends. */
  ghost predicate Chain(pages: seq<Page>, head: int, free: seq<nat>) {
    List(Links(pages), head, free)
  }

  /** Counts are exact, and the free list holds, once each, exactly the managed frames that nothing
      refers to and that are not handed out. */
  ghost predicate LedgerOk(a: Ledger, b: Book) {
    && |a.pages| == |b.holders|
    && (forall f :: f in b.managed ==> 0 < f < |a.pages| && a.pages[f].ref == |b.holders[f]|)
    && Chain(a.pages, a.freeList, b.free) && Distinct(b.free)
    && (forall f :: f in b.free ==> f in b.managed)
    && b.held <= b.managed
    && (forall f :: f in b.managed ==> (f in b.free || f in b.held <==> b.holders[f] == {}))
    && (forall f :: f in b.free ==> f !in b.held)
  }

  // ----- Allocator updates -----

  function SetRef(a: Ledger, f: nat, n: Count): Ledger
    requires f < |a.pages|
  {
    Ledger(a.pages[f := Page(a.pages[f].link, n)], a.freeList)
  }

  function PushFree(a: Ledger, f: nat): Ledger
    requires f < |a.pages|
  {
    Ledger(a.pages[f := Page(a.freeList, a.pages[f].ref)], f)
  }

  /** page_decref, in 16-bit arithmetic. */
  function Decref(a: Ledger, f: nat): Ledger
    requires f < |a.pages|
  {
    var n := (a.pages[f].ref + REF_LIMIT - 1) % REF_LIMIT;
    if n == 0 then PushFree(SetRef(a, f, n), f) else SetRef(a, f, n)
  }

  // ----- Memory updates -----

  function SetSlot(m: Mem, f: nat, i: nat, x: Entry): Mem {
    if f < |m.phys| && i < |m.phys[f]| then Mem(m.phys[f := m.phys[f][i := x]], m.dirs) else m
  }

  function AddRef(b: Book, r: Ref, f: nat): Book
    requires f < |b.holders|
  {
    Book(b.free, b.holders[f := b.holders[f] + {r}], b.held - {f}, b.managed)
  }

  function DropRef(b: Book, r: Ref, f: nat): Book
    requires f < |b.holders|
  {
    Book(if b.holders[f] - {r} == {} then [f] + b.free else b.free,
         b.holders[f := b.holders[f] - {r}], b.held, b.managed)
  }

  /** The books after the entry of (e, pdx, ptx), if present, has been cleared. */
  function Unmapped(m: Mem, b: Book, e: nat, pdx: nat, ptx: nat): Book {
    var x := Pte(m, e, pdx, ptx);
    if x.Present() && x.frame < |b.holders| then DropRef(b, PageRef(e, pdx, ptx), x.frame) else b
  }

  // ----- Frames of different roles are different -----

  /** The table behind an owned directory entry is the table of no other entry and no directory. */
  lemma TableApart(m: Mem, b: Book, e: nat, p: nat, e2: nat, p2: nat)
    requires TablesOk(m, b) && Owns(e, p) && Pde(m, e, p).Present() && e2 in m.dirs
    requires e == KERN ==> m.dirs.Keys == {KERN}
    ensures m.dirs[e2] != Pde(m, e, p).frame
    ensures p2 != UVPT_PDX && (e2 != e || p2 != p) && Pde(m, e2, p2).Present() ==>
      Pde(m, e2, p2).frame != Pde(m, e, p).frame
  {
    var f := Pde(m, e, p).frame;
    assert Holds(m, TableRef(e, p), f);
    if e2 != KERN {
      assert Holds(m, DirRef(e2), m.dirs[e2]);
    }
    if Pde(m, e2, p2).Present() && Owns(e2, p2) {
      assert Holds(m, TableRef(e2, p2), Pde(m, e2, p2).frame);
    } else if Pde(m, e2, p2).Present() && Owns(KERN, p2) && p2 != UVPT_PDX && e2 != KERN {
      assert Pde(m, e2, p2) == KernelPde(m, p2);
      assert Pde(m, KERN, p2).Present();
      assert Holds(m, TableRef(KERN, p2), Pde(m, e2, p2).frame);
    }
  }

  /** Writing one entry of an owned table changes the walk at that address and nowhere else, in any
      address space. UVPT is aside: through it the tables themselves are seen. */
  lemma SetPteEffect(m: Mem, b: Book, e: nat, p: nat, t: nat, x: Entry)
    requires TablesOk(m, b) && Owns(e, p) && Pde(m, e, p).Present() && t < NPTENTRIES
    requires e == KERN ==> m.dirs.Keys == {KERN}
    ensures Pde(m, e, p).frame < |m.phys|
    ensures var n := SetSlot(m, Pde(m, e, p).frame, t, x);
      && (forall e2: nat, p2: nat :: Pde(n, e2, p2) == Pde(m, e2, p2))
      && (forall e2: nat, p2: nat, t2: nat :: p2 != UVPT_PDX ==>
            Pte(n, e2, p2, t2) == if e2 == e && p2 == p && t2 == t then x else Pte(m, e2, p2, t2))
  {
    var f := Pde(m, e, p).frame;
    assert Holds(m, TableRef(e, p), f);
    var n := SetSlot(m, f, t, x);
    forall e2: nat, p2: nat
      ensures Pde(n, e2, p2) == Pde(m, e2, p2)
      ensures p2 != UVPT_PDX && (e2 != e || p2 != p) && Pde(m, e2, p2).Present() ==> Pde(m, e2, p2).frame != f
    {
      if e2 in m.dirs {
        TableApart(m, b, e, p, e2, p2);
      }
    }
  }

  /** No entry outside UVPT has a directory for its table, and directories differ. */
  lemma DirApart(m: Mem, b: Book, e: nat, e2: nat, p2: nat)
    requires TablesOk(m, b) && e in m.dirs && e2 in m.dirs
    requires e == KERN ==> m.dirs.Keys == {KERN}
    ensures e2 != e ==> m.dirs[e2] != m.dirs[e]
    ensures p2 != UVPT_PDX && Pde(m, e2, p2).Present() ==> Pde(m, e2, p2).frame != m.dirs[e]
  {
    if e != KERN {
      assert Holds(m, DirRef(e), m.dirs[e]);
    }
    if e2 != KERN {
      assert Holds(m, DirRef(e2), m.dirs[e2]);
    }
    if Pde(m, e2, p2).Present() && Owns(e2, p2) {
      assert Holds(m, TableRef(e2, p2), Pde(m, e2, p2).frame);
    } else if Pde(m, e2, p2).Present() && Owns(KERN, p2) && e2 != KERN {
      assert Pde(m, e2, p2) == KernelPde(m, p2);
      assert Holds(m, TableRef(KERN, p2), Pde(m, e2, p2).frame);
    }
  }

  /** Writing a directory entry changes that entry only; every walk not through it stays. */
  lemma SetPdeEffect(m: Mem, b: Book, e: nat, p: nat, y: Entry)
    requires TablesOk(m, b) && e in m.dirs && p < NPDENTRIES && p != UVPT_PDX
    requires e == KERN ==> m.dirs.Keys == {KERN}
    ensures var n := SetSlot(m, m.dirs[e], p, y);
      && (forall e2: nat, p2: nat :: Pde(n, e2, p2) == if e2 == e && p2 == p then y else Pde(m, e2, p2))
      && (forall e2: nat, p2: nat, t2: nat :: p2 != UVPT_PDX && (e2 != e || p2 != p) ==>
            Pte(n, e2, p2, t2) == Pte(m, e2, p2, t2))
  {
    var n := SetSlot(m, m.dirs[e], p, y);
    forall e2: nat, p2: nat
      ensures Pde(n, e2, p2) == if e2 == e && p2 == p then y else Pde(m, e2, p2)
      ensures p2 != UVPT_PDX && Pde(m, e2, p2).Present() ==> Pde(m, e2, p2).frame != m.dirs[e]
    {
      if e2 in m.dirs {
        DirApart(m, b, e, e2, p2);
      }
    }
  }

  /** A directory entry may gain permissions (page_insert's last assignment). */
  lemma RaisePdeKeeps(m: Mem, b: Book, e: nat, p: nat, more: Flags)
    requires TablesOk(m, b) && e != KERN && p < UTOP_PDX && Pde(m, e, p).Present() && e in m.dirs
    ensures var n := SetSlot(m, m.dirs[e], p, Entry(Pde(m, e, p).frame, Pde(m, e, p).flags + more));
      && TablesOk(n, b)
      && (forall e2: nat, p2: nat, t2: nat :: p2 != UVPT_PDX ==> Pte(n, e2, p2, t2) == Pte(m, e2, p2, t2))
  {
    var y := Entry(Pde(m, e, p).frame, Pde(m, e, p).flags + more);
    SetPdeEffect(m, b, e, p, y);
    var n := SetSlot(m, m.dirs[e], p, y);
    TableApart(m, b, e, p, e, p);
    assert forall t: nat :: Pte(n, e, p, t) == Pte(m, e, p, t);
    assert forall r, f: nat {:trigger Holds(n, r, f)} {:trigger Holds(m, r, f)} :: Holds(n, r, f) <==> Holds(m, r, f);
  }

  /** Mapping a managed data page at an absent user entry adds exactly one reference to it. */
  lemma MapPteKeeps(m: Mem, b: Book, e: nat, p: nat, t: nat, x: Entry)
    requires TablesOk(m, b) && e != KERN && p < UTOP_PDX && t < NPTENTRIES
    requires Pde(m, e, p).Present() && !Pte(m, e, p, t).Present()
    requires x.Present() && x.flags <= Pde(m, e, p).flags && x.frame in b.managed
    requires forall r :: r in b.holders[x.frame] ==> r.PageRef?
    ensures Pde(m, e, p).frame < |m.phys|
    ensures TablesOk(SetSlot(m, Pde(m, e, p).frame, t, x), AddRef(b, PageRef(e, p, t), x.frame))
    ensures PageRef(e, p, t) !in b.holders[x.frame]
  {
    SetPteEffect(m, b, e, p, t, x);
    var n := SetSlot(m, Pde(m, e, p).frame, t, x);
    assert !Holds(m, PageRef(e, p, t), x.frame);
    assert forall r, f: nat {:trigger Holds(n, r, f)} {:trigger Holds(m, r, f)} ::
      Holds(n, r, f) <==> Holds(m, r, f) || (r == PageRef(e, p, t) && f == x.frame);
  }

  /** Clearing a present user entry drops exactly one reference. */
  lemma UnmapPteKeeps(m: Mem, b: Book, e: nat, p: nat, t: nat)
    requires TablesOk(m, b) && e != KERN && p < UTOP_PDX && t < NPTENTRIES && Pte(m, e, p, t).Present()
    ensures Pde(m, e, p).frame < |m.phys| && Pte(m, e, p, t).frame in b.managed
    ensures TablesOk(SetSlot(m, Pde(m, e, p).frame, t, ZERO), DropRef(b, PageRef(e, p, t), Pte(m, e, p, t).frame))
    ensures PageRef(e, p, t) in b.holders[Pte(m, e, p, t).frame]
  {
    SetPteEffect(m, b, e, p, t, ZERO);
    var n := SetSlot(m, Pde(m, e, p).frame, t, ZERO);
    assert Holds(m, PageRef(e, p, t), Pte(m, e, p, t).frame);
    assert forall r, f: nat {:trigger Holds(n, r, f)} {:trigger Holds(m, r, f)} ::
      Holds(n, r, f) <==> Holds(m, r, f) && r != PageRef(e, p, t);
  }

  /** Changing the permissions of a mapping in place changes no reference. */
  lemma RemapPteKeeps(m: Mem, b: Book, e: nat, p: nat, t: nat, x: Entry)
    requires TablesOk(m, b) && e != KERN && p < UTOP_PDX && t < NPTENTRIES && Pte(m, e, p, t).Present()
    requires x.Present() && x.flags <= Pde(m, e, p).flags && x.frame == Pte(m, e, p, t).frame
    ensures Pde(m, e, p).frame < |m.phys|
    ensures TablesOk(SetSlot(m, Pde(m, e, p).frame, t, x), b)
  {
    SetPteEffect(m, b, e, p, t, x);
    var n := SetSlot(m, Pde(m, e, p).frame, t, x);
    assert forall r, f: nat {:trigger Holds(n, r, f)} {:trigger Holds(m, r, f)} :: Holds(n, r, f) <==> Holds(m, r, f);
  }

  function SetFrame(m: Mem, f: nat, row: Frame): Mem
    requires f < |m.phys|
  {
    Mem(m.phys[f := row], m.dirs)
  }

  const ZERO_FRAME: Frame := seq(NPTENTRIES, i => ZERO)

  /** A frame that is neither a directory nor a table may be overwritten at will, by the kernel
      clearing it or by a user storing to its page: no translation changes, in any address space. */
  lemma DataFrameFree(m: Mem, b: Book, f: nat, row: Frame)
    requires TablesOk(m, b) && f in b.managed && |row| == NPTENTRIES
    requires forall r :: r in b.holders[f] ==> r.PageRef?
    ensures TablesOk(SetFrame(m, f, row), b)
    ensures var n := SetFrame(m, f, row);
      && (forall e: nat, p: nat :: Pde(n, e, p) == Pde(m, e, p))
      && (forall e: nat, p: nat, t: nat :: Pte(n, e, p, t) == Pte(m, e, p, t))
  {
    var n := SetFrame(m, f, row);
    forall e | e in m.dirs
      ensures m.dirs[e] != f
    {
      if e != KERN {
        assert Holds(m, DirRef(e), m.dirs[e]);
      }
    }
    assert forall e: nat, p: nat :: Pde(n, e, p) == Pde(m, e, p);
    forall e: nat, p: nat
      ensures Pde(m, e, p).Present() ==> Pde(m, e, p).frame != f
    {
      if Pde(m, e, p).Present() && Owns(e, p) {
        assert Holds(m, TableRef(e, p), Pde(m, e, p).frame);
      } else if Pde(m, e, p).Present() && p != UVPT_PDX {
        assert Pde(m, e, p) == KernelPde(m, p);
        assert Holds(m, TableRef(KERN, p), Pde(m, e, p).frame);
      }
    }
    assert forall e: nat, p: nat, t: nat :: Pte(n, e, p, t) == Pte(m, e, p, t);
    assert forall r, f2: nat {:trigger Holds(n, r, f2)} {:trigger Holds(m, r, f2)} ::
      Holds(n, r, f2) <==> Holds(m, r, f2);
  }

  /** pgdir_walk's new table: a cleared frame entered at an absent directory entry. No address
      outside the UVPT window becomes mapped. */
  lemma AddTableKeeps(m: Mem, b: Book, e: nat, p: nat, f: nat)
    requires TablesOk(m, b) && e in m.dirs && Owns(e, p) && !Pde(m, e, p).Present()
    requires e == KERN ==> m.dirs.Keys == {KERN}
    requires f in b.managed && b.holders[f] == {} && m.phys[f] == ZERO_FRAME
    ensures var n := SetSlot(m, m.dirs[e], p, Entry(f, {P, W}));
      && TablesOk(n, AddRef(b, TableRef(e, p), f))
      && Pde(n, e, p) == Entry(f, {P, W})
      && (forall e2: nat, p2: nat :: e2 != e || p2 != p ==> Pde(n, e2, p2) == Pde(m, e2, p2))
      && (forall e2: nat, p2: nat, t2: nat :: p2 != UVPT_PDX ==> Pte(n, e2, p2, t2) == Pte(m, e2, p2, t2))
  {
    var y := Entry(f, {P, W});
    SetPdeEffect(m, b, e, p, y);
    var n := SetSlot(m, m.dirs[e], p, y);
    if e != KERN {
      assert Holds(m, DirRef(e), m.dirs[e]);
    }
    assert forall t: nat :: Pte(n, e, p, t) == ZERO;
    assert forall t: nat :: Pte(m, e, p, t) == ZERO;
    assert !Holds(m, TableRef(e, p), f);
    assert forall r, f2: nat {:trigger Holds(n, r, f2)} {:trigger Holds(m, r, f2)} ::
      Holds(n, r, f2) <==> Holds(m, r, f2) || (r == TableRef(e, p) && f2 == f);
  }

  /** env_free's release of a table whose entries have all been removed. */
  lemma DropTableKeeps(m: Mem, b: Book, e: nat, p: nat)
    requires TablesOk(m, b) && e != KERN && e in m.dirs && p < UTOP_PDX && Pde(m, e, p).Present()
    requires forall t: nat :: t < NPTENTRIES ==> !Pte(m, e, p, t).Present()
    ensures var f, n := Pde(m, e, p).frame, SetSlot(m, m.dirs[e], p, ZERO);
      && f in b.managed && b.holders[f] == {TableRef(e, p)}
      && TablesOk(n, DropRef(b, TableRef(e, p), f))
      && (forall e2: nat, p2: nat :: Pde(n, e2, p2) == if e2 == e && p2 == p then ZERO else Pde(m, e2, p2))
      && (forall e2: nat, p2: nat, t2: nat :: p2 != UVPT_PDX ==> Pte(n, e2, p2, t2) == Pte(m, e2, p2, t2))
  {
    var f := Pde(m, e, p).frame;
    assert Holds(m, TableRef(e, p), f);
    SetPdeEffect(m, b, e, p, ZERO);
    var n := SetSlot(m, m.dirs[e], p, ZERO);
    assert forall t: nat :: Pte(m, e, p, t) == ZERO && Pte(n, e, p, t) == ZERO;
    assert forall r, f2: nat {:trigger Holds(n, r, f2)} {:trigger Holds(m, r, f2)} ::
      Holds(n, r, f2) <==> Holds(m, r, f2) && r != TableRef(e, p);
  }

  /** The contents env_setup_vm gives the directory in frame `d`. */
  function DirFrame(m: Mem, d: nat): Frame {
    seq(NPDENTRIES, p requires 0 <= p < NPDENTRIES =>
      if p == UVPT_PDX then Entry(d, {P, U}) else if p >= UTOP_PDX then KernelPde(m, p) else ZERO)
  }

  /** env_setup_vm: a new address space that is empty below UTOP and the kernel's above. */
  lemma AddDirKeeps(m: Mem, b: Book, e: nat, f: nat)
    requires TablesOk(m, b) && e < KERN && e !in m.dirs
    requires f in b.managed && b.holders[f] == {} && m.phys[f] == DirFrame(m, f)
    ensures var n := Mem(m.phys, m.dirs[e := f]);
      && TablesOk(n, AddRef(b, DirRef(e), f))
      && (forall p: nat, t: nat :: p < UTOP_PDX ==> Pte(n, e, p, t) == ZERO && Pde(n, e, p) == ZERO)
      && (forall e2: nat, p2: nat :: e2 != e ==> Pde(n, e2, p2) == Pde(m, e2, p2))
      && (forall e2: nat, p2: nat, t2: nat :: e2 != e ==> Pte(n, e2, p2, t2) == Pte(m, e2, p2, t2))
  {
    var n := Mem(m.phys, m.dirs[e := f]);
    assert forall e2: nat, p2: nat :: e2 != e ==> Pde(n, e2, p2) == Pde(m, e2, p2);
    assert forall e2: nat, p2: nat, t2: nat :: e2 != e ==> Pte(n, e2, p2, t2) == Pte(m, e2, p2, t2);
    assert forall p: nat :: p < UTOP_PDX ==> Pde(n, e, p) == ZERO;
    assert forall p: nat, t: nat :: p < UTOP_PDX ==> Pte(n, e, p, t) == ZERO;
    assert forall p: nat :: KernelPde(n, p) == KernelPde(m, p);
    assert !Holds(m, DirRef(e), f);
    assert forall r, f2: nat {:trigger Holds(n, r, f2)} {:trigger Holds(m, r, f2)} ::
      Holds(n, r, f2) <==> Holds(m, r, f2) || (r == DirRef(e) && f2 == f);
  }

  /** env_free's release of a directory that is empty below UTOP. */
  lemma DropDirKeeps(m: Mem, b: Book, e: nat)
    requires TablesOk(m, b) && e != KERN && e in m.dirs
    requires forall p: nat :: p < UTOP_PDX ==> !Pde(m, e, p).Present()
    ensures var f, n := m.dirs[e], Mem(m.phys, m.dirs - {e});
      && f in b.managed && b.holders[f] == {DirRef(e)}
      && TablesOk(n, DropRef(b, DirRef(e), f))
      && (forall e2: nat, p2: nat :: e2 != e ==> Pde(n, e2, p2) == Pde(m, e2, p2))
      && (forall e2: nat, p2: nat, t2: nat :: e2 != e ==> Pte(n, e2, p2, t2) == Pte(m, e2, p2, t2))
  {
    var f, n := m.dirs[e], Mem(m.phys, m.dirs - {e});
    assert Holds(m, DirRef(e), f);
    assert forall e2: nat, p2: nat :: Pde(n, e2, p2) == if e2 == e then ZERO else Pde(m, e2, p2);
    assert forall e2: nat, p2: nat, t2: nat :: Pte(n, e2, p2, t2) == if e2 == e then ZERO else Pte(m, e2, p2, t2);
    assert forall p: nat :: KernelPde(n, p) == KernelPde(m, p);
    assert forall r, f2: nat {:trigger Holds(n, r, f2)} {:trigger Holds(m, r, f2)} ::
      Holds(n, r, f2) <==> Holds(m, r, f2) && r != DirRef(e);
  }

  /** boot_map_region's assignment to an entry of a kernel table, before any environment exists. */
  lemma KernelPteKeeps(m: Mem, b: Book, p: nat, t: nat, x: Entry)
    requires TablesOk(m, b) && m.dirs.Keys == {KERN} && Owns(KERN, p) && t < NPTENTRIES && Pde(m, KERN, p).Present()
    ensures Pde(m, KERN, p).frame < |m.phys|
    ensures var n := SetSlot(m, Pde(m, KERN, p).frame, t, x);
      && TablesOk(n, b)
      && (forall p2: nat :: Pde(n, KERN, p2) == Pde(m, KERN, p2))
      && (forall e2: nat, p2: nat, t2: nat :: p2 != UVPT_PDX ==>
            Pte(n, e2, p2, t2) == if e2 == KERN && p2 == p && t2 == t then x else Pte(m, e2, p2, t2))
  {
    SetPteEffect(m, b, KERN, p, t, x);
    var n := SetSlot(m, Pde(m, KERN, p).frame, t, x);
    assert forall r, f2: nat {:trigger Holds(n, r, f2)} {:trigger Holds(m, r, f2)} ::
      Holds(n, r, f2) <==> Holds(m, r, f2);
  }

  // ----- The allocator keeps its books -----

  lemma ChainFrame(pages: seq<Page>, pages2: seq<Page>, head: int, free: seq<nat>)
    requires Chain(pages, head, free) && |pages2| == |pages|
    requires forall f :: f in free && f < |pages| ==> pages2[f].link == pages[f].link
    ensures Chain(pages2, head, free)
  {
    ListFrame(Links(pages), Links(pages2), head, free);
  }

  lemma Prepend(pages: seq<Page>, head: int, free: seq<nat>, f: nat, ref: Count)
    requires Chain(pages, head, free) && f < |pages| && f !in free
    ensures Chain(pages[f := Page(head, ref)], f, [f] + free)
  {
    Pushed(Links(pages), head, free, f);
    assert Links(pages[f := Page(head, ref)]) == Links(pages)[f := head];
  }

  /** page_alloc takes the first page off the list. */
  lemma PopKeeps(a: Ledger, b: Book)
    requires LedgerOk(a, b)
    ensures b.free == [] <==> a.freeList == -1
    ensures b.free != [] ==>
      && a.freeList == b.free[0] && a.freeList < |a.pages|
      && b.free[0] in b.managed && b.holders[b.free[0]] == {} && b.free[0] !in b.held
      && LedgerOk(Ledger(a.pages, a.pages[a.freeList].link),
                  Book(b.free[1..], b.holders, b.held + {b.free[0]}, b.managed))
  {
    if b.free != [] {
      var f := b.free[0];
      assert forall g :: g in b.free <==> g == f || g in b.free[1..];
      assert f !in b.free[1..];
    }
  }

  /** page_free puts a handed-out page back. */
  lemma PushKeeps(a: Ledger, b: Book, f: nat)
    requires LedgerOk(a, b) && f in b.held && b.holders[f] == {}
    ensures LedgerOk(PushFree(a, f), Book([f] + b.free, b.holders, b.held - {f}, b.managed))
  {
    Prepend(a.pages, a.freeList, b.free, f, a.pages[f].ref);
  }

  lemma AddRefKeeps(a: Ledger, b: Book, r: Ref, f: nat)
    requires LedgerOk(a, b) && f in b.managed && r !in b.holders[f]
    requires f !in b.free && a.pages[f].ref + 1 < REF_LIMIT
    ensures LedgerOk(SetRef(a, f, a.pages[f].ref + 1), AddRef(b, r, f))
  {
    ChainFrame(a.pages, SetRef(a, f, a.pages[f].ref + 1).pages, a.freeList, b.free);
  }

  /** page_decref frees a page exactly when its last reference goes. */
  lemma DropRefKeeps(a: Ledger, b: Book, r: Ref, f: nat)
    requires LedgerOk(a, b) && f in b.managed && f < |b.holders| && r in b.holders[f] && f !in b.held
    ensures LedgerOk(Decref(a, f), DropRef(b, r, f))
  {
    var n := |b.holders[f]| - 1;
    assert |b.holders[f] - {r}| == n;
    assert (n + 1 + REF_LIMIT - 1) % REF_LIMIT == n;
    assert f !in b.free;
    ChainFrame(a.pages, SetRef(a, f, n).pages, a.freeList, b.free);
    if n == 0 {
      Prepend(SetRef(a, f, n).pages, a.freeList, b.free, f, n);
    } else {
      assert b.holders[f] - {r} != {};
    }
  }

  // ----- The flat map that the two levels implement -----

  /** Pages of the 32-bit address space. */
  const NPAGES := 0x10_0000

  /** PDX and PTX of the addresses of page `pn`. */
  function Pdx(pn: nat): nat { pn / NPTENTRIES }
  function Ptx(pn: nat): nat { pn % NPTENTRIES }

  function PteOf(m: Mem, e: nat, pn: nat): Entry {
    Pte(m, e, Pdx(pn), Ptx(pn))
  }

  /** An address space as a flat map from page numbers to frames and permissions; the window at UVPT
      is left out. */
  ghost function Space(m: Mem, e: nat): map<nat, Entry> {
    map pn: nat | pn < NPAGES && Pdx(pn) != UVPT_PDX && PteOf(m, e, pn).Present() :: PteOf(m, e, pn)
  }

  lemma SpaceSame(m: Mem, n: Mem, e: nat)
    requires forall p: nat, t: nat :: p != UVPT_PDX ==> Pte(n, e, p, t) == Pte(m, e, p, t)
    ensures Space(n, e) == Space(m, e)
  {
    assert forall pn: nat :: Pdx(pn) != UVPT_PDX ==> PteOf(n, e, pn) == PteOf(m, e, pn);
  }

  lemma SpaceSet(m: Mem, n: Mem, e: nat, pn: nat, x: Entry)
    requires pn < NPAGES && Pdx(pn) != UVPT_PDX
    requires forall p: nat, t: nat :: p != UVPT_PDX ==>
      Pte(n, e, p, t) == if p == Pdx(pn) && t == Ptx(pn) then x else Pte(m, e, p, t)
    ensures Space(n, e) == if x.Present() then Space(m, e)[pn := x] else Space(m, e) - {pn}
  {
    forall q: nat | Pdx(q) != UVPT_PDX
      ensures PteOf(n, e, q) == if q == pn then x else PteOf(m, e, q)
    {
      assert Pdx(q) == Pdx(pn) && Ptx(q) == Ptx(pn) ==> q == pn;
    }
  }

  // ----- What the hardware sees -----

  /** Access rights are the AND of both levels (Intel SDM vol. 3A section 4.6). */
  function AccessRights(m: Mem, e: nat, pn: nat): Flags {
    if PteOf(m, e, pn).Present() then Pde(m, e, Pdx(pn)).flags * PteOf(m, e, pn).flags else {}
  }

  /** In user space the rights the hardware grants are those of the table entry alone, which is what
      user_mem_check inspects. */
  lemma RightsAreThePtes(m: Mem, b: Book, e: nat, pn: nat, perm: Flags)
    requires TablesOk(m, b) && e in m.dirs && e != KERN && Pdx(pn) < UTOP_PDX
    ensures perm <= AccessRights(m, e, pn) <==> perm <= PteOf(m, e, pn).flags
  {
    if PteOf(m, e, pn).Present() {
      assert PteOf(m, e, pn).flags <= Pde(m, e, Pdx(pn)).flags;
    }
  }

  const UVPT := 0xef40_0000

  /** The physical word (frame and index) that linear address `va` denotes in address space `e`. */
  function WordAt(m: Mem, e: nat, va: nat): (nat, nat) {
    (PteOf(m, e, va / PGSIZE).frame, va % PGSIZE / 4)
  }

  /** The recursive entry works for every address: vpt[PGNUM(la)] is the very word that pgdir_walk
      finds for `la`, whenever the table of `la` exists. */
  lemma VptIsTheWalk(m: Mem, b: Book, e: nat, la: nat)
    requires TablesOk(m, b) && e in m.dirs && la < 0x1_0000_0000
    requires Pde(m, e, Pdx(la / PGSIZE)).Present()
    ensures var va := UVPT + 4 * (la / PGSIZE);
      && va < 0x1_0000_0000 && va % 4 == 0 && PteOf(m, e, va / PGSIZE).Present()
      && WordAt(m, e, va) == (Pde(m, e, Pdx(la / PGSIZE)).frame, Ptx(la / PGSIZE))
  {
    var pn := la / PGSIZE;
    var va := UVPT + 4 * pn;
    var d, t := Pdx(pn), Ptx(pn);
    assert pn == d * NPTENTRIES + t;
    assert va == (UVPT_PDX * NPTENTRIES + d) * PGSIZE + 4 * t;
    assert va / PGSIZE == UVPT_PDX * NPTENTRIES + d;
    assert Pdx(va / PGSIZE) == UVPT_PDX && Ptx(va / PGSIZE) == d;
    assert Pde(m, e, UVPT_PDX) == Entry(m.dirs[e], {P, U});
    assert Pte(m, e, UVPT_PDX, d) == Pde(m, e, d);
  }
}
