/** The system calls of fork on the two-level page tables: what CowFork writes as a change of flat maps is what
    sys_page_alloc, sys_page_map, sys_exofork and env_free do to memory. */
module CowPages {
  import opened Mmu
  import opened PageTables
  import opened PmapSteps
  import opened Pmap
  import Cow = CowFork
  import CowRights

  /** How a program reads the contents of a frame. */
  type Reader = Frame -> Cow.Page

  /** The pages that CowFork speaks of: those of user programs but for the exception stack. */
  predicate IsUser(pn: nat) {
    Pdx(pn) < UTOP_PDX && pn != Cow.UXSTACK
  }

  /** Frame `f` is the directory, a table or the exception stack of `e`. */
  ghost predicate Owned(m: Mem, e: nat, f: nat) {
    && e in m.dirs
    && var stack := PteOf(m, e, Cow.UXSTACK);
    f == m.dirs[e] || IsTable(m, e, f) || (stack.Present() && stack.frame == f)
  }

  ghost predicate ShowsProc(m: Mem, x: Cow.Proc, e: nat) {
    && (forall pn: nat :: pn in x.space <==> IsUser(pn) && PteOf(m, e, pn).Present())
    && (forall pn: nat :: pn in x.space ==> x.space[pn] == PteOf(m, e, pn))
    && (forall p: nat :: p in x.tables <==> p < UTOP_PDX && Pde(m, e, p).Present())
    && (forall f: nat :: f in x.own <==> Owned(m, e, f))
  }

  /** A table of the kernel, which no environment owns. */
  ghost predicate KernelTable(m: Mem, f: nat) {
    exists p: nat :: Holds(m, TableRef(KERN, p), f)
  }

  /** The state `s` is what the page tables and the frames hold. */
  ghost predicate Shows(m: Mem, b: Book, s: Cow.State, read: Reader) {
    && s.procs.Keys == m.dirs.Keys - {KERN}
    && (forall f: nat :: f in s.mem <==> f in b.managed && !KernelTable(m, f))
    && (forall e :: e in s.procs ==> ShowsProc(m, s.procs[e], e))
    && (forall e: nat, p: nat :: Cow.Maps(s, e, p) ==> SameContents(m, s, Cow.At(s, e, p).frame, read))
  }

  ghost predicate SameContents(m: Mem, s: Cow.State, f: nat, read: Reader) {
    f < |m.phys| && f in s.mem && s.mem[f] == read(m.phys[f])
  }

  // ----- Free frames -----

  /** A mapped slot is a counted reference. */
  lemma SlotHolds(m: Mem, b: Book, s: Cow.State, read: Reader, e: nat, p: nat)
    requires TablesOk(m, b) && Shows(m, b, s, read) && Cow.Maps(s, e, p)
    ensures e != KERN && e in m.dirs && IsUser(p) && Cow.At(s, e, p) == PteOf(m, e, p)
    ensures Cow.At(s, e, p).Present() && Holds(m, PageRef(e, Pdx(p), Ptx(p)), Cow.At(s, e, p).frame)
    ensures Cow.At(s, e, p).frame in b.managed && PageRef(e, Pdx(p), Ptx(p)) in b.holders[Cow.At(s, e, p).frame]
  {
    assert ShowsProc(m, s.procs[e], e);
  }

  lemma OwnHolds(m: Mem, b: Book, s: Cow.State, read: Reader, e: nat, f: nat)
    requires TablesOk(m, b) && Shows(m, b, s, read) && e in s.procs && f in s.procs[e].own
    ensures f < |b.holders| && b.holders[f] != {}
  {
    assert ShowsProc(m, s.procs[e], e);
    if f == m.dirs[e] {
      assert Holds(m, DirRef(e), f);
    } else if IsTable(m, e, f) {
      var p: nat :| p < UTOP_PDX && Pde(m, e, p).Present() && Pde(m, e, p).frame == f;
      assert Holds(m, TableRef(e, p), f);
    } else {
      assert Holds(m, PageRef(e, Pdx(Cow.UXSTACK), Ptx(Cow.UXSTACK)), f);
    }
  }

  /** A frame that anything refers to is mapped, owned by an environment, or a table of the kernel. */
  lemma HeldIsUsed(m: Mem, b: Book, s: Cow.State, read: Reader, r: Ref, f: nat)
    requires TablesOk(m, b) && Shows(m, b, s, read) && Holds(m, r, f)
    ensures !Cow.Free(s, f)
  {
    match r
    case DirRef(e) => assert ShowsProc(m, s.procs[e], e) && f in s.procs[e].own;
    case TableRef(e, p) =>
      if e != KERN {
        assert IsTable(m, e, f) && ShowsProc(m, s.procs[e], e) && f in s.procs[e].own;
      } else {
        assert KernelTable(m, f);
      }
    case PageRef(e, p, t) =>
      assert ShowsProc(m, s.procs[e], e);
      PageOwned(m, s, e, p, t, f);
  }

  lemma NoHolders(m: Mem, b: Book, s: Cow.State, read: Reader, f: nat)
    requires TablesOk(m, b) && Shows(m, b, s, read) && Cow.Free(s, f)
    ensures f in b.managed && b.holders[f] == {}
  {
    forall r ensures !Holds(m, r, f) {
      if Holds(m, r, f) {
        HeldIsUsed(m, b, s, read, r, f);
      }
    }
    assert forall r :: r in b.holders[f] <==> Holds(m, r, f);
  }

  lemma PageOwned(m: Mem, s: Cow.State, e: nat, p: nat, t: nat, f: nat)
    requires Holds(m, PageRef(e, p, t), f) && e in s.procs && e in m.dirs && ShowsProc(m, s.procs[e], e)
    ensures f in s.procs[e].own || exists pn: nat :: Cow.Maps(s, e, pn) && Cow.At(s, e, pn).frame == f
  {
    var pn := p * NPTENTRIES + t;
    assert Pdx(pn) == p && Ptx(pn) == t;
    if pn == Cow.UXSTACK {
      assert Owned(m, e, f);
    } else {
      assert Cow.Maps(s, e, pn) && Cow.At(s, e, pn).frame == f;
    }
  }

  /** The frames that are free for CowFork are those that page_alloc can give, or has given out just now. */
  lemma FreeIff(m: Mem, a: Ledger, b: Book, s: Cow.State, read: Reader, f: nat)
    requires TablesOk(m, b) && LedgerOk(a, b) && Shows(m, b, s, read)
    ensures Cow.Free(s, f) <==> f in b.free || f in b.held
  {
    if Cow.Free(s, f) {
      NoHolders(m, b, s, read, f);
    }
    if f in b.free || f in b.held {
      FreeUnused(m, a, b, s, read, f);
    }
  }

  lemma FreeUnused(m: Mem, a: Ledger, b: Book, s: Cow.State, read: Reader, f: nat)
    requires TablesOk(m, b) && LedgerOk(a, b) && Shows(m, b, s, read) && (f in b.free || f in b.held)
    ensures Cow.Free(s, f)
  {
    assert f in b.managed && b.holders[f] == {};
    forall e: nat, p: nat | Cow.Maps(s, e, p) ensures Cow.At(s, e, p).frame != f {
      SlotHolds(m, b, s, read, e, p);
    }
    forall e | e in s.procs ensures f !in s.procs[e].own {
      if f in s.procs[e].own {
        OwnHolds(m, b, s, read, e, f);
      }
    }
  }

  // ----- Mapping a page -----

  /** The environment after page_insert; its exception stack is no part of the flat map. */
  function ProcWith(y: Cow.Proc, pn: nat, x: Entry, tab: nat): Cow.Proc {
    if pn != Cow.UXSTACK then y.MapPage(pn, x, tab)
    else y.(tables := y.tables + {Cow.Dir(pn)}, own := y.own + {x.frame} + if y.HasTable(pn) then {} else {tab})
  }

  /** Every frame that may be mapped keeps its contents. */
  ghost predicate DataKept(m: Mem, b: Book, n: Mem, e: nat) {
    && e in m.dirs && |n.phys| == |m.phys|
    && forall f: nat :: f < |m.phys| && f !in b.free && f != m.dirs[e] && !IsTable(m, e, f) ==> n.phys[f] == m.phys[f]
  }

  lemma ProcMapped(m: Mem, n: Mem, y: Cow.Proc, e: nat, pn: nat, x: Entry, tab: nat)
    requires ShowsProc(m, y, e) && e in m.dirs && IsUser(pn) && x.Present()
    requires EntrySet(m, n, e, pn, x) && TableMade(m, n, e, Pdx(pn), tab)
    ensures ShowsProc(n, y.MapPage(pn, x, tab), e)
  {
    hide Pte;
    OnlyThatPage(m, n, e, pn, x);
    hide EntrySet, PteOf, Pde;
    TablesWith(m, n, e, Pdx(pn), tab);
  }

  lemma ProcStack(m: Mem, n: Mem, y: Cow.Proc, e: nat, x: Entry, tab: nat)
    requires ShowsProc(m, y, e) && e in m.dirs && x.Present() && !PteOf(m, e, Cow.UXSTACK).Present()
    requires EntrySet(m, n, e, Cow.UXSTACK, x) && TableMade(m, n, e, Pdx(Cow.UXSTACK), tab)
    ensures ShowsProc(n, ProcWith(y, Cow.UXSTACK, x, tab), e)
  {
    hide Pte;
    OnlyThatPage(m, n, e, Cow.UXSTACK, x);
    hide EntrySet, PteOf, Pde;
    TablesWith(m, n, e, Pdx(Cow.UXSTACK), tab);
  }

  /** The tables of an environment after one may have been made. */
  lemma TablesWith(m: Mem, n: Mem, e: nat, p: nat, tab: nat)
    requires TableMade(m, n, e, p, tab) && p < UTOP_PDX
    ensures forall f: nat :: IsTable(n, e, f) <==> IsTable(m, e, f) || (f == tab && !Pde(m, e, p).Present())
    ensures forall q: nat :: q < UTOP_PDX ==> (Pde(n, e, q).Present() <==> Pde(m, e, q).Present() || q == p)
  {
    forall f: nat | IsTable(m, e, f) ensures IsTable(n, e, f) {
      var q: nat :| q < UTOP_PDX && Pde(m, e, q).Present() && Pde(m, e, q).frame == f;
      assert Pde(n, e, q).Present() && Pde(n, e, q).frame == f;
    }
    forall f: nat | IsTable(n, e, f) ensures IsTable(m, e, f) || (f == tab && !Pde(m, e, p).Present()) {
      var q: nat :| q < UTOP_PDX && Pde(n, e, q).Present() && Pde(n, e, q).frame == f;
      assert q != p || Pde(m, e, p).Present() ==> Pde(m, e, q).Present() && Pde(m, e, q).frame == f;
    }
    if !Pde(m, e, p).Present() {
      assert Pde(n, e, p).Present() && Pde(n, e, p).frame == tab;
    }
  }

  /** Another environment does not notice. */
  lemma ProcOther(m: Mem, n: Mem, y: Cow.Proc, e: nat, e2: nat, pn: nat, x: Entry)
    requires ShowsProc(m, y, e2) && e2 != e && EntrySet(m, n, e, pn, x) && OtherPdesKept(m, n, e)
    ensures ShowsProc(n, y, e2)
  {
    assert forall q: nat :: Pdx(q) < UTOP_PDX ==> PteOf(n, e2, q) == PteOf(m, e2, q);
    assert forall f: nat :: IsTable(n, e2, f) <==> IsTable(m, e2, f);
  }

  lemma KernelTablesStay(m: Mem, n: Mem, e: nat)
    requires OtherPdesKept(m, n, e) && e != KERN
    ensures forall f: nat :: KernelTable(n, f) <==> KernelTable(m, f)
  {
    assert forall p: nat, f: nat :: Holds(n, TableRef(KERN, p), f) <==> Holds(m, TableRef(KERN, p), f);
  }

  /** The frame of a mapped slot is not free, no directory and no table. */
  lemma SlotIsData(m: Mem, a: Ledger, b: Book, s: Cow.State, read: Reader, e: nat, p: nat, e2: nat)
    requires TablesOk(m, b) && LedgerOk(a, b) && Shows(m, b, s, read) && Cow.Maps(s, e, p) && e2 in m.dirs && e2 != KERN
    ensures var f := Cow.At(s, e, p).frame; f !in b.free && f !in b.held && f != m.dirs[e2] && !IsTable(m, e2, f)
  {
    SlotHolds(m, b, s, read, e, p);
    var f := Cow.At(s, e, p).frame;
    assert Holds(m, DirRef(e2), m.dirs[e2]);
    if IsTable(m, e2, f) {
      var q := TableHolds(m, b, e2, f);
    }
  }

  lemma TableHolds(m: Mem, b: Book, e: nat, f: nat) returns (q: nat)
    requires TablesOk(m, b) && IsTable(m, e, f) && e != KERN
    ensures f < |b.holders| && TableRef(e, q) in b.holders[f]
  {
    q :| q < UTOP_PDX && Pde(m, e, q).Present() && Pde(m, e, q).frame == f;
    assert Holds(m, TableRef(e, q), f);
  }

  /** page_insert of a page with known contents, as CowFork writes it. */
  lemma MapShows(m: Mem, a: Ledger, b: Book, n: Mem, b2: Book, s: Cow.State, t: Cow.State,
                 e: nat, pn: nat, x: Entry, tab: nat, read: Reader)
    requires TablesOk(m, b) && LedgerOk(a, b) && Shows(m, b, s, read) && e in s.procs && Pdx(pn) < UTOP_PDX
    requires pn == Cow.UXSTACK ==> !PteOf(m, e, pn).Present()
    requires x.Present() && EntrySet(m, n, e, pn, x) && TableMade(m, n, e, Pdx(pn), tab) && OtherPdesKept(m, n, e)
    requires b2.managed == b.managed && DataKept(m, b, n, e)
    requires SameContents(n, t, x.frame, read)
    requires t.mem.Keys == s.mem.Keys && forall f :: f in s.mem && f !in b.free ==> t.mem[f] == s.mem[f]
    requires t.procs == s.procs[e := ProcWith(s.procs[e], pn, x, tab)]
    ensures Shows(n, b2, t, read)
  {
    hide TablesOk, LedgerOk, ShowsProc, EntrySet, TableMade, PteOf, Pde, KernelTable;
    assert ShowsProc(m, s.procs[e], e) && e != KERN && n.dirs == m.dirs by {
      DirsSame(m, n, e, pn, x);
    }
    KernelTablesStay(m, n, e);
    if pn == Cow.UXSTACK {
      ProcStack(m, n, s.procs[e], e, x, tab);
    } else {
      ProcMapped(m, n, s.procs[e], e, pn, x, tab);
    }
    forall e2 | e2 in t.procs ensures ShowsProc(n, t.procs[e2], e2) {
      if e2 != e {
        ProcOther(m, n, s.procs[e2], e, e2, pn, x);
      }
    }
    forall e2: nat, p2: nat | Cow.Maps(t, e2, p2) ensures SameContents(n, t, Cow.At(t, e2, p2).frame, read) {
      if Cow.At(t, e2, p2) != x {
        assert Cow.Maps(s, e2, p2) && Cow.At(s, e2, p2) == Cow.At(t, e2, p2);
        SlotIsData(m, a, b, s, read, e2, p2, e);
      }
    }
  }

  lemma DirsSame(m: Mem, n: Mem, e: nat, pn: nat, x: Entry)
    requires EntrySet(m, n, e, pn, x)
    ensures n.dirs == m.dirs
  {
  }

  /** What a program is doing is not in the tables, nor is what an unmapped frame holds of any account. */
  lemma SameShows(m: Mem, b: Book, s: Cow.State, t: Cow.State, read: Reader)
    requires Shows(m, b, s, read) && t.mem.Keys == s.mem.Keys && t.procs.Keys == s.procs.Keys
    requires forall e: nat, p: nat :: Cow.Maps(s, e, p) && Cow.At(s, e, p).frame in s.mem ==>
      t.mem[Cow.At(s, e, p).frame] == s.mem[Cow.At(s, e, p).frame]
    requires forall e :: e in s.procs ==>
      && t.procs[e].space == s.procs[e].space && t.procs[e].tables == s.procs[e].tables
      && t.procs[e].own == s.procs[e].own
    ensures Shows(m, b, t, read)
  {
    hide ShowsProc, KernelTable;
    forall e | e in t.procs ensures ShowsProc(m, t.procs[e], e) {
      ProcEqual(m, s.procs[e], t.procs[e], e);
    }
    forall e: nat, p: nat | Cow.Maps(t, e, p) ensures SameContents(m, t, Cow.At(t, e, p).frame, read) {
      assert Cow.Maps(s, e, p) && Cow.At(s, e, p) == Cow.At(t, e, p);
    }
  }

  lemma ProcEqual(m: Mem, x: Cow.Proc, y: Cow.Proc, e: nat)
    requires ShowsProc(m, x, e) && y.space == x.space && y.tables == x.tables && y.own == x.own
    ensures ShowsProc(m, y, e)
  {
  }

  /** sys_page_alloc. */
  lemma AllocShows(m: Mem, a: Ledger, b: Book, n: Mem, b2: Book, s: Cow.State,
                   e: nat, pn: nat, perm: Flags, read: Reader) returns (t: Cow.State)
    requires TablesOk(m, b) && LedgerOk(a, b) && Shows(m, b, s, read) && e in s.procs && Pdx(pn) < UTOP_PDX
    requires pn == Cow.UXSTACK ==> !PteOf(m, e, pn).Present()
    requires P in perm && b.free != [] && b2.managed == b.managed && read(ZERO_FRAME) == Cow.ZeroPage()
    requires EntrySet(m, n, e, pn, Entry(b.free[0], perm)) && OtherPdesKept(m, n, e)
    requires TableMade(m, n, e, Pdx(pn), First(b.free[1..])) && DataKept(m, b, n, e)
    requires b.free[0] < |n.phys| && n.phys[b.free[0]] == ZERO_FRAME
    ensures t == Cow.SetProc(Cow.SetMem(s, b.free[0], Cow.ZeroPage()), e,
                             ProcWith(s.procs[e], pn, Entry(b.free[0], perm), First(b.free[1..])))
    ensures Shows(n, b2, t, read)
  {
    hide TablesOk, LedgerOk, ShowsProc, EntrySet, TableMade, PteOf, Pde, KernelTable, DataKept;
    var f, tab := b.free[0], First(b.free[1..]);
    t := Cow.SetProc(Cow.SetMem(s, f, Cow.ZeroPage()), e, ProcWith(s.procs[e], pn, Entry(f, perm), tab));
    FreeIff(m, a, b, s, read, f);
    MapShows(m, a, b, n, b2, s, t, e, pn, Entry(f, perm), tab, read);
  }

  /** sys_page_map of a mapped page. */
  lemma ShareShows(m: Mem, a: Ledger, b: Book, n: Mem, b2: Book, s: Cow.State, src: nat, spn: nat,
                   e: nat, pn: nat, perm: Flags, read: Reader) returns (t: Cow.State)
    requires TablesOk(m, b) && LedgerOk(a, b) && Shows(m, b, s, read) && Cow.Maps(s, src, spn)
    requires e in s.procs && IsUser(pn) && P in perm && b2.managed == b.managed
    requires EntrySet(m, n, e, pn, Entry(Cow.At(s, src, spn).frame, perm)) && OtherPdesKept(m, n, e)
    requires TableMade(m, n, e, Pdx(pn), First(b.free)) && DataKept(m, b, n, e)
    ensures t == Cow.SetProc(s, e, s.procs[e].MapPage(pn, Entry(Cow.At(s, src, spn).frame, perm), First(b.free)))
    ensures Shows(n, b2, t, read)
  {
    hide TablesOk, LedgerOk, ShowsProc, EntrySet, TableMade, PteOf, Pde, KernelTable;
    var f := Cow.At(s, src, spn).frame;
    t := Cow.SetProc(s, e, s.procs[e].MapPage(pn, Entry(f, perm), First(b.free)));
    assert e in m.dirs && e != KERN;
    SlotIsData(m, a, b, s, read, src, spn, e);
    MapShows(m, a, b, n, b2, s, t, e, pn, Entry(f, perm), First(b.free), read);
  }

  /** env_free. */
  lemma ExitShows(m: Mem, a: Ledger, b: Book, n: Mem, b2: Book, s: Cow.State, e: nat, read: Reader)
    requires TablesOk(m, b) && LedgerOk(a, b) && Shows(m, b, s, read) && e in s.procs
    requires OthersKept(m, n, e) && PagesKept(m, n, e) && n.dirs == m.dirs - {e} && b2.managed == b.managed
    ensures Shows(n, b2, Cow.State(s.mem, s.procs - {e}), read)
  {
    hide TablesOk, LedgerOk, ShowsProc, PteOf, Pde, KernelTable, Space, IsTable;
    var t := Cow.State(s.mem, s.procs - {e});
    KernelTablesStay(m, n, e);
    forall e2 | e2 in t.procs ensures ShowsProc(n, t.procs[e2], e2) {
      ProcKept(m, n, s.procs[e2], e, e2);
    }
    forall e2: nat, p2: nat | Cow.Maps(t, e2, p2) ensures SameContents(n, t, Cow.At(t, e2, p2).frame, read) {
      assert Cow.Maps(s, e2, p2) && Cow.At(s, e2, p2) == Cow.At(t, e2, p2);
      SlotIsData(m, a, b, s, read, e2, p2, e);
    }
  }

  lemma ProcKept(m: Mem, n: Mem, y: Cow.Proc, e: nat, e2: nat)
    requires ShowsProc(m, y, e2) && e2 != e && OthersKept(m, n, e) && e2 in m.dirs && e2 in n.dirs
    ensures ShowsProc(n, y, e2)
  {
    assert n.dirs[e2] == m.dirs[e2] by {
      assert e2 in m.dirs - {e} && (n.dirs - {e})[e2] == (m.dirs - {e})[e2];
    }
    assert Space(n, e2) == Space(m, e2);
    forall q: nat | Pdx(q) < UTOP_PDX
      ensures PteOf(n, e2, q).Present() <==> PteOf(m, e2, q).Present()
      ensures PteOf(m, e2, q).Present() ==> PteOf(n, e2, q) == PteOf(m, e2, q)
    {
      assert q in Space(m, e2) <==> PteOf(m, e2, q).Present();
      assert q in Space(n, e2) <==> PteOf(n, e2, q).Present();
    }
    assert forall f: nat :: IsTable(n, e2, f) <==> IsTable(m, e2, f);
  }

  /** env_setup_vm, as part of sys_exofork. */
  lemma SetupShows(m: Mem, a: Ledger, b: Book, n: Mem, b2: Book, s: Cow.State, e: nat, c: nat, read: Reader)
    requires TablesOk(m, b) && LedgerOk(a, b) && Shows(m, b, s, read) && e in s.procs && c !in m.dirs && c < KERN
    requires b.free != [] && n.dirs == m.dirs[c := b.free[0]] && OthersKept(m, n, c) && b2.managed == b.managed
    requires ContentsKept(m, n, b.free[0], -1) && forall p: nat :: p < UTOP_PDX ==> !Pde(n, c, p).Present()
    ensures Shows(n, b2, Cow.SetProc(s, c, Cow.Proc(e, map[], {}, {b.free[0]}, false, Cow.NoFork, Cow.NoFault)), read)
  {
    hide TablesOk, LedgerOk, ShowsProc, PteOf, KernelTable, Space, IsTable;
    var y := Cow.Proc(e, map[], {}, {b.free[0]}, false, Cow.NoFork, Cow.NoFault);
    var t := Cow.SetProc(s, c, y);
    KernelTablesStay(m, n, c);
    ProcNew(n, y, c);
    forall e2 | e2 in t.procs ensures ShowsProc(n, t.procs[e2], e2) {
      if e2 != c {
        ProcKept(m, n, s.procs[e2], c, e2);
      }
    }
    forall e2: nat, p2: nat | Cow.Maps(t, e2, p2) ensures SameContents(n, t, Cow.At(t, e2, p2).frame, read) {
      assert Cow.Maps(s, e2, p2) && Cow.At(s, e2, p2) == Cow.At(t, e2, p2);
      SlotIsData(m, a, b, s, read, e2, p2, e);
    }
  }

  lemma ProcNew(n: Mem, y: Cow.Proc, c: nat)
    requires c in n.dirs && y.space == map[] && y.tables == {} && y.own == {n.dirs[c]}
    requires forall p: nat :: p < UTOP_PDX ==> !Pde(n, c, p).Present()
    ensures ShowsProc(n, y, c)
  {
    assert forall q: nat :: Pdx(q) < UTOP_PDX ==> PteOf(n, c, q) == ZERO;
    assert forall f: nat :: !IsTable(n, c, f);
  }

  // ----- Stores, and where it all begins -----

  /** A store of a program to a page that it has mapped. */
  lemma StoreShows(m: Mem, a: Ledger, b: Book, s: Cow.State, e: nat, pn: nat, row: Frame, read: Reader)
    requires TablesOk(m, b) && LedgerOk(a, b) && Shows(m, b, s, read) && Cow.Maps(s, e, pn) && |row| == NPTENTRIES
    ensures Cow.At(s, e, pn).frame < |m.phys|
    ensures var n := SetFrame(m, Cow.At(s, e, pn).frame, row);
      TablesOk(n, b) && Shows(n, b, Cow.SetMem(s, Cow.At(s, e, pn).frame, read(row)), read)
  {
    hide TablesOk, LedgerOk, ShowsProc, Pte, Pde, KernelTable;
    var f := Cow.At(s, e, pn).frame;
    SlotHolds(m, b, s, read, e, pn);
    OnlyPages(m, b, f, PageRef(e, Pdx(pn), Ptx(pn)));
    DataFrameFree(m, b, f, row);
    var n, t := SetFrame(m, f, row), Cow.SetMem(s, f, read(row));
    forall e2 | e2 in t.procs ensures ShowsProc(n, t.procs[e2], e2) {
      ProcSame(m, n, s.procs[e2], e2);
    }
    forall g: nat ensures KernelTable(n, g) <==> KernelTable(m, g) {
      KernelTableSame(m, n, g);
    }
    forall e2: nat, p2: nat | Cow.Maps(t, e2, p2) ensures SameContents(n, t, Cow.At(t, e2, p2).frame, read) {
      assert Cow.Maps(s, e2, p2) && Cow.At(s, e2, p2) == Cow.At(t, e2, p2);
    }
  }

  lemma OnlyPages(m: Mem, b: Book, f: nat, r: Ref)
    requires TablesOk(m, b) && f in b.managed && r.PageRef? && r in b.holders[f]
    ensures f < |m.phys| && forall r2 :: r2 in b.holders[f] ==> r2.PageRef?
  {
  }

  lemma ProcSame(m: Mem, n: Mem, y: Cow.Proc, e: nat)
    requires ShowsProc(m, y, e) && n.dirs == m.dirs
    requires forall e: nat, p: nat :: Pde(n, e, p) == Pde(m, e, p)
    requires forall e: nat, p: nat, t: nat :: Pte(n, e, p, t) == Pte(m, e, p, t)
    ensures ShowsProc(n, y, e)
  {
    assert forall q: nat :: PteOf(n, e, q) == PteOf(m, e, q);
    assert forall g: nat :: IsTable(n, e, g) <==> IsTable(m, e, g);
  }

  lemma KernelTableSame(m: Mem, n: Mem, g: nat)
    requires forall e: nat, p: nat :: Pde(n, e, p) == Pde(m, e, p)
    ensures KernelTable(n, g) <==> KernelTable(m, g)
  {
    assert forall p: nat :: Holds(n, TableRef(KERN, p), g) <==> Holds(m, TableRef(KERN, p), g);
  }

  ghost function ProcOf(m: Mem, e: nat): Cow.Proc {
    Cow.Proc(0, map pn: nat | pn < NPAGES && IsUser(pn) && PteOf(m, e, pn).Present() :: PteOf(m, e, pn),
             set p: nat | p < UTOP_PDX && Pde(m, e, p).Present(), set f: nat | f < |m.phys| && Owned(m, e, f),
             true, Cow.NoFork, Cow.NoFault)
  }

  /** Every memory with sound tables holds a state of CowFork. */
  lemma SomeState(m: Mem, b: Book, read: Reader) returns (s: Cow.State)
    requires TablesOk(m, b)
    ensures Shows(m, b, s, read) && Known(s)
    ensures forall e :: e in s.procs ==> s.procs[e].fork == Cow.NoFork && s.procs[e].fault == Cow.NoFault
  {
    s := Cow.State(
      map f | f in b.managed && !KernelTable(m, f) :: if f < |m.phys| then read(m.phys[f]) else [],
      map e | e in m.dirs && e != KERN :: ProcOf(m, e));
    hide TablesOk, KernelTable, ShowsProc, ProcOf, PteOf;
    ManagedInRange(m, b);
    forall e | e in s.procs ensures ShowsProc(m, s.procs[e], e) {
      ProcOfShows(m, b, e);
    }
    forall e: nat, p: nat | Cow.Maps(s, e, p) ensures SameContents(m, s, Cow.At(s, e, p).frame, read) {
      SpaceOfProc(m, e, p);
      MappedNotKernel(m, b, e, p);
    }
  }

  lemma ManagedInRange(m: Mem, b: Book)
    requires TablesOk(m, b)
    ensures forall f :: f in b.managed ==> f < |m.phys|
  {
  }

  lemma SpaceOfProc(m: Mem, e: nat, p: nat)
    requires p in ProcOf(m, e).space
    ensures IsUser(p) && PteOf(m, e, p).Present() && ProcOf(m, e).space[p] == PteOf(m, e, p)
  {
  }

  lemma ProcOfShows(m: Mem, b: Book, e: nat)
    requires TablesOk(m, b) && e in m.dirs && e != KERN
    ensures ShowsProc(m, ProcOf(m, e), e) && ProcOf(m, e).fork == Cow.NoFork && ProcOf(m, e).fault == Cow.NoFault
  {
    forall f: nat | Owned(m, e, f) ensures f < |m.phys| {
      OwnedInRange(m, b, e, f);
    }
    hide TablesOk, Owned, PteOf, Pde;
    assert forall pn: nat :: IsUser(pn) ==> pn < NPAGES;
  }

  lemma OwnedInRange(m: Mem, b: Book, e: nat, f: nat)
    requires TablesOk(m, b) && e != KERN && Owned(m, e, f)
    ensures f < |m.phys|
  {
    if IsTable(m, e, f) {
      var q := TableHolds(m, b, e, f);
    } else if f != m.dirs[e] {
      assert Holds(m, PageRef(e, Pdx(Cow.UXSTACK), Ptx(Cow.UXSTACK)), f);
    }
  }

  lemma MappedNotKernel(m: Mem, b: Book, e: nat, p: nat)
    requires TablesOk(m, b) && e != KERN && Pdx(p) < UTOP_PDX && PteOf(m, e, p).Present()
    ensures PteOf(m, e, p).frame in b.managed && PteOf(m, e, p).frame < |m.phys|
    ensures !KernelTable(m, PteOf(m, e, p).frame)
  {
    var f := PteOf(m, e, p).frame;
    assert Holds(m, PageRef(e, Pdx(p), Ptx(p)), f);
    forall q: nat ensures !Holds(m, TableRef(KERN, q), f) {
      assert TableRef(KERN, q) !in b.holders[f];
    }
  }

  /** The system call that pgfault or duppage makes next fails exactly when CowFork says that memory is exhausted. */
  lemma ExhaustedIff(m: Mem, a: Ledger, b: Book, s: Cow.State, read: Reader, e: nat)
    requires TablesOk(m, b) && LedgerOk(a, b) && Shows(m, b, s, read) && b.held == {} && e in s.procs && Cow.Inv(s)
    requires Known(s)
    ensures Cow.Exhausted(s, e) <==>
      || (s.procs[e].fault.Alloc? && |b.free| <= if Pde(m, e, Pdx(Cow.PFTEMP)).Present() then 0 else 1)
      || (s.procs[e].fault == Cow.NoFault && s.procs[e].fork.Dup? && b.free == []
          && !Pde(m, s.procs[e].fork.child, Pdx(s.procs[e].fork.pn)).Present())
  {
    hide TablesOk, LedgerOk, Shows, Cow.Exclusive, Cow.TablesExist, Cow.FramesOk, Cow.FaultOk, Cow.Free;
    assert Cow.ForkOk(s, e);
    if s.procs[e].fault.Alloc? {
      AllocFailsIff(m, a, b, s, read, e, Cow.PFTEMP);
    } else if s.procs[e].fork.Dup? {
      HasTableIs(m, b, s, read, s.procs[e].fork.child, s.procs[e].fork.pn);
      forall tab: nat ensures Cow.Free(s, tab) <==> tab in b.free {
        FreeIff(m, a, b, s, read, tab);
      }
      assert b.free != [] ==> b.free[0] in b.free;
    }
  }

  lemma AllocFailsIff(m: Mem, a: Ledger, b: Book, s: Cow.State, read: Reader, e: nat, pn: nat)
    requires TablesOk(m, b) && LedgerOk(a, b) && Shows(m, b, s, read) && b.held == {} && e in s.procs
    requires Pdx(pn) < UTOP_PDX
    ensures (forall f: nat, tab: nat :: Cow.Free(s, f) ==> !Cow.CanMap(s, e, pn, f, tab)) <==>
            |b.free| <= if Pde(m, e, Pdx(pn)).Present() then 0 else 1
  {
    hide TablesOk, LedgerOk, Shows, Cow.Free, Cow.CanMap;
    HasTableIs(m, b, s, read, e, pn);
    if |b.free| > if Pde(m, e, Pdx(pn)).Present() then 0 else 1 {
      Given(m, a, b, s, read, e, pn);
    } else {
      forall f: nat, tab: nat | Cow.Free(s, f) ensures !Cow.CanMap(s, e, pn, f, tab) {
        if Cow.CanMap(s, e, pn, f, tab) {
          Enough(m, a, b, s, read, e, pn, f, tab);
        }
      }
    }
  }

  // ----- The calls -----

  lemma AllocData(m: Mem, b: Book, n: Mem, e: nat, p: nat, tab: nat)
    requires e in m.dirs && p < UTOP_PDX && b.free != [] && |n.phys| == |m.phys| && TableMade(m, n, e, p, tab)
    requires Pde(m, e, p).Present() || tab in b.free
    requires forall i: nat :: i < |n.phys| ==>
      n.phys[i] == m.phys[i] || i in {b.free[0], m.dirs[e], Pde(n, e, p).frame}
    ensures DataKept(m, b, n, e)
  {
    assert Pde(m, e, p).Present() ==> IsTable(m, e, Pde(m, e, p).frame) && Pde(n, e, p).frame == Pde(m, e, p).frame;
    assert !Pde(m, e, p).Present() ==> Pde(n, e, p).frame == tab;
  }

  lemma ShareData(m: Mem, b: Book, n: Mem, e: nat, p: nat)
    requires e in m.dirs && p < UTOP_PDX && TableMade(m, n, e, p, First(b.free))
    requires Pde(m, e, p).Present() || b.free != []
    requires ContentsKept(m, n, Pde(n, e, p).frame, m.dirs[e])
    ensures DataKept(m, b, n, e)
  {
    assert Pde(m, e, p).Present() ==> IsTable(m, e, Pde(m, e, p).frame) && Pde(n, e, p).frame == Pde(m, e, p).frame;
    assert !Pde(m, e, p).Present() ==> Pde(n, e, p).frame == b.free[0];
  }

  lemma HasTableIs(m: Mem, b: Book, s: Cow.State, read: Reader, e: nat, pn: nat)
    requires Shows(m, b, s, read) && e in s.procs && Pdx(pn) < UTOP_PDX
    ensures e in m.dirs && e != KERN && (s.procs[e].HasTable(pn) <==> Pde(m, e, Pdx(pn)).Present())
  {
    assert ShowsProc(m, s.procs[e], e);
  }

  /** sys_page_alloc, with memory for the page and for a table if that is missing. */
  method AllocPage(mem: PhysMem, ghost s: Cow.State, e: nat, pn: nat, perm: Flags, ghost read: Reader)
    returns (ghost t: Cow.State)
    requires mem.Valid() && Shows(mem.M(), mem.book, s, read) && read(ZERO_FRAME) == Cow.ZeroPage()
    requires e in s.procs && Pdx(pn) < UTOP_PDX && P in perm
    requires pn == Cow.UXSTACK ==> !PteOf(mem.M(), e, pn).Present()
    requires |mem.book.free| > if s.procs[e].HasTable(pn) then 0 else 1
    modifies mem, mem.pages, mem.phys
    ensures mem.Valid() && mem.book.held == old(mem.book.held)
    ensures var free := old(mem.book.free);
      t == Cow.SetProc(Cow.SetMem(s, free[0], Cow.ZeroPage()), e,
                       ProcWith(s.procs[e], pn, Entry(free[0], perm), First(free[1..])))
    ensures Shows(mem.M(), mem.book, t, read)
  {
    hide TablesOk, LedgerOk, Shows, DataKept, TableMade, EntrySet, Space;
    ghost var m, a, b := mem.M(), mem.A(), mem.book;
    HasTableIs(m, b, s, read, e, pn);
    Shape(m, a, b);
    var ok := mem.SysPageAlloc(e, pn, perm);
    assert perm + {P} == perm;
    AllocData(m, b, mem.M(), e, Pdx(pn), First(b.free[1..]));
    t := AllocShows(m, a, b, mem.M(), mem.book, s, e, pn, perm, read);
  }

  /** sys_page_map of a mapped page, with memory for a table if that is missing. The books fit unless the count of
      the page was full. */
  method SharePage(mem: PhysMem, ghost s: Cow.State, src: nat, spn: nat, e: nat, pn: nat, perm: Flags,
                   ghost read: Reader) returns (ghost t: Cow.State)
    requires mem.Valid() && Shows(mem.M(), mem.book, s, read) && Cow.Maps(s, src, spn)
    requires e in s.procs && IsUser(pn) && P in perm && (W in perm ==> W in Cow.At(s, src, spn).flags)
    requires s.procs[e].HasTable(pn) || mem.book.free != []
    modifies mem, mem.pages, mem.phys
    ensures TablesOk(mem.M(), mem.book) && mem.book.held == old(mem.book.held)
    ensures var x := Entry(Cow.At(s, src, spn).frame, perm);
      t == Cow.SetProc(s, e, s.procs[e].MapPage(pn, x, First(old(mem.book.free))))
    ensures Shows(mem.M(), mem.book, t, read)
    ensures mem.Valid() <==>
      || old(PteOf(mem.M(), e, pn)).frame == Cow.At(s, src, spn).frame
      || old(mem.RefAt(Cow.At(s, src, spn).frame)) + 1 < REF_LIMIT
  {
    hide TablesOk, LedgerOk, Shows, DataKept, TableMade, EntrySet, Space;
    ghost var m, a, b := mem.M(), mem.A(), mem.book;
    SlotHolds(m, b, s, read, src, spn);
    HasTableIs(m, b, s, read, e, pn);
    Shape(m, a, b);
    assert PteOf(m, src, spn).Present();
    var r := mem.SysPageMap(src, spn, e, pn, perm);
    assert perm + {P} == perm;
    ShareData(m, b, mem.M(), e, Pdx(pn));
    t := ShareShows(m, a, b, mem.M(), mem.book, s, src, spn, e, pn, perm, read);
  }

  /** `mem` has the state `s` in its tables, and no page on its way out of the allocator; a cleared page reads
      as zeros. */
  ghost predicate Backs(mem: PhysMem, s: Cow.State, read: Reader)
    reads mem, mem.pages, mem.phys
  {
    mem.Valid() && mem.book.held == {} && Shows(mem.M(), mem.book, s, read) && read(ZERO_FRAME) == Cow.ZeroPage()
  }

  /** Two pages, or one where the table exists, are what a call of sys_page_alloc needs. */
  lemma Enough(m: Mem, a: Ledger, b: Book, s: Cow.State, read: Reader, e: nat, pn: nat, f: nat, tab: nat)
    requires TablesOk(m, b) && LedgerOk(a, b) && Shows(m, b, s, read) && b.held == {} && e in s.procs
    requires Cow.Free(s, f) && Cow.CanMap(s, e, pn, f, tab)
    ensures |b.free| > if s.procs[e].HasTable(pn) then 0 else 1
  {
    hide TablesOk, LedgerOk, Shows, Cow.Free;
    FreeIff(m, a, b, s, read, f);
    FreeIff(m, a, b, s, read, tab);
  }

  lemma Given(m: Mem, a: Ledger, b: Book, s: Cow.State, read: Reader, e: nat, pn: nat)
    requires TablesOk(m, b) && LedgerOk(a, b) && Shows(m, b, s, read) && e in s.procs
    requires |b.free| > if s.procs[e].HasTable(pn) then 0 else 1
    ensures Cow.Free(s, b.free[0]) && Cow.CanMap(s, e, pn, b.free[0], First(b.free[1..]))
  {
    hide TablesOk, LedgerOk, Shows, Cow.Free;
    FreeIff(m, a, b, s, read, b.free[0]);
    if |b.free| > 1 {
      FreeIff(m, a, b, s, read, b.free[1]);
      FreeHasNoHolder(m, a, b, 0);
    }
  }

  /** sys_page_alloc of a user page, in whatever frames the allocator gives. */
  method AllocStep(mem: PhysMem, ghost s: Cow.State, e: nat, pn: nat, perm: Flags, ghost fault: Cow.Fault,
                   ghost f0: nat, ghost tab0: nat, ghost read: Reader) returns (ghost f: nat, ghost tab: nat)
    requires Backs(mem, s, read)
    requires e in s.procs && IsUser(pn) && P in perm && Cow.Free(s, f0) && Cow.CanMap(s, e, pn, f0, tab0)
    modifies mem, mem.pages, mem.phys
    ensures Cow.Free(s, f) && Cow.CanMap(s, e, pn, f, tab)
    ensures Backs(mem, Cow.MapFresh(s, e, pn, f, tab, perm, fault), read)
  {
    hide TablesOk, LedgerOk, Shows;
    Enough(mem.M(), mem.A(), mem.book, s, read, e, pn, f0, tab0);
    Given(mem.M(), mem.A(), mem.book, s, read, e, pn);
    f, tab := mem.book.free[0], First(mem.book.free[1..]);
    ghost var t := AllocPage(mem, s, e, pn, perm, read);
    SameShows(mem.M(), mem.book, t, Cow.MapFresh(s, e, pn, f, tab, perm, fault), read);
  }

  /** sys_exofork and the exception stack of the child. */
  method BeginFork(mem: PhysMem, ghost s: Cow.State, e: nat, c: nat, ghost read: Reader) returns (ghost own: seq<nat>)
    requires Backs(mem, s, read)
    requires e in s.procs && c !in s.procs && c < KERN && |mem.book.free| >= 3
    modifies mem, mem.pages, mem.phys
    ensures |own| == 3
    ensures Cow.Free(s, own[0]) && Cow.Free(s, own[1]) && Cow.Free(s, own[2])
    ensures own[0] != own[1] && own[0] != own[2] && own[1] != own[2]
    ensures Backs(mem, Cow.NewChild(s, e, c, {own[0], own[1], own[2]}), read)
  {
    hide TablesOk, LedgerOk, Shows, OthersKept, Space;
    ghost var m, a, b := mem.M(), mem.A(), mem.book;
    ThreeFree(m, a, b, s, read);
    own := b.free[..3];
    NotADir(m, b, s, read, c);
    var ok := mem.EnvSetupVm(c);
    SetupShows(m, a, b, mem.M(), mem.book, s, e, c, read);
    ghost var t1 := Cow.SetProc(s, c, Cow.Proc(e, map[], {}, {own[0]}, false, Cow.NoFork, Cow.NoFault));
    assert mem.book.free == b.free[1..];
    assert b.free[1..][1..] == b.free[2..];
    NoStackYet(mem.M(), c);
    ghost var t2 := AllocPage(mem, t1, c, Cow.UXSTACK, {P, U, W}, read);
    assert {own[0]} + {own[1]} + {own[2]} == {own[0], own[1], own[2]};
    assert {} + {Cow.Dir(Cow.UXSTACK)} == {Cow.Dir(Cow.UXSTACK)};
    forall e2: nat, p: nat | Cow.Maps(t2, e2, p) ensures Cow.At(t2, e2, p).frame != own[1] {
      assert Cow.Maps(s, e2, p) && Cow.At(s, e2, p) == Cow.At(t2, e2, p);
    }
    SameShows(mem.M(), mem.book, t2, Cow.NewChild(s, e, c, {own[0], own[1], own[2]}), read);
  }

  lemma ThreeFree(m: Mem, a: Ledger, b: Book, s: Cow.State, read: Reader)
    requires TablesOk(m, b) && LedgerOk(a, b) && Shows(m, b, s, read) && |b.free| >= 3
    ensures Cow.Free(s, b.free[0]) && Cow.Free(s, b.free[1]) && Cow.Free(s, b.free[2])
    ensures b.free[0] != b.free[1] && b.free[0] != b.free[2] && b.free[1] != b.free[2]
  {
    FreeHasNoHolder(m, a, b, 0);
    FreeHasNoHolder(m, a, b, 1);
    FreeIff(m, a, b, s, read, b.free[0]);
    FreeIff(m, a, b, s, read, b.free[1]);
    FreeIff(m, a, b, s, read, b.free[2]);
  }

  lemma NotADir(m: Mem, b: Book, s: Cow.State, read: Reader, c: nat)
    requires Shows(m, b, s, read) && c !in s.procs && c < KERN
    ensures c !in m.dirs
  {
    assert c !in m.dirs.Keys - {KERN};
  }

  lemma NoStackYet(n: Mem, c: nat)
    requires forall p: nat :: p < UTOP_PDX ==> !Pde(n, c, p).Present()
    ensures !PteOf(n, c, Cow.UXSTACK).Present()
  {
    assert Pdx(Cow.UXSTACK) < UTOP_PDX;
  }

  // ----- The steps -----

  /** What a program has read and will use in a call is an entry of a user page. */
  ghost predicate Known(s: Cow.State) {
    forall e :: e in s.procs ==> KnownFork(s.procs[e].fork) && KnownFault(s.procs[e].fault)
  }

  predicate KnownFork(k: Cow.Fork) {
    k.Dup? || k.Window? ==> P in k.perm && IsUser(k.pn)
  }

  predicate KnownFault(k: Cow.Fault) {
    k.Alloc? || k.Copy? ==> P in k.perm && IsUser(k.pn)
  }

  lemma KnownKeeps(m: Mem, b: Book, s: Cow.State, read: Reader, st: Cow.Step)
    requires TablesOk(m, b) && Shows(m, b, s, read) && Known(s) && Cow.Enabled(s, st)
    ensures Known(Cow.Apply(s, st))
  {
    hide TablesOk, Shows, Cow.Free, Cow.CanMap, Cow.Exhausted;
    forall e: nat, p: nat | Cow.Maps(s, e, p) ensures P in Cow.At(s, e, p).flags && IsUser(p) {
      SlotHolds(m, b, s, read, e, p);
    }
  }

  /** A step that the kernel takes part in, or that reads the tables; the others store to memory. */
  predicate IsCall(st: Cow.Step) {
    match st
    case Store(_, _, _, _) => false
    case FaultCopy(_) => false
    case PageAlloc(_, pn, _, _) => IsUser(pn)
    case ForkBegin(_, c, _, _, _) => c < KERN
    case _ => true
  }

  /** The same step, but for the frames that the allocator gives. */
  predicate SameCall(st: Cow.Step, st2: Cow.Step) {
    match st
    case PageAlloc(e, pn, _, _) => st2.PageAlloc? && st2.e == e && st2.pn == pn
    case FaultAlloc(e, _, _) => st2.FaultAlloc? && st2.e == e
    case ForkBegin(e, c, _, _, _) => st2.ForkBegin? && st2.e == e && st2.newenv == c
    case DupChild(e, _) => st2.DupChild? && st2.e == e
    case _ => st2 == st
  }

  /** The count of the page that the step shares is not full. */
  ghost predicate Room(a: Ledger, s: Cow.State, st: Cow.Step)
    requires Cow.Enabled(s, st)
  {
    match st
    case DupChild(e, _) => Below(a, Cow.At(s, e, s.procs[e].fork.pn).frame)
    case FaultMap(e) => Below(a, Cow.At(s, e, Cow.PFTEMP).frame)
    case _ => true
  }

  predicate Below(a: Ledger, f: nat) {
    f < |a.pages| ==> a.pages[f].ref + 1 < REF_LIMIT
  }

  /** Every call of CowFork is carried out on the two-level tables, which come to hold just what CowFork says. */
  method Perform(mem: PhysMem, s: Cow.State, st: Cow.Step, ghost read: Reader) returns (ghost st2: Cow.Step)
    requires Backs(mem, s, read)
    requires Cow.Inv(s) && Known(s) && Cow.Enabled(s, st) && IsCall(st)
    modifies mem, mem.pages, mem.phys
    ensures SameCall(st, st2) && Cow.Enabled(s, st2)
    ensures TablesOk(mem.M(), mem.book) && mem.book.held == {}
    ensures Shows(mem.M(), mem.book, Cow.Apply(s, st2), read) && Known(Cow.Apply(s, st2))
    ensures mem.Valid() <==> old(Room(mem.A(), s, st))
  {
    hide TablesOk, LedgerOk, Shows, Known, Cow.Inv;
    ghost var m, b := mem.M(), mem.book;
    match st {
      case PageAlloc(e, pn, f0, tab0) => st2 := DoPageAlloc(mem, s, e, pn, f0, tab0, read);
      case FaultAlloc(e, f0, tab0) => st2 := DoFaultAlloc(mem, s, e, f0, tab0, read);
      case FaultMap(e) => st2 := DoFaultMap(mem, s, e, read);
      case ForkBegin(e, c, d, x, tab) => st2 := DoForkBegin(mem, s, e, c, d, x, tab, read);
      case DupChild(e, tab0) => st2 := DoDupChild(mem, s, e, tab0, read);
      case DupParent(e) => st2 := DoDupParent(mem, s, e, read);
      case Exit(e) => st2 := DoExit(mem, s, e, read);
      case _ =>
        st2 := st;
        ReadsOnly(m, b, s, st, read);
    }
    KnownKeeps(m, b, s, read, st2);
  }

  /** The other steps change what programs know, not the tables. */
  lemma ReadsOnly(m: Mem, b: Book, s: Cow.State, st: Cow.Step, read: Reader)
    requires Shows(m, b, s, read) && Cow.Inv(s) && Cow.Enabled(s, st)
    requires st.FaultEnter? || st.ForkScan? || st.ForkEnd? || st.OutOfMemory?
    ensures Shows(m, b, Cow.Apply(s, st), read)
  {
    hide Shows, Cow.Exclusive, Cow.TablesExist, Cow.FramesOk, Cow.FaultOk, Cow.Free, Cow.CanMap, Cow.Exhausted;
    if st.ForkEnd? {
      assert Cow.ForkOk(s, st.e);
    }
    SameShows(m, b, s, Cow.Apply(s, st), read);
  }

  method DoPageAlloc(mem: PhysMem, s: Cow.State, e: nat, pn: nat, ghost f0: nat, ghost tab0: nat, ghost read: Reader)
    returns (ghost st2: Cow.Step)
    requires Backs(mem, s, read)
    requires Cow.Enabled(s, Cow.PageAlloc(e, pn, f0, tab0)) && IsUser(pn)
    modifies mem, mem.pages, mem.phys
    ensures SameCall(Cow.PageAlloc(e, pn, f0, tab0), st2) && Cow.Enabled(s, st2)
    ensures Backs(mem, Cow.Apply(s, st2), read)
  {
    hide TablesOk, LedgerOk, Shows, Cow.Free, Cow.CanMap;
    ghost var f, tab := AllocStep(mem, s, e, pn, {P, U, W}, Cow.NoFault, f0, tab0, read);
    st2 := Cow.PageAlloc(e, pn, f, tab);
  }

  method DoFaultAlloc(mem: PhysMem, s: Cow.State, e: nat, ghost f0: nat, ghost tab0: nat, ghost read: Reader)
    returns (ghost st2: Cow.Step)
    requires Backs(mem, s, read)
    requires Known(s) && Cow.Enabled(s, Cow.FaultAlloc(e, f0, tab0))
    modifies mem, mem.pages, mem.phys
    ensures SameCall(Cow.FaultAlloc(e, f0, tab0), st2) && Cow.Enabled(s, st2)
    ensures Backs(mem, Cow.Apply(s, st2), read)
  {
    hide TablesOk, LedgerOk, Shows, Cow.Free, Cow.CanMap;
    var k := s.procs[e].fault;
    ghost var f, tab := AllocStep(mem, s, e, Cow.PFTEMP, k.perm, Cow.Copy(k.pn, k.perm, 0), f0, tab0, read);
    st2 := Cow.FaultAlloc(e, f, tab);
  }

  method DoFaultMap(mem: PhysMem, s: Cow.State, e: nat, ghost read: Reader) returns (ghost st2: Cow.Step)
    requires Backs(mem, s, read)
    requires Cow.Inv(s) && Known(s) && Cow.Enabled(s, Cow.FaultMap(e))
    modifies mem, mem.pages, mem.phys
    ensures st2 == Cow.FaultMap(e) && TablesOk(mem.M(), mem.book) && mem.book.held == {}
    ensures Shows(mem.M(), mem.book, Cow.Apply(s, st2), read)
    ensures mem.Valid() <==> old(Room(mem.A(), s, st2))
  {
    hide TablesOk, LedgerOk, Shows, Cow.Free, Cow.CanMap;
    st2 := Cow.FaultMap(e);
    var k := s.procs[e].fault;
    Cow.CopyDone(s, e);
    SlotHolds(mem.M(), mem.book, s, read, e, Cow.PFTEMP);
    SlotHolds(mem.M(), mem.book, s, read, e, k.pn);
    Shape(mem.M(), mem.A(), mem.book);
    ghost var t := SharePage(mem, s, e, Cow.PFTEMP, e, k.pn, k.perm, read);
    assert s.procs[e].tables + {Cow.Dir(k.pn)} == s.procs[e].tables;
    SameShows(mem.M(), mem.book, t, Cow.Apply(s, st2), read);
  }

  method DoForkBegin(mem: PhysMem, s: Cow.State, e: nat, c: nat, ghost d: nat, ghost x: nat, ghost tab: nat,
                     ghost read: Reader) returns (ghost st2: Cow.Step)
    requires Backs(mem, s, read)
    requires Cow.Enabled(s, Cow.ForkBegin(e, c, d, x, tab)) && c < KERN
    modifies mem, mem.pages, mem.phys
    ensures SameCall(Cow.ForkBegin(e, c, d, x, tab), st2) && Cow.Enabled(s, st2)
    ensures Backs(mem, Cow.Apply(s, st2), read)
  {
    hide TablesOk, LedgerOk, Shows, Cow.Free;
    ThreeEnough(mem.M(), mem.A(), mem.book, s, read, d, x, tab);
    ghost var own := BeginFork(mem, s, e, c, read);
    st2 := Cow.ForkBegin(e, c, own[0], own[1], own[2]);
  }

  lemma ThreeEnough(m: Mem, a: Ledger, b: Book, s: Cow.State, read: Reader, d: nat, x: nat, tab: nat)
    requires TablesOk(m, b) && LedgerOk(a, b) && Shows(m, b, s, read) && b.held == {}
    requires Cow.Free(s, d) && Cow.Free(s, x) && Cow.Free(s, tab) && d != x && d != tab && x != tab
    ensures |b.free| >= 3
  {
    hide TablesOk, LedgerOk, Shows, Cow.Free;
    FreeIff(m, a, b, s, read, d);
    FreeIff(m, a, b, s, read, x);
    FreeIff(m, a, b, s, read, tab);
  }

  method DoDupChild(mem: PhysMem, s: Cow.State, e: nat, ghost tab0: nat, ghost read: Reader)
    returns (ghost st2: Cow.Step)
    requires Backs(mem, s, read)
    requires Cow.Inv(s) && Known(s) && Cow.Enabled(s, Cow.DupChild(e, tab0))
    modifies mem, mem.pages, mem.phys
    ensures SameCall(Cow.DupChild(e, tab0), st2) && Cow.Enabled(s, st2)
    ensures TablesOk(mem.M(), mem.book) && mem.book.held == {} && Shows(mem.M(), mem.book, Cow.Apply(s, st2), read)
    ensures mem.Valid() <==> old(Room(mem.A(), s, Cow.DupChild(e, tab0)))
  {
    hide TablesOk, LedgerOk, Shows, Cow.Free, Cow.Exclusive, Cow.TablesExist, Cow.FramesOk, Cow.FaultOk;
    var k := s.procs[e].fork;
    st2 := Cow.DupChild(e, First(mem.book.free));
    assert Cow.ForkOk(s, e);
    SlotHolds(mem.M(), mem.book, s, read, e, k.pn);
    ChildSlot(mem.M(), mem.A(), mem.book, s, read, e, k.child, k.pn, tab0);
    Shape(mem.M(), mem.A(), mem.book);
    ghost var t := SharePage(mem, s, e, k.pn, k.child, k.pn, k.perm, read);
    SameShows(mem.M(), mem.book, t, Cow.Apply(s, st2), read);
  }

  /** The child has nothing at the page yet, and the allocator has a table for it. */
  lemma ChildSlot(m: Mem, a: Ledger, b: Book, s: Cow.State, read: Reader, e: nat, c: nat, pn: nat, tab0: nat)
    requires TablesOk(m, b) && LedgerOk(a, b) && Shows(m, b, s, read) && b.held == {} && Cow.Maps(s, e, pn)
    requires c in s.procs && !Cow.Maps(s, c, pn) && Cow.CanMap(s, c, pn, Cow.At(s, e, pn).frame, tab0)
    ensures PteOf(m, c, pn).frame != Cow.At(s, e, pn).frame
    ensures s.procs[c].HasTable(pn) || b.free != []
    ensures Cow.CanMap(s, c, pn, Cow.At(s, e, pn).frame, First(b.free))
  {
    SlotHolds(m, b, s, read, e, pn);
    assert ShowsProc(m, s.procs[c], c);
    AbsentIsZero(m, b, c, pn);
    if !s.procs[c].HasTable(pn) {
      FreeIff(m, a, b, s, read, tab0);
      FreeIff(m, a, b, s, read, b.free[0]);
      SlotIsData(m, a, b, s, read, e, pn, c);
    }
  }

  method DoDupParent(mem: PhysMem, s: Cow.State, e: nat, ghost read: Reader) returns (ghost st2: Cow.Step)
    requires Backs(mem, s, read)
    requires Cow.Inv(s) && Known(s) && Cow.Enabled(s, Cow.DupParent(e))
    modifies mem, mem.pages, mem.phys
    ensures st2 == Cow.DupParent(e) && Backs(mem, Cow.Apply(s, st2), read)
  {
    hide TablesOk, LedgerOk, Shows, Cow.Free, Cow.Exclusive, Cow.TablesExist, Cow.FramesOk, Cow.FaultOk;
    var k := s.procs[e].fork;
    st2 := Cow.DupParent(e);
    assert Cow.ForkOk(s, e);
    SlotHolds(mem.M(), mem.book, s, read, e, k.pn);
    ghost var t := SharePage(mem, s, e, k.pn, e, k.pn, k.perm, read);
    assert s.procs[e].tables + {Cow.Dir(k.pn)} == s.procs[e].tables;
    SameShows(mem.M(), mem.book, t, Cow.Apply(s, st2), read);
  }

  method DoExit(mem: PhysMem, s: Cow.State, e: nat, ghost read: Reader) returns (ghost st2: Cow.Step)
    requires Backs(mem, s, read) && Cow.Enabled(s, Cow.Exit(e))
    modifies mem, mem.pages, mem.phys
    ensures st2 == Cow.Exit(e) && Backs(mem, Cow.Apply(s, st2), read)
  {
    hide TablesOk, LedgerOk, Shows, OthersKept, PagesKept;
    st2 := Cow.Exit(e);
    ghost var m, a, b := mem.M(), mem.A(), mem.book;
    HasTableIs(m, b, s, read, e, 0);
    mem.EnvFree(e);
    ExitShows(m, a, b, mem.M(), mem.book, s, e, read);
  }

  // ----- What the hardware lets programs do -----

  /** Both levels of the tables let a program read every page it has mapped, and write it if its entry does. */
  lemma MappedIsGranted(m: Mem, b: Book, s: Cow.State, read: Reader, e: nat, p: nat)
    requires TablesOk(m, b) && Shows(m, b, s, read) && CowRights.UserSlots(s) && Cow.Maps(s, e, p)
    ensures {P, U} <= AccessRights(m, e, p) && (W in AccessRights(m, e, p) <==> W in Cow.At(s, e, p).flags)
  {
    SlotHolds(m, b, s, read, e, p);
    RightsAreThePtes(m, b, e, p, {P, U});
    RightsAreThePtes(m, b, e, p, {W});
  }

  /** Over every run from boot: where the tables hold the state that copy-on-write fork has come to, the
      hardware lets each running environment read exactly the pages that eager copying would give it, and it
      finds the same bytes there. */
  lemma HardwareReadsEager(states: seq<Cow.State>, steps: seq<Cow.Step>, eager: seq<Cow.Spaces>, k: nat,
                           m: Mem, b: Book, read: Reader, e: nat, p: nat)
    requires Cow.Run(states, steps) && Cow.Boot(states[0]) && CowRights.UserSlots(states[0]) && k <= |steps|
    requires Cow.EagerRun(eager, states, steps) && TablesOk(m, b) && Shows(m, b, states[k], read)
    requires e in states[k].procs && states[k].procs[e].runnable && IsUser(p) && p != Cow.PFTEMP
    ensures e in eager[k] && (p in eager[k][e] <==> {P, U} <= AccessRights(m, e, p))
    ensures p in eager[k][e] ==>
      PteOf(m, e, p).frame < |m.phys| && eager[k][e][p] == read(m.phys[PteOf(m, e, p).frame])
  {
    CowRights.RunKeepsRights(states, steps, k);
    Cow.InitInv(states[0]);
    Cow.CowRefinesEager(states, steps, eager, k);
    var s := states[k];
    hide TablesOk, Cow.Inv, CowRights.PermsOk, CowRights.UserSlots, Cow.Boot, Cow.EagerRun, Cow.Run;
    assert Cow.SamePage(s, eager[k], e, p);
    assert ShowsProc(m, s.procs[e], e);
    if Cow.Maps(s, e, p) {
      MappedIsGranted(m, b, s, read, e, p);
      SlotHolds(m, b, s, read, e, p);
    }
  }
}
