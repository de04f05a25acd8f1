/** kern/pmap.c: the page allocator and the two-level page tables, updated in place; with
    env_setup_vm and env_free from kern/env.c, which build and tear down address spaces. */
module Pmap {
  import opened Mmu
  import opened PageTables
  import opened Lists
  import opened FreeListParts
  import opened PmapSteps
  import opened KernelMap

  /** Physical memory with pages[], page_free_list and the directory of each address space; `book` is the
      account that Valid() compares with them. */
  class PhysMem {
    const pages: array<Page>
    const phys: array<Frame>
    var freeList: int
    var dirs: map<nat, nat>
    ghost var book: Book

    ghost function M(): Mem
      reads this, phys
    {
      Mem(phys[..], dirs)
    }

    ghost function A(): Ledger
      reads this, pages
    {
      Ledger(pages[..], freeList)
    }

    /** The count of page 0, which no reference stands for. */
    ghost function ZeroRef(): Count
      reads this, pages
    {
      if pages.Length > 0 then pages[0].ref else 0
    }

    ghost function RefAt(f: nat): Count
      reads this, pages
    {
      if f < pages.Length then pages[f].ref else 0
    }

    ghost predicate Valid()
      reads this, pages, phys
    {
      TablesOk(M(), book) && LedgerOk(A(), book)
    }

    /** mem_init up to page_init: kern_pgdir in frame `kd`, empty but for the recursive entry.
        Memory and the pages array hold whatever was there. */
    constructor (ram: seq<Frame>, garbage: seq<Page>, kd: nat)
      requires |garbage| == |ram| && 0 < kd < |ram|
      requires forall i :: 0 <= i < |ram| ==> |ram[i]| == NPTENTRIES
      ensures BeforePageInit(kd) && pages.Length == |ram| && fresh(pages) && fresh(phys)
      ensures forall i :: 0 <= i < |garbage| ==> pages[i] == garbage[i]
    {
      pages := new Page[|garbage|](i requires 0 <= i < |garbage| => garbage[i]);
      phys := new Frame[|ram|](i requires 0 <= i < |ram| => ram[i]);
      freeList := -1;
      dirs := map[KERN := kd];
      book := Book([], seq(|ram|, i => {}), {}, {});
      new;
      phys[kd] := ZERO_FRAME[UVPT_PDX := Entry(kd, {U, P})];
    }

    ghost predicate BeforePageInit(kd: nat)
      reads this, pages, phys
    {
      && pages.Length == phys.Length && kd < phys.Length && freeList == -1 && dirs == map[KERN := kd]
      && phys[kd] == ZERO_FRAME[UVPT_PDX := Entry(kd, {U, P})]
      && (forall i :: 0 <= i < phys.Length ==> |phys[i]| == NPTENTRIES)
    }

    /** page_init: puts exactly the allocatable pages on the free list, the highest first. */
    method PageInit(kd: nat, first: nat)
      requires BeforePageInit(kd) && IOPHYS_FRAME <= kd < first <= pages.Length
      modifies this, pages
      ensures Valid() && M() == old(M())
      ensures book.managed == set i | 0 <= i < pages.Length && Allocatable(i, first)
      ensures forall i: nat :: i in book.managed <==>
        i < pages.Length && i != 0 && i * PGSIZE != 0x7000 && !(0xa_0000 <= i * PGSIZE && i < first)
      ensures book.held == {} && book.holders == seq(pages.Length, i => {}) && ZeroRef() == old(ZeroRef())
      ensures forall i, j :: 0 <= i < j < |book.free| ==> book.free[j] < book.free[i]
      ensures forall i :: i in book.free <==> i in book.managed
    {
      ghost var free: seq<nat> := [];
      var i := 0;
      LinkStart(pages[..], first);
      hide Linked, TablesOk, LedgerOk;
      while i < pages.Length
        invariant 0 <= i <= pages.Length && M() == old(M()) && ZeroRef() == old(ZeroRef())
        invariant Linked(pages[..], freeList, free, i, first)
      {
        LinkNext(pages[..], freeList, free, i, first);
        if i == 0 || i == MPENTRY_FRAME {
          // in use
        } else if IOPHYS_FRAME <= i && i < first {
          // the I/O hole, the kernel and what boot_alloc gave out
        } else {
          ghost var before := pages[..];
          pages[i] := Page(freeList, 0);
          assert pages[..] == before[i := Page(freeList, 0)];
          freeList := i;
          free := [i] + free;
        }
        i := i + 1;
      }
      book := FirstBook(free, pages.Length, first);
      AllocatableAt(first);
      InitialBook(M(), A(), kd, free, first);
    }

    /** page_alloc. */
    method PageAlloc(zero: bool) returns (pp: int)
      requires Valid()
      modifies this, phys
      ensures Valid() && SameWalks(old(M()), M()) && SamePdes(old(M()), M())
      ensures pp == -1 <==> old(book.free) == []
      ensures pp == -1 ==> book == old(book)
      ensures pp != -1 ==> 0 <= pp && pp == old(book.free)[0]
      ensures pp != -1 ==>
        book == Book(old(book.free)[1..], old(book.holders), old(book.held) + {pp}, old(book.managed))
      ensures pp != -1 ==> pp in book.managed && pp !in old(book.held) && book.holders[pp] == {}
      ensures ContentsKept(old(M()), M(), pp, pp)
      ensures pp != -1 && zero ==> phys[pp] == ZERO_FRAME
    {
      PopKeeps(A(), book);
      if freeList == -1 {
        return -1;
      }
      pp := freeList;
      freeList := pages[pp].link;
      book := Book(book.free[1..], book.holders, book.held + {pp}, book.managed);
      if zero {
        DataFrameFree(M(), book, pp, ZERO_FRAME);
        ghost var m := M();
        phys[pp] := ZERO_FRAME;
        assert M() == SetFrame(m, pp, ZERO_FRAME);
      }
    }

    /** page_free, of a page that page_alloc handed out. */
    method PageFree(pp: nat)
      requires Valid() && pp in book.held && book.holders[pp] == {}
      modifies this, pages
      ensures Valid() && M() == old(M()) && ZeroRef() == old(ZeroRef())
      ensures book == Book([pp] + old(book.free), old(book.holders), old(book.held) - {pp}, old(book.managed))
    {
      PushKeeps(A(), book, pp);
      ghost var a := A();
      pages[pp] := Page(freeList, pages[pp].ref);
      freeList := pp;
      assert A() == PushFree(a, pp);
      book := Book([pp] + book.free, book.holders, book.held - {pp}, book.managed);
    }

    /** page_decref: the count goes down in 16 bits and a page whose count reaches 0 is freed. */
    method PageDecref(pp: nat)
      requires pp < pages.Length
      modifies this`freeList, pages
      ensures A() == Decref(old(A()), pp) && (pp != 0 ==> ZeroRef() == old(ZeroRef()))
    {
      ghost var a := A();
      var n := (pages[pp].ref + REF_LIMIT - 1) % REF_LIMIT;
      pages[pp] := Page(pages[pp].link, n);
      assert A() == SetRef(a, pp, n);
      if n == 0 {
        pages[pp] := Page(freeList, pages[pp].ref);
        freeList := pp;
      }
      assert A() == Decref(a, pp);
    }

    /** pgdir_walk without `create`: the table that holds the entry for page `pn`, or -1. */
    method FindTable(e: nat, pn: nat) returns (t: int)
      requires Valid() && e in dirs && pn < NPAGES
      ensures t == if Pde(M(), e, Pdx(pn)).Present() then Pde(M(), e, Pdx(pn)).frame else -1
    {
      var d, p := dirs[e], Pdx(pn);
      t := if P in phys[d][p].flags then phys[d][p].frame else -1;
    }

    /** pgdir_walk's creation of a missing table: a cleared page, entered present and writable. */
    method NewTable(e: nat, p: nat) returns (t: int)
      requires Valid() && e in dirs && Owns(e, p) && (e == KERN ==> dirs.Keys == {KERN})
      requires !Pde(M(), e, p).Present()
      modifies this, pages, phys
      ensures Valid() && SameWalks(old(M()), M()) && ZeroRef() == old(ZeroRef())
      ensures t == -1 <==> old(book.free) == []
      ensures t == -1 ==> book == old(book) && SamePdes(old(M()), M())
      ensures t != -1 ==> old(book.free) != [] && t == old(book.free)[0] && book == WithTable(old(book), e, p)
      ensures ContentsKept(old(M()), M(), t, dirs[e])
      ensures t != -1 ==> Pde(M(), e, p) == Entry(t, {P, W})
      ensures forall e2: nat, p2: nat :: e2 != e || p2 != p ==> Pde(M(), e2, p2) == old(Pde(M(), e2, p2))
    {
      hide TablesOk, LedgerOk;
      Shape(M(), A(), book);
      t := PageAlloc(true);
      if t == -1 {
        return;
      }
      Shape(M(), A(), book);
      EnterTable(M(), A(), old(book), book, e, p, t);
      ghost var m, a := M(), A();
      var d := dirs[e];
      phys[d] := phys[d][p := Entry(t, {P, W})];
      pages[t] := Page(pages[t].link, 1);
      assert M() == SetSlot(m, d, p, Entry(t, {P, W}));
      assert A() == SetRef(a, t, 1);
      book := WithTable(old(book), e, p);
    }

    /** pgdir_walk: the table that holds the entry for page `pn`, or -1. With `create`, a missing
        table is made; that maps nothing. */
    method PgdirWalk(e: nat, pn: nat, create: bool) returns (t: int)
      requires Valid() && e in dirs && pn < NPAGES
      requires create ==> Owns(e, Pdx(pn)) && (e == KERN ==> dirs.Keys == {KERN})
      modifies this, pages, phys
      ensures Valid() && SameWalks(old(M()), M()) && ZeroRef() == old(ZeroRef())
      ensures t == -1 <==> !old(Pde(M(), e, Pdx(pn)).Present()) && (!create || old(book.free) == [])
      ensures t != -1 ==> Pde(M(), e, Pdx(pn)).Present() && t == Pde(M(), e, Pdx(pn)).frame
      ensures t != -1 && !old(Pde(M(), e, Pdx(pn)).Present()) ==>
        Pde(M(), e, Pdx(pn)) == Entry(t, {P, W}) && old(book.free) != [] && t == old(book.free)[0]
      ensures if t == -1 || old(Pde(M(), e, Pdx(pn)).Present())
        then book == old(book) && SamePdes(old(M()), M())
        else old(book.free) != [] && book == WithTable(old(book), e, Pdx(pn))
      ensures ContentsKept(old(M()), M(), t, dirs[e])
      ensures !create || old(Pde(M(), e, Pdx(pn)).Present()) ==> M() == old(M()) && A() == old(A())
      ensures forall e2: nat, p2: nat :: e2 != e || p2 != Pdx(pn) ==> Pde(M(), e2, p2) == old(Pde(M(), e2, p2))
    {
      t := FindTable(e, pn);
      if t == -1 && create {
        t := NewTable(e, Pdx(pn));
      }
    }

    /** page_lookup: the page mapped at `pn` and the table that maps it. It returns NULL (-1) only
        when there is no table: an absent entry in an existing table yields page 0. */
    method PageLookup(e: nat, pn: nat) returns (pp: int, t: int)
      requires Valid() && e in dirs && e != KERN && Pdx(pn) < UTOP_PDX
      ensures t == if Pde(M(), e, Pdx(pn)).Present() then Pde(M(), e, Pdx(pn)).frame else -1
      ensures t != -1 ==> 0 <= t < phys.Length && |phys[t]| == NPTENTRIES && phys[t][Ptx(pn)] == PteOf(M(), e, pn)
      ensures pp == -1 <==> !Pde(M(), e, Pdx(pn)).Present()
      ensures pp != -1 ==> pp == PteOf(M(), e, pn).frame
      ensures PteOf(M(), e, pn).Present() ==> pp in book.managed && pp == PteOf(M(), e, pn).frame
      ensures Pde(M(), e, Pdx(pn)).Present() && !PteOf(M(), e, pn).Present() ==> pp == 0
    {
      t := FindTable(e, pn);
      if t == -1 {
        return -1, t;
      }
      assert Owns(e, Pdx(pn)) && Holds(M(), TableRef(e, Pdx(pn)), t);
      pp := phys[t][Ptx(pn)].frame;
      assert phys[t][Ptx(pn)] == PteOf(M(), e, pn);
      if PteOf(M(), e, pn).Present() {
        assert Holds(M(), PageRef(e, Pdx(pn), Ptx(pn)), pp);
      }
    }

    /** `pn` is mapped, or has no table. */
    ghost predicate MappedOrNoTable(e: nat, pn: nat)
      reads this, phys
    {
      PteOf(M(), e, pn).Present() || !Pde(M(), e, Pdx(pn)).Present()
    }

    /** page_remove. On an absent entry of an existing table it takes a reference from page 0; that
        spoils the free list exactly when the count of page 0 happens to be 1. */
    method PageRemove(e: nat, pn: nat)
      requires Valid() && e in dirs && e != KERN && Pdx(pn) < UTOP_PDX
      modifies this, pages, phys
      ensures Valid() <==> old(MappedOrNoTable(e, pn)) || old(pages[0].ref) != 1
      ensures !Valid() ==> freeList == 0
      ensures ZeroRef() ==
        if old(MappedOrNoTable(e, pn)) then old(ZeroRef()) else (old(ZeroRef()) + REF_LIMIT - 1) % REF_LIMIT
      ensures Space(M(), e) == old(Space(M(), e)) - {pn} && OthersKept(old(M()), M(), e)
      ensures ContentsKept(old(M()), M(), old(Pde(M(), e, Pdx(pn))).frame, -1)
      ensures EntrySet(old(M()), M(), e, pn, ZERO) && SamePdes(old(M()), M())
      ensures book == Unmapped(old(M()), old(book), e, Pdx(pn), Ptx(pn))
    {
      hide TablesOk, LedgerOk, Space;
      var pp, t := PageLookup(e, pn);
      if pp == -1 {
        EntrySetSpaces(M(), M(), e, pn, ZERO);
      } else {
        RemoveEntry(e, pn, pp, t);
      }
    }

    /** page_remove once an entry has been found. */
    method RemoveEntry(e: nat, pn: nat, pp: nat, t: nat)
      requires Valid() && e in dirs && e != KERN && Pdx(pn) < UTOP_PDX && Pde(M(), e, Pdx(pn)).Present()
      requires pp == PteOf(M(), e, pn).frame && t == Pde(M(), e, Pdx(pn)).frame
      modifies this, pages, phys
      ensures pages.Length > 0 && (Valid() <==> old(PteOf(M(), e, pn).Present()) || old(pages[0].ref) != 1)
      ensures !Valid() ==> freeList == 0
      ensures ZeroRef() ==
        if old(PteOf(M(), e, pn).Present()) then old(ZeroRef()) else (old(ZeroRef()) + REF_LIMIT - 1) % REF_LIMIT
      ensures Space(M(), e) == old(Space(M(), e)) - {pn} && OthersKept(old(M()), M(), e)
      ensures ContentsKept(old(M()), M(), t, -1)
      ensures EntrySet(old(M()), M(), e, pn, ZERO) && SamePdes(old(M()), M())
      ensures book == Unmapped(old(M()), old(book), e, Pdx(pn), Ptx(pn))
    {
      hide TablesOk, LedgerOk, Space, Decref, Unmapped, SetSlot, PteOf, OthersKept;
      ghost var m, a := M(), A();
      TakeOut(m, a, book, e, pn);
      PageDecref(pp);
      phys[t] := phys[t][Ptx(pn) := ZERO];
      SlotStored(m, M(), t, Ptx(pn), ZERO);
      book := Unmapped(m, book, e, Pdx(pn), Ptx(pn));
      EntrySetSpaces(m, M(), e, pn, ZERO);
    }

    /** pp->pp_ref++, in 16 bits. */
    method CountUp(pp: nat)
      requires pp < pages.Length
      modifies pages
      ensures A() == SetRef(old(A()), pp, (old(pages[pp].ref) + 1) % REF_LIMIT)
    {
      ghost var a := A();
      pages[pp] := Page(pages[pp].link, (pages[pp].ref + 1) % REF_LIMIT);
      assert A() == SetRef(a, pp, (a.pages[pp].ref + 1) % REF_LIMIT);
    }

    /** A page that page_insert may be given: one that page_alloc has handed out or that is mapped, or page 0,
        which page_lookup finds in an absent entry. */
    ghost predicate Insertable(pp: nat)
      reads this
    {
      pp != 0 ==> pp in book.managed && pp < |book.holders|
                  && (pp in book.held || book.holders[pp] != {}) && forall r :: r in book.holders[pp] ==> r.PageRef?
    }

    /** pp->pp_ref++, for the reference `r`. */
    method IncRef(pp: nat, ghost r: Ref)
      requires LedgerOk(A(), book) && pp < pages.Length
      requires pp != 0 ==> pp in book.managed && r !in book.holders[pp] && pp !in book.free
      modifies pages, this`book
      ensures M() == old(M()) && pages[pp].ref == (old(pages[pp].ref) + 1) % REF_LIMIT
      ensures pp != 0 ==>
        book == AddRef(old(book), r, pp) && (LedgerOk(A(), book) <==> old(pages[pp].ref) + 1 < REF_LIMIT)
      ensures pp == 0 ==> book == old(book) && LedgerOk(A(), book)
      ensures pp != 0 ==> ZeroRef() == old(ZeroRef())
    {
      if pp != 0 {
        CountExact(A(), book, r, pp);
      } else {
        PageZeroUncounted(A(), book, (pages[0].ref + 1) % REF_LIMIT);
      }
      CountUp(pp);
      if pp != 0 {
        book := AddRef(book, r, pp);
      }
    }

    /** Removes what is mapped at `pn`, a page other than `pp`. */
    method MakeRoom(e: nat, pp: nat, pn: nat, present: bool)
      requires Valid() && e in dirs && e != KERN && Pdx(pn) < UTOP_PDX && Pde(M(), e, Pdx(pn)).Present()
      requires present == PteOf(M(), e, pn).Present() && PteOf(M(), e, pn).frame != pp && Insertable(pp)
      modifies this, pages, phys
      ensures Valid() && EntrySet(old(M()), M(), e, pn, ZERO) && SamePdes(old(M()), M())
      ensures ContentsKept(old(M()), M(), old(Pde(M(), e, Pdx(pn))).frame, -1)
      ensures pp < |book.holders| && book.holders[pp] == old(book.holders)[pp] && pages[pp].ref == old(pages[pp].ref)
      ensures book.held == old(book.held) && book.managed == old(book.managed) && pp !in book.free
      ensures book == Unmapped(old(M()), old(book), e, Pdx(pn), Ptx(pn)) && ZeroRef() == old(ZeroRef())
    {
      PageZeroUnused(M(), book);
      if present {
        PageRemove(e, pn);
      } else {
        assert PteOf(M(), e, pn) == ZERO;
      }
    }

    /** Entry `x` may be written at `pn`, where `m` is the memory before page_insert. */
    ghost predicate Writable(m: Mem, e: nat, pn: nat, x: Entry)
      reads this, phys
    {
      && RowsOk(e, Pdx(pn)) && SamePdes(m, M())
      && EntrySet(m, WriteEntry(M(), e, pn, x), e, pn, x) && OtherPdesKept(m, WriteEntry(M(), e, pn, x), e)
      && SameTables(m, WriteEntry(M(), e, pn, x))
    }

    /** The middle of page_insert when `pp` is not mapped at `pn` yet: what is mapped there is removed
        and the count of `pp` goes up. */
    method ReplacePage(e: nat, pp: nat, pn: nat, present: bool, ghost x: Entry)
      requires Valid() && e in dirs && e != KERN && Pdx(pn) < UTOP_PDX && Pde(M(), e, Pdx(pn)).Present()
      requires present == PteOf(M(), e, pn).Present() && PteOf(M(), e, pn).frame != pp
      requires x.Present() && x.frame == pp && Insertable(pp)
      modifies this, pages, phys
      ensures Writable(old(M()), e, pn, x)
      ensures pp != 0 ==>
        TablesOk(WriteEntry(M(), e, pn, x), book) && (LedgerOk(A(), book) <==> old(pages[pp].ref) + 1 < REF_LIMIT)
      ensures pp < pages.Length && pages[pp].ref == (old(pages[pp].ref) + 1) % REF_LIMIT
      ensures pp != 0 ==> ZeroRef() == old(ZeroRef())
      ensures pp < |old(book.holders)| && (pp != 0 ==>
        book == AddRef(Unmapped(old(M()), old(book), e, Pdx(pn), Ptx(pn)), PageRef(e, Pdx(pn), Ptx(pn)), pp))
      ensures ContentsKept(old(M()), M(), old(Pde(M(), e, Pdx(pn))).frame, -1)
      ensures book.held == old(book.held) - {pp} && book.managed == old(book.managed)
    {
      hide TablesOk, LedgerOk, WriteEntry, Pte;
      Shape(M(), A(), book);
      MakeRoom(e, pp, pn, present);
      ghost var m := M();
      InsertReady(m, book, e, pn, x);
      EntrySetTwice(old(M()), m, WriteEntry(m, e, pn, x), e, pn, x);
      IncRef(pp, PageRef(e, Pdx(pn), Ptx(pn)));
    }

    /** The middle of page_insert: nothing to do if the entry names `pp` already. */
    method TakeReference(e: nat, pp: nat, pn: nat, ghost x: Entry)
      requires Valid() && e in dirs && e != KERN && Pdx(pn) < UTOP_PDX && Pde(M(), e, Pdx(pn)).Present()
      requires x.Present() && x.frame == pp && Insertable(pp)
      modifies this, pages, phys
      ensures Writable(old(M()), e, pn, x)
      ensures pp != 0 ==> TablesOk(WriteEntry(M(), e, pn, x), book)
      ensures pp != 0 ==>
        (LedgerOk(A(), book) <==> old(PteOf(M(), e, pn)).frame == pp || old(pages[pp].ref) + 1 < REF_LIMIT)
      ensures pp < pages.Length
      ensures pages[pp].ref ==
        if old(PteOf(M(), e, pn)).frame == pp then old(pages[pp].ref) else (old(pages[pp].ref) + 1) % REF_LIMIT
      ensures pp != 0 ==> ZeroRef() == old(ZeroRef())
      ensures pp < |old(book.holders)| && (pp != 0 ==> book == InsertBook(old(M()), old(book), e, pn, pp))
      ensures ContentsKept(old(M()), M(), old(Pde(M(), e, Pdx(pn))).frame, -1)
      ensures book.held == old(book.held) - {pp} && book.managed == old(book.managed)
    {
      hide TablesOk, LedgerOk, WriteEntry, EntrySet, Pte, RowsApart;
      Shape(M(), A(), book);
      var found, t := PageLookup(e, pn);
      if found == pp {
        ReinsertReady(M(), A(), book, e, pn, x);
      }
      if found != pp {
        ReplacePage(e, pp, pn, P in phys[t][Ptx(pn)].flags, x);
      }
    }

    ghost predicate RowsOk(e: nat, p: nat)
      reads this, phys
    {
      RowsApart(M(), e, p)
    }

    /** The end of page_insert: the entry is written into table `t`, then its flags are added to the
        directory entry. */
    method StoreEntry(e: nat, pn: nat, t: nat, x: Entry)
      requires RowsOk(e, Pdx(pn)) && pn < NPAGES && t == Pde(M(), e, Pdx(pn)).frame
      modifies phys
      ensures M() == WriteEntry(old(M()), e, pn, x)
      ensures ContentsKept(old(M()), M(), t, dirs[e])
    {
      var d, p := dirs[e], Pdx(pn);
      ghost var y := phys[d][p];
      phys[t] := phys[t][Ptx(pn) := x];
      assert M() == SetSlot(old(M()), t, Ptx(pn), x);
      phys[d] := phys[d][p := Entry(phys[d][p].frame, phys[d][p].flags + x.flags)];
      assert M() == SetSlot(SetSlot(old(M()), t, Ptx(pn), x), d, p, Entry(y.frame, y.flags + x.flags));
    }

    /** page_insert. It fails, changing nothing, only when a table is missing and no page is free.
        Otherwise `pn` of `e` maps `pp`, whose contents are kept, and every other address of every
        space is as before. The books stay exact unless the 16-bit count of `pp` was full, or `pp` is page 0:
        then no books fit the tables any more, and an absent entry has even taken page 0 without counting it. */
    method PageInsert(e: nat, pp: nat, pn: nat, perm: Flags) returns (ok: bool)
      requires Valid() && e in dirs && e != KERN && Pdx(pn) < UTOP_PDX && Insertable(pp)
      modifies this, pages, phys
      ensures dirs == old(dirs)
      ensures ok <==> old(Pde(M(), e, Pdx(pn)).Present()) || old(book.free) != []
      ensures !ok ==> Valid() && book == old(book) && SameWalks(old(M()), M()) && SamePdes(old(M()), M())
      ensures ok ==>
        (Valid() <==> pp != 0 && (old(PteOf(M(), e, pn)).frame == pp || old(pages[pp].ref) + 1 < REF_LIMIT))
      ensures ok ==> Space(M(), e) == old(Space(M(), e))[pn := Entry(pp, perm + {P})] && OthersKept(old(M()), M(), e)
      ensures ok ==> book.held == old(book.held) - {pp} && book.managed == old(book.managed)
      ensures ok ==> if pp != 0 then TablesOk(M(), book) else forall b: Book :: !TablesOk(M(), b)
      ensures ok && (pp != 0 || old(Pde(M(), e, Pdx(pn)).Present())) ==>
        pages[pp].ref ==
        if old(PteOf(M(), e, pn)).frame == pp then old(pages[pp].ref) else (old(pages[pp].ref) + 1) % REF_LIMIT
      ensures pp != 0 ==> ZeroRef() == old(ZeroRef())
      ensures ok && pp != 0 ==>
        && pp < |old(book.holders)|
        && (!old(Pde(M(), e, Pdx(pn)).Present()) ==> old(book.free)[0] < |old(book.holders)|)
        && book == InsertBook(old(M()), old(book), e, pn, pp)
      ensures ok ==> EntrySet(old(M()), M(), e, pn, Entry(pp, perm + {P}))
      ensures ok ==> TableMade(old(M()), M(), e, Pdx(pn), First(old(book.free)))
      ensures ok ==> ContentsKept(old(M()), M(), Pde(M(), e, Pdx(pn)).frame, dirs[e])
      ensures ok ==> forall p: nat :: Pde(M(), e, p).Present() <==> old(Pde(M(), e, p).Present()) || p == Pdx(pn)
      ensures ok ==> pp < |M().phys| && M().phys[pp] == old(M().phys)[pp]
    {
      hide TablesOk, LedgerOk, Space;
      ghost var m0, a0, b0 := M(), A(), book;
      PageZeroUnused(m0, book);
      Shape(m0, a0, b0);
      var t := PgdirWalk(e, pn, true);
      if t == -1 {
        return false;
      }
      ok := true;
      ghost var m1, x := M(), Entry(pp, perm + {P});
      PageZeroUnused(m1, book);
      TableElsewhere(a0, b0, A(), book, e, Pdx(pn), pp);
      DataFrame(m1, book, e, Pdx(pn), pp);
      assert m1.phys[pp] == m0.phys[pp] && OtherPdesKept(m0, m1, e);
      assert TableMade(m0, m1, e, Pdx(pn), First(b0.free));
      InsertAt(e, pp, pn, t, perm);
      InsertDone(m0, m1, M(), e, pn, x);
      TableThen(m0, m1, M(), e, Pdx(pn), First(b0.free));
      if pp == 0 {
        PageZeroMapped(M(), e, pn);
      }
    }

    /** page_insert once there is a table. */
    method InsertAt(e: nat, pp: nat, pn: nat, t: nat, perm: Flags)
      requires Valid() && e in dirs && e != KERN && Pdx(pn) < UTOP_PDX && Insertable(pp)
      requires Pde(M(), e, Pdx(pn)).Present() && t == Pde(M(), e, Pdx(pn)).frame
      modifies this, pages, phys
      ensures dirs == old(dirs) && book.held == old(book.held) - {pp} && book.managed == old(book.managed)
      ensures pp != 0 ==> TablesOk(M(), book)
      ensures pp != 0 ==> (Valid() <==> old(PteOf(M(), e, pn)).frame == pp || old(pages[pp].ref) + 1 < REF_LIMIT)
      ensures pp < pages.Length
      ensures pages[pp].ref ==
        if old(PteOf(M(), e, pn)).frame == pp then old(pages[pp].ref) else (old(pages[pp].ref) + 1) % REF_LIMIT
      ensures pp != 0 ==> ZeroRef() == old(ZeroRef())
      ensures pp < |old(book.holders)| && (pp != 0 ==> book == InsertBook(old(M()), old(book), e, pn, pp))
      ensures EntrySet(old(M()), M(), e, pn, Entry(pp, perm + {P})) && OtherPdesKept(old(M()), M(), e)
      ensures SameTables(old(M()), M())
      ensures pp < |old(M()).phys| && M().phys[pp] == old(M()).phys[pp] && ContentsKept(old(M()), M(), t, dirs[e])
    {
      hide TablesOk, LedgerOk, Space, WriteEntry, Pte, RowsApart;
      var x := Entry(pp, perm + {P});
      PageZeroUnused(M(), book);
      Shape(M(), A(), book);
      DataFrame(M(), book, e, Pdx(pn), pp);
      TakeReference(e, pp, pn, x);
      StoreEntry(e, pn, t, x);
    }

    /** page_insert at or above UTOP, which sys_ipc_try_send asks for when the receiver has given such an address. KADDR
        panics if the entry found there, present or not, names a frame outside physical memory. Otherwise the page is
        mapped, and unless it was there already no books fit any more: neither is the kernel's part of address
        spaces counted, nor do they all share a table that was missing. */
    method InsertAbove(e: nat, pp: nat, pn: nat, perm: Flags) returns (r: Above)
      requires Valid() && e in dirs && e != KERN && pp < pages.Length && UTOP_PDX <= Pdx(pn) && pn < NPAGES
      modifies this, pages, phys
      ensures dirs == old(dirs)
      ensures r == Full <==> !old(Pde(M(), e, Pdx(pn)).Present()) && old(book.free) == []
      ensures r == Panicked <==> old(PteOf(M(), e, pn)).frame >= pages.Length
      ensures r != Placed ==> Valid() && M() == old(M()) && book == old(book)
      ensures r == Placed ==> PlacedAbove(old(M()), M(), e, pn, Entry(pp, perm + {P}))
      ensures r == Placed && SharedDir(Pdx(pn)) && !(perm + {P} <= old(Pde(M(), e, Pdx(pn))).flags) ==>
        forall b: Book :: !TablesOk(M(), b)
      ensures r == Placed && MappedBeside(old(M()), e, pp) && old(PteOf(M(), e, pn)).frame != pp ==>
        NoBooks(M(), A())
    {
      hide TablesOk, LedgerOk, Pte, PlacedAbove, NoBooks, MappedBeside;
      Shape(M(), A(), book);
      AboveUser(M(), book, e, pn);
      if P !in phys[dirs[e]][Pdx(pn)].flags {
        r := InsertLone(e, pp, pn, perm);
      } else if Pdx(pn) == UVPT_PDX {
        r := InsertWindow(e, pp, pn, perm);
      } else {
        r := InsertShared(e, pp, pn, perm);
      }
    }

    /** The directory entry is present, and the kernel's. */
    method InsertShared(e: nat, pp: nat, pn: nat, perm: Flags) returns (r: Above)
      requires Valid() && e in dirs && e != KERN && pp < pages.Length && SharedDir(Pdx(pn))
      requires Pde(M(), e, Pdx(pn)).Present()
      modifies this, pages, phys
      ensures dirs == old(dirs) && r != Full
      ensures r == Panicked <==> old(PteOf(M(), e, pn)).frame >= pages.Length
      ensures r != Placed ==> Valid() && M() == old(M()) && book == old(book)
      ensures r == Placed ==> PlacedAbove(old(M()), M(), e, pn, Entry(pp, perm + {P}))
      ensures r == Placed && !(perm + {P} <= old(Pde(M(), e, Pdx(pn))).flags) ==> forall b: Book :: !TablesOk(M(), b)
      ensures r == Placed && MappedBeside(old(M()), e, pp) && old(PteOf(M(), e, pn)).frame != pp ==>
        NoBooks(M(), A())
    {
      hide TablesOk, LedgerOk, Pte, WriteEntry, PlacedAbove, NoBooks, MappedBeside, SameTables, RowsApart;
      Shape(M(), A(), book);
      ghost var m, a, b := M(), A(), book;
      var t := phys[dirs[e]][Pdx(pn)].frame;
      var x := Entry(pp, perm + {P});
      SharedTable(m, b, e, Pdx(pn));
      SharedInsert(m, b, e, pn, x);
      SharedPlaced(m, b, e, pn, x);
      var y := phys[t][Ptx(pn)];
      assert y == PteOf(M(), e, pn);
      if y.frame >= pages.Length {
        return Panicked;
      }
      if y.frame != pp {
        if P in y.flags {
          PageDecref(y.frame);
        }
        CountUp(pp);
      }
      StoreEntry(e, pn, t, x);
      if MappedBeside(m, e, pp) && y.frame != pp {
        PlacedCount(m, b, a, M(), A(), e, pn, x);
      }
      return Placed;
    }

    /** There is no table: a page becomes one. */
    method InsertLone(e: nat, pp: nat, pn: nat, perm: Flags) returns (r: Above)
      requires Valid() && e in dirs && e != KERN && pp < pages.Length && SharedDir(Pdx(pn))
      requires !Pde(M(), e, Pdx(pn)).Present()
      modifies this, pages, phys
      ensures dirs == old(dirs) && r != Panicked && (r == Full <==> old(book.free) == [])
      ensures r != Placed ==> Valid() && M() == old(M()) && book == old(book)
      ensures r == Placed ==>
        PlacedAbove(old(M()), M(), e, pn, Entry(pp, perm + {P})) && forall b: Book :: !TablesOk(M(), b)
      ensures r == Placed ==> NoBooks(M(), A())
    {
      hide TablesOk, LedgerOk, Pte, WriteEntry, EntrySet;
      ghost var m0 := M();
      var t := PageAlloc(true);
      if t == -1 {
        SameMem(m0, M());
        return Full;
      }
      ghost var m, b := M(), book;
      Shape(m, A(), b);
      var d, p, x := dirs[e], Pdx(pn), Entry(pp, perm + {P});
      LoneInsert(m, b, e, pn, t, x);
      LonePlaced(m0, m, WriteEntry(SetSlot(m, d, p, Entry(t, {P, W})), e, pn, x), e, pn, x);
      phys[d] := phys[d][p := Entry(t, {P, W})];
      pages[t] := Page(pages[t].link, 1);
      assert M() == SetSlot(m, d, p, Entry(t, {P, W}));
      var y := phys[t][Ptx(pn)];
      if y.frame != pp {
        CountUp(pp);
      }
      StoreEntry(e, pn, t, x);
      return Placed;
    }

    /** In the window at UVPT the directory is the table. */
    method InsertWindow(e: nat, pp: nat, pn: nat, perm: Flags) returns (r: Above)
      requires Valid() && e in dirs && e != KERN && pp < pages.Length && Pdx(pn) == UVPT_PDX
      modifies this, pages, phys
      ensures dirs == old(dirs) && r != Full
      ensures r == Panicked <==> old(PteOf(M(), e, pn)).frame >= pages.Length
      ensures r != Placed ==> Valid() && M() == old(M()) && book == old(book)
      ensures r == Placed ==> PlacedAbove(old(M()), M(), e, pn, Entry(pp, perm + {P}))
      ensures r == Placed && MappedBeside(old(M()), e, pp) ==> NoBooks(M(), A())
    {
      hide TablesOk, LedgerOk, WriteWindow, MappedBeside;
      Shape(M(), A(), book);
      ghost var m := M();
      var d, q, x := dirs[e], Ptx(pn), Entry(pp, perm + {P});
      WindowEntry(m, book, e, pn);
      WindowInsert(m, book, e, q, x);
      var y := phys[d][q];
      if y.frame >= pages.Length {
        return Panicked;
      }
      if y.frame != pp {
        if P in y.flags {
          PageDecref(y.frame);
        }
        CountUp(pp);
      }
      phys[d] := phys[d][q := x];
      phys[d] := phys[d][UVPT_PDX := Entry(phys[d][UVPT_PDX].frame, phys[d][UVPT_PDX].flags + x.flags)];
      WindowStored(m, M(), e, q, x);
      return Placed;
    }

    /** boot_map_region, for kern_pgdir before any environment exists: maps exactly its region. It
        stops early only when a table is missing and memory is full (the kernel would crash). */
    method BootMapRegion(pn: nat, n: nat, pa: nat, perm: Flags) returns (k: nat)
      requires Valid() && dirs.Keys == {KERN} && pn + n <= NPAGES
      requires forall q :: pn <= q < pn + n ==> Owns(KERN, Pdx(q))
      modifies this, pages, phys
      ensures Valid() && dirs == old(dirs) && book.held == old(book.held) && k <= n
      ensures k < n ==> book.free == []
      ensures |book.free| + Tables(pn, k) >= |old(book.free)| && ZeroRef() == old(ZeroRef())
      ensures Space(M(), KERN) == old(Space(M(), KERN)) + Region(pn, k, pa, perm)
      ensures forall p: nat :: KernelDirKept(old(M()), M(), p)
    {
      hide TablesOk, LedgerOk, Space, Region;
      k := 0;
      ghost var space := Space(M(), KERN);
      ghost var mapped := space;
      RegionGrows(space, pn, 0, pa, perm);
      while k < n
        invariant 0 <= k <= n && Valid() && dirs == old(dirs) && book.held == old(book.held)
        invariant Space(M(), KERN) == mapped && mapped == space + Region(pn, k, pa, perm)
        invariant |book.free| + Tables(pn, k) >= |old(book.free)| && ZeroRef() == old(ZeroRef())
        invariant k > 0 ==> Pde(M(), KERN, Pdx(pn + k - 1)).Present()
        invariant forall p: nat :: KernelDirKept(old(M()), M(), p)
      {
        ghost var m := M();
        var ok := MapKernelPage(pn + k, Entry(pa + k, perm + {P}));
        KernelDirTwice(old(M()), m, M());
        if !ok {
          return;
        }
        RegionGrows(space, pn, k, pa, perm);
        mapped := mapped[pn + k := Entry(pa + k, perm + {P})];
        k := k + 1;
      }
    }

    /** mem_init's and mem_init_mp's calls of boot_map_region, with the data of the kernel laid out as `x` says.
        The size at KERNBASE is written with 2^32, an exclusive or in C; 34 - KERNBASE has as many whole pages. */
    method MapKernel(x: Layout) returns (ok: bool)
      requires Valid() && dirs.Keys == {KERN} && Space(M(), KERN) == map[] && |x.stacks| <= NCPU
      modifies this, pages, phys
      ensures Valid() && dirs == old(dirs) && book.held == old(book.held) && ZeroRef() == old(ZeroRef())
      ensures ok ==> Space(M(), KERN) == KernelSpace(x)
      ensures ok && old(forall p: nat :: SharedDir(p) ==> !Pde(M(), KERN, p).Present()) ==> KernelReady(M(), x)
      ensures |book.free| + 82 >= |old(book.free)| && (|old(book.free)| > 82 ==> ok)
      ensures forall p: nat :: KernelDirKept(old(M()), M(), p)
    {
      hide TablesOk, LedgerOk, Space, Region, KernelDirKept, Stacks;
      ghost var m := M();
      ok := MapTwo(UPAGES, NPTENTRIES, x.pages, UENVS, NPTENTRIES, x.envs, {U});
      if !ok {
        return;
      }
      ghost var m1 := M();
      ok := MapTwo(KERNBASE, NPAGES - KERNBASE, 0, IOMEMBASE, NPAGES - IOMEMBASE, IOMEMBASE, {W});
      KernelDirTwice(m, m1, M());
      if !ok {
        return;
      }
      m1 := M();
      ok := MapStacks(x.stacks);
      KernelDirTwice(m, m1, M());
      KernelSum(x);
      if ok && forall p: nat :: SharedDir(p) ==> !Pde(m, KERN, p).Present() {
        BootReady(m, M(), x);
      }
    }

    method MapTwo(pn: nat, n: nat, pa: nat, pn2: nat, n2: nat, pa2: nat, perm: Flags) returns (ok: bool)
      requires Valid() && dirs.Keys == {KERN} && 0 < n && pn + n <= NPAGES && 0 < n2 && pn2 + n2 <= NPAGES
      requires forall q :: pn <= q < pn + n || pn2 <= q < pn2 + n2 ==> Owns(KERN, Pdx(q))
      modifies this, pages, phys
      ensures Valid() && dirs == old(dirs) && book.held == old(book.held) && ZeroRef() == old(ZeroRef())
      ensures ok ==> Space(M(), KERN) == old(Space(M(), KERN)) + Region(pn, n, pa, perm) + Region(pn2, n2, pa2, perm)
      ensures !ok ==> book.free == []
      ensures |book.free| + Tables(pn, n) + Tables(pn2, n2) >= |old(book.free)|
      ensures forall p: nat :: KernelDirKept(old(M()), M(), p)
    {
      hide TablesOk, LedgerOk, Space, Region, KernelDirKept;
      ok := MapAll(pn, n, pa, perm);
      if ok {
        ghost var m := M();
        ok := MapAll(pn2, n2, pa2, perm);
        KernelDirTwice(old(M()), m, M());
      }
    }

    /** boot_map_region, and whether it got to the end. */
    method MapAll(pn: nat, n: nat, pa: nat, perm: Flags) returns (ok: bool)
      requires Valid() && dirs.Keys == {KERN} && 0 < n && pn + n <= NPAGES
      requires forall q :: pn <= q < pn + n ==> Owns(KERN, Pdx(q))
      modifies this, pages, phys
      ensures Valid() && dirs == old(dirs) && book.held == old(book.held) && ZeroRef() == old(ZeroRef())
      ensures ok ==> Space(M(), KERN) == old(Space(M(), KERN)) + Region(pn, n, pa, perm)
      ensures !ok ==> book.free == []
      ensures |book.free| + Tables(pn, n) >= |old(book.free)|
      ensures forall p: nat :: KernelDirKept(old(M()), M(), p)
    {
      var k := BootMapRegion(pn, n, pa, perm);
      ok := k == n;
    }

    /** The loop of mem_init_mp over the CPUs. */
    method MapStacks(stacks: seq<nat>) returns (ok: bool)
      requires Valid() && dirs.Keys == {KERN} && |stacks| <= NCPU
      modifies this, pages, phys
      ensures Valid() && dirs == old(dirs) && book.held == old(book.held) && ZeroRef() == old(ZeroRef())
      ensures ok ==> Space(M(), KERN) == old(Space(M(), KERN)) + Stacks(stacks, |stacks|)
      ensures !ok ==> book.free == []
      ensures |book.free| + |stacks| >= |old(book.free)|
      ensures forall p: nat :: KernelDirKept(old(M()), M(), p)
    {
      hide TablesOk, LedgerOk, Space, Region;
      ghost var m0 := M();
      ghost var space := Space(m0, KERN);
      assert space + map[] == space;
      var i, top := 0, KSTACKTOP;
      while i < |stacks|
        invariant top == KSTACKTOP - i * (STACK + STACK)
        invariant 0 <= i <= |stacks| && Valid() && dirs == old(dirs) && book.held == old(book.held)
        invariant ZeroRef() == old(ZeroRef()) && |book.free| + i >= |old(book.free)|
        invariant Space(M(), KERN) == space + Stacks(stacks, i)
        invariant forall p: nat :: KernelDirKept(m0, M(), p)
      {
        ghost var m := M();
        var mapped := MapAll(top - STACK, STACK, stacks[i], {W});
        KernelDirTwice(m0, m, M());
        if !mapped {
          return false;
        }
        AddTwice(space, Stacks(stacks, i), Region(StackBase(i), STACK, stacks[i], {W}));
        i, top := i + 1, top - (STACK + STACK);
      }
      return true;
    }

    /** One turn of boot_map_region's loop. */
    method MapKernelPage(pn: nat, x: Entry) returns (ok: bool)
      requires Valid() && dirs.Keys == {KERN} && pn < NPAGES && Owns(KERN, Pdx(pn)) && x.Present()
      modifies this, pages, phys
      ensures Valid() && dirs == old(dirs) && book.held == old(book.held)
      ensures !ok ==> book.free == [] && book == old(book)
      ensures |book.free| + (if old(Pde(M(), KERN, Pdx(pn)).Present()) then 0 else 1) >= |old(book.free)|
      ensures ZeroRef() == old(ZeroRef()) && (ok ==> Pde(M(), KERN, Pdx(pn)).Present())
      ensures forall p: nat :: KernelDirKept(old(M()), M(), p)
      ensures Space(M(), KERN) == if ok then old(Space(M(), KERN))[pn := x] else old(Space(M(), KERN))
    {
      ghost var m0 := M();
      var t := PgdirWalk(KERN, pn, true);
      SpaceSame(m0, M(), KERN);
      if t == -1 {
        return false;
      }
      ok := true;
      ghost var m := M();
      KernelPteKeeps(m, book, Pdx(pn), Ptx(pn), x);
      phys[t] := phys[t][Ptx(pn) := x];
      assert M() == SetSlot(m, t, Ptx(pn), x);
      EntrySetSpaces(m, M(), KERN, pn, x);
    }

    /** env_setup_vm: gives `e` an address space that is empty below UTOP and kern_pgdir's above. */
    method EnvSetupVm(e: nat) returns (ok: bool)
      requires Valid() && e < KERN && e !in dirs
      modifies this, pages, phys
      ensures Valid() && (ok <==> old(book.free) != []) && ZeroRef() == old(ZeroRef())
      ensures !ok ==> book == old(book) && SameWalks(old(M()), M()) && SamePdes(old(M()), M())
      ensures ok ==> dirs == old(dirs)[e := old(book.free)[0]] && OthersKept(old(M()), M(), e)
      ensures ok ==> forall pn :: pn in Space(M(), e) ==> Pdx(pn) >= UTOP_PDX
      ensures ok ==> forall p: nat :: p < UTOP_PDX ==> !Pde(M(), e, p).Present()
      ensures ok ==> ContentsKept(old(M()), M(), dirs[e], -1)
      ensures ok ==> book == WithDir(old(book), e)
    {
      hide TablesOk, LedgerOk, Space;
      ghost var book0 := book;
      Shape(M(), A(), book);
      var p := PageAlloc(true);
      if p == -1 {
        return false;
      }
      Shape(M(), A(), book);
      ok := true;
      EnterDir(M(), A(), old(book), book, e, p);
      ghost var m := M();
      CountUp(p);
      FillDir(p);
      dirs := dirs[e := p];
      book := WithDir(book0, e);
      assert M() == Mem(m.phys[p := DirFrame(m, p)], m.dirs[e := p]);
      OthersThrough(old(M()), m, M(), e);
    }

    /** env_setup_vm's assignments to the entries of the new directory in frame `p`. */
    method FillDir(p: nat)
      requires KERN in dirs && dirs[KERN] < phys.Length && |phys[dirs[KERN]]| == NPDENTRIES
      requires p < phys.Length && phys[p] == ZERO_FRAME && p != dirs[KERN]
      modifies phys
      ensures M() == SetFrame(old(M()), p, DirFrame(old(M()), p))
    {
      var k := dirs[KERN];
      ghost var m := M();
      var row := phys[p];
      row := row[UPAGES_PDX := Entry(phys[k][UPAGES_PDX].frame, phys[k][UPAGES_PDX].flags + {U})];
      row := row[UTOP_PDX := Entry(phys[k][UTOP_PDX].frame, phys[k][UTOP_PDX].flags + {U})];
      row := row[KSTACK_PDX := phys[k][KSTACK_PDX]];
      var i := KERNBASE_PDX;
      while i < NPDENTRIES
        invariant KERNBASE_PDX <= i <= NPDENTRIES && |row| == NPDENTRIES
        invariant forall q :: 0 <= q < i && q != UVPT_PDX ==> row[q] == DirFrame(m, p)[q]
      {
        row := row[i := phys[k][i]];
        i := i + 1;
      }
      row := row[UVPT_PDX := Entry(p, {P, U})];
      phys[p] := row;
      assert row == DirFrame(m, p);
    }

    /** env_free's inner loop: unmaps every page of table (e, p). */
    method FreeTablePages(e: nat, p: nat)
      requires Valid() && e in dirs && e != KERN && p < UTOP_PDX && Pde(M(), e, p).Present()
      modifies this, pages, phys
      ensures Valid() && SamePdes(old(M()), M()) && OtherWalks(old(M()), M(), e, p)
      ensures forall t: nat :: t < NPTENTRIES ==> !Pte(M(), e, p, t).Present()
      ensures OnlyLost(old(book), book, e) && ZeroRef() == old(ZeroRef())
      ensures ContentsKept(old(M()), M(), old(Pde(M(), e, p)).frame, -1)
    {
      hide TablesOk, LedgerOk, Space;
      Shape(M(), A(), book);
      ghost var b0 := book;
      var t := 0;
      while t < NPTENTRIES
        invariant 0 <= t <= NPTENTRIES && Valid() && dirs == old(dirs) && ZeroRef() == old(ZeroRef())
        invariant SamePdes(old(M()), M()) && OtherWalks(old(M()), M(), e, p)
        invariant ContentsKept(old(M()), M(), old(Pde(M(), e, p)).frame, -1)
        invariant forall i: nat :: i < t ==> !Pte(M(), e, p, i).Present()
        invariant OnlyLost(b0, book, e)
      {
        ghost var b := book;
        var present := IsMapped(e, p * NPTENTRIES + t);
        if present {
          assert Pdx(p * NPTENTRIES + t) == p && Ptx(p * NPTENTRIES + t) == t;
          PageRemove(e, p * NPTENTRIES + t);
          OnlyLostTwice(b0, b, book, e);
        }
        t := t + 1;
      }
    }

    /** The test of PTE_P in a table that exists. */
    method IsMapped(e: nat, pn: nat) returns (present: bool)
      requires Valid() && e in dirs && e != KERN && Pdx(pn) < UTOP_PDX && Pde(M(), e, Pdx(pn)).Present()
      ensures present == PteOf(M(), e, pn).Present()
    {
      var pp, t := PageLookup(e, pn);
      present := P in phys[t][Ptx(pn)].flags;
    }

    /** env_free's outer loop body: empties and releases the table of (e, p). */
    method FreeTable(e: nat, p: nat)
      requires Valid() && e in dirs && e != KERN && p < UTOP_PDX && Pde(M(), e, p).Present()
      modifies this, pages, phys
      ensures Valid() && OtherWalks(old(M()), M(), e, p) && Pde(M(), e, p) == ZERO
      ensures OnlyLost(old(book), book, e) && ZeroRef() == old(ZeroRef())
      ensures ContentsKept(old(M()), M(), old(Pde(M(), e, p)).frame, dirs[e])
    {
      hide TablesOk, LedgerOk, Space;
      Shape(M(), A(), book);
      var d := dirs[e];
      var f := phys[d][p].frame;
      FreeTablePages(e, p);
      ghost var m, a, b := M(), A(), book;
      FreeTableKeeps(m, a, b, e, p);
      phys[d] := phys[d][p := ZERO];
      assert M() == SetSlot(m, d, p, ZERO);
      PageDecref(f);
      book := DropRef(book, TableRef(e, p), f);
      OnlyLostTwice(old(book), b, book, e);
    }

    /** env_free: `e` loses its address space; every count goes down by exactly the references `e`
        held, and the pages, tables and directory that only `e` used become free. */
    method EnvFree(e: nat)
      requires Valid() && e in dirs && e != KERN
      modifies this, pages, phys
      ensures Valid() && dirs == old(dirs) - {e} && book.held == old(book.held) && book.managed == old(book.managed)
      ensures OthersKept(old(M()), M(), e) && ZeroRef() == old(ZeroRef()) && PagesKept(old(M()), M(), e)
      ensures forall f :: f in book.managed ==> f < |old(book.holders)| && f < pages.Length
      ensures forall f :: f in book.managed ==> book.holders[f] == set r | r in old(book.holders[f]) && Owner(r) != e
      ensures forall f :: f in book.managed ==> pages[f].ref == |set r | r in old(book.holders[f]) && Owner(r) != e|
      ensures forall f :: f in book.free <==>
        f in book.managed && f !in book.held && forall r :: r in old(book.holders[f]) ==> Owner(r) == e
    {
      hide TablesOk, LedgerOk, Space;
      Shape(M(), A(), book);
      ghost var b0 := book;
      FreeUserPart(e);
      ghost var m, a, b := M(), A(), book;
      FreeDirKeeps(m, a, b, e);
      var d := dirs[e];
      dirs := dirs - {e};
      assert M() == Mem(m.phys, m.dirs - {e});
      PageDecref(d);
      book := DropRef(book, DirRef(e), d);
      OnlyLostTwice(b0, b, book, e);
      OthersKeptTwice(old(M()), m, M(), e);
      FreedBook(M(), A(), b0, book, e);
    }

    /** env_free's outer loop. */
    method FreeUserPart(e: nat)
      requires Valid() && e in dirs && e != KERN
      modifies this, pages, phys
      ensures Valid() && dirs == old(dirs) && OnlyLost(old(book), book, e)
      ensures forall p: nat :: p < UTOP_PDX ==> !Pde(M(), e, p).Present()
      ensures OthersKept(old(M()), M(), e) && ZeroRef() == old(ZeroRef()) && PagesKept(old(M()), M(), e)
    {
      hide TablesOk, LedgerOk, Space;
      ghost var b0 := book;
      var p := 0;
      while p < UTOP_PDX
        invariant 0 <= p <= UTOP_PDX && Valid() && dirs == old(dirs) && OnlyLost(b0, book, e)
        invariant ZeroRef() == old(ZeroRef())
        invariant forall i: nat :: i < p ==> !Pde(M(), e, i).Present()
        invariant OthersKept(old(M()), M(), e) && PagesKept(old(M()), M(), e)
        invariant forall i: nat :: p <= i < UTOP_PDX ==> Pde(M(), e, i) == old(Pde(M(), e, i))
      {
        ghost var m, b := M(), book;
        Shape(m, A(), b);
        if P in phys[dirs[e]][p].flags {
          FreeTable(e, p);
          OnlyLostTwice(b0, b, book, e);
          OtherWalksKept(m, M(), e, p);
          OthersKeptTwice(old(M()), m, M(), e);
        }
        p := p + 1;
      }
    }

    /** sys_page_alloc: a cleared page that nothing mapped becomes the page of `e` at `pn`. On failure
        nothing has changed, the page included. */
    method SysPageAlloc(e: nat, pn: nat, perm: Flags) returns (ok: bool)
      requires Valid() && e in dirs && e != KERN && Pdx(pn) < UTOP_PDX
      modifies this, pages, phys
      ensures Valid() && book.held == old(book.held) && book.managed == old(book.managed)
      ensures dirs == old(dirs)
      ensures ok <==> |old(book.free)| > if old(Pde(M(), e, Pdx(pn)).Present()) then 0 else 1
      ensures ZeroRef() == old(ZeroRef())
      ensures !ok ==> book == old(book) && SameWalks(old(M()), M()) && SamePdes(old(M()), M())
      ensures ok ==> Space(M(), e) == old(Space(M(), e))[pn := Entry(old(book.free)[0], perm + {P})]
      ensures ok ==>
        OthersKept(old(M()), M(), e) && old(book.free)[0] < phys.Length && phys[old(book.free)[0]] == ZERO_FRAME
      ensures ok ==> pages[old(book.free)[0]].ref == 1
      ensures ok ==> EntrySet(old(M()), M(), e, pn, Entry(old(book.free)[0], perm + {P}))
      ensures ok ==> TableMade(old(M()), M(), e, Pdx(pn), First(old(book.free)[1..]))
      ensures ok ==> forall i: nat :: i < phys.Length ==>
        phys[i] == old(phys[i]) || i in {old(book.free)[0], dirs[e], Pde(M(), e, Pdx(pn)).frame}
      ensures ok ==> forall p: nat :: Pde(M(), e, p).Present() <==> old(Pde(M(), e, p).Present()) || p == Pdx(pn)
      ensures ok ==> CanAlloc(old(M()), old(book), e, pn) && book == AllocBook(old(M()), old(book), e, pn)
    {
      hide TablesOk, LedgerOk, OthersKept;
      ghost var b0, m0 := book, M();
      FreePagesUnmapped(m0, A(), b0);
      Shape(m0, A(), b0);
      var pp := PageAlloc(true);
      if pp == -1 {
        return false;
      }
      ghost var m1 := M();
      Shape(m1, A(), book);
      FreeAreApart(A(), b0, book, m0, e, pn);
      ok := PageInsert(e, pp, pn, perm);
      if !ok {
        PageFree(pp);
        assert book.free == b0.free && book.held == b0.held;
      } else {
        OthersThrough(m0, m1, M(), e);
        SpaceSame(m0, m1, e);
        assert book.held == b0.held;
      }
    }

    /** sys_page_map: `dst` comes to map at `dstpn` the page that `src` maps at `srcpn`, unless that
        has no table, write access is asked for and missing, or a table cannot be had. A source page that is
        not mapped is refused exactly if it has no table or write access is asked for; otherwise `dst`
        comes to map page 0, and no books fit the tables any more. */
    method SysPageMap(src: nat, srcpn: nat, dst: nat, dstpn: nat, perm: Flags) returns (r: MapResult)
      requires Valid() && src in dirs && dst in dirs && src != KERN && dst != KERN
      requires Pdx(srcpn) < UTOP_PDX && Pdx(dstpn) < UTOP_PDX
      modifies this, pages, phys
      ensures dirs == old(dirs)
      ensures r == Invalid <==>
        !old(Pde(M(), src, Pdx(srcpn)).Present()) || (W in perm && W !in old(PteOf(M(), src, srcpn)).flags)
      ensures r == NoMemory <==> r != Invalid && old(book.free) == [] && !old(Pde(M(), dst, Pdx(dstpn)).Present())
      ensures !old(PteOf(M(), src, srcpn).Present()) ==>
        (r == Invalid <==> !old(Pde(M(), src, Pdx(srcpn)).Present()) || W in perm)
      ensures r != Mapped ==> Valid() && book == old(book) && SameWalks(old(M()), M())
      ensures r == Mapped ==>
        var f := old(PteOf(M(), src, srcpn)).frame;
        && f < pages.Length && (f != 0 <==> old(PteOf(M(), src, srcpn).Present()))
        && Space(M(), dst) == old(Space(M(), dst))[dstpn := Entry(f, perm + {P})] && OthersKept(old(M()), M(), dst)
        && M().phys[f] == old(M().phys)[f]
        && (Valid() <==> f != 0 && (old(PteOf(M(), dst, dstpn)).frame == f || old(pages[f].ref) + 1 < REF_LIMIT))
        && (if f != 0 then TablesOk(M(), book) else forall b: Book :: !TablesOk(M(), b))
        && (f != 0 || old(Pde(M(), dst, Pdx(dstpn)).Present()) ==>
              pages[f].ref ==
              if old(PteOf(M(), dst, dstpn)).frame == f then old(pages[f].ref) else (old(pages[f].ref) + 1) % REF_LIMIT)
        && EntrySet(old(M()), M(), dst, dstpn, Entry(f, perm + {P}))
        && (f != 0 ==> book.held == old(book.held) && book.managed == old(book.managed))
        && TableMade(old(M()), M(), dst, Pdx(dstpn), First(old(book.free)))
        && ContentsKept(old(M()), M(), Pde(M(), dst, Pdx(dstpn)).frame, dirs[dst])
        && (forall p: nat :: Pde(M(), dst, p).Present() <==> old(Pde(M(), dst, p).Present()) || p == Pdx(dstpn))
        && (f != 0 && !old(PteOf(M(), dst, dstpn).Present()) ==>
              |book.free| == |old(book.free)| - if old(Pde(M(), dst, Pdx(dstpn)).Present()) then 0 else 1)
    {
      hide TablesOk, LedgerOk, Space, OthersKept, EntrySet, Pte;
      PageZeroUnused(M(), book);
      Shape(M(), A(), book);
      var pp, t := PageLookup(src, srcpn);
      if pp == -1 {
        return Invalid;
      }
      if W in perm && W !in phys[t][Ptx(srcpn)].flags {
        return Invalid;
      }
      if P in phys[t][Ptx(srcpn)].flags {
        MappedIsData(M(), A(), book, src, srcpn);
      } else {
        AbsentIsZero(M(), book, src, srcpn);
      }
      var ok := PageInsert(dst, pp, dstpn, perm);
      r := if ok then Mapped else NoMemory;
    }

    /** user_mem_check: tests the entries of the pages it visits, from `va` in steps of PGSIZE, and reports the
        first address that fails. All arithmetic wraps at 2^32, and yet the loop always ends. */
    method UserMemCheck(e: nat, va: nat, len: nat, perm: Flags) returns (r: MemCheck)
      requires Valid() && e in dirs && va < WORDS && len < WORDS
      ensures r == AboveUlim <==> va > 0xef80_0000
      ensures r == Granted <==> va <= ULIM && forall k: nat :: Visits(va, len, k) ==>
        Grants(M(), e, AddrAt(va, k), perm)
      ensures r.Fault? ==> exists k: nat ::
        && Visits(va, len, k) && r.addr == AddrAt(va, k) && !Grants(M(), e, r.addr, perm)
        && forall j: nat :: j < k ==> Grants(M(), e, AddrAt(va, j), perm)
    {
      hide TablesOk, LedgerOk, Visits, AddrAt, Grants;
      if va > ULIM {
        return AboveUlim;
      }
      ghost var last := SomeEntryFails(M(), book, e, va, perm);
      var i := va;
      ghost var k: nat := 0;
      TurnVisits(va, len, 0);
      while i < (va + len) % WORDS
        invariant i == AddrAt(va, k) && i < WORDS && k <= last
        invariant k > 0 ==> Visits(va, len, k - 1)
        invariant forall j: nat :: j < k ==> Grants(M(), e, AddrAt(va, j), perm)
        decreases last - k
      {
        TurnVisits(va, len, k);
        var ok := TestEntry(e, i, perm);
        if !ok {
          return Fault(i);
        }
        i, k := (i + PGSIZE) % WORDS, k + 1;
      }
      TurnVisits(va, len, k);
      return Granted;
    }

    /** The test of one address. */
    method TestEntry(e: nat, addr: nat, perm: Flags) returns (ok: bool)
      requires Valid() && e in dirs && addr < WORDS
      ensures ok <==> Grants(M(), e, addr, perm)
    {
      var t := FindTable(e, addr / PGSIZE);
      if t == -1 {
        return false;
      }
      var x := ReadEntry(e, addr / PGSIZE, t);
      ok := perm <= x.flags;
    }

    /** *pte, for the entry of page `pn` in its table `t`; a table outside physical memory reads as 0. */
    method ReadEntry(e: nat, pn: nat, t: nat) returns (x: Entry)
      requires Valid() && e in dirs && pn < NPAGES
      requires Pde(M(), e, Pdx(pn)).Present() && t == Pde(M(), e, Pdx(pn)).frame
      ensures x == PteOf(M(), e, pn)
    {
      x := if t < phys.Length && Ptx(pn) < |phys[t]| then phys[t][Ptx(pn)] else ZERO;
    }

    /** An environment is created, allocates and unmaps pages in any order, and is freed. The other spaces, the
        counts and the set of free pages are then what they were, exactly if the program makes fewer
        stray unmaps than page 0 is counted (none counting as 65536): the stray unmap that reaches that
        number puts page 0 on the free list, and there the model stops. */
    method CreateUseFree(e: nat, script: seq<Use>) returns (kept: bool)
      requires Valid() && e < KERN && e !in dirs
      requires forall u :: u in script ==> Pdx(u.pn) < UTOP_PDX
      modifies this, pages, phys
      ensures kept <==>
        old(book.free) == [] || Strays(Sketch({}, {}, |old(book.free)| - 1), script) < StrayLimit(old(ZeroRef()))
      ensures kept ==> Valid() && dirs == old(dirs) && OthersKept(old(M()), M(), e)
      ensures kept ==> forall f :: f in book.managed ==> f < pages.Length && pages[f].ref == old(pages[f].ref)
      ensures kept ==> (set f | f in book.free) == (set f | f in old(book.free))
      ensures !kept ==> !Valid() && freeList == 0
    {
      hide TablesOk, LedgerOk, Space, OthersKept, Strays;
      ghost var m0, a0, b0 := M(), A(), book;
      Shape(m0, a0, b0);
      kept := EnvSetupVm(e);
      if !kept {
        OthersSame(m0, M(), e);
        kept := true;
      } else {
        ghost var m, sk := M(), Sketch({}, {}, |book.free|);
        FreshSketch(m, book, e, sk);
        kept := UseAndFree(e, script, sk);
        if !kept {
          return;
        }
        OthersKeptTwice(m0, m, M(), e);
      }
      CycleRestores(m0, a0, b0, M(), A(), book, e);
    }

    method UseAndFree(e: nat, script: seq<Use>, ghost sk: Sketch) returns (kept: bool)
      requires Valid() && e in dirs && e != KERN && Sketches(M(), book, e, sk)
      requires forall u :: u in script ==> Pdx(u.pn) < UTOP_PDX
      modifies this, pages, phys
      ensures kept <==> Strays(sk, script) < StrayLimit(old(ZeroRef()))
      ensures kept ==> Valid() && dirs == old(dirs) - {e} && OthersKept(old(M()), M(), e)
      ensures kept ==> book.held == old(book.held) && book.managed == old(book.managed)
      ensures !kept ==> !Valid() && freeList == 0
    {
      hide TablesOk, LedgerOk, Space, OthersKept, Strays, Sketches;
      ghost var m0 := M();
      kept := UseSpace(e, script, sk);
      if kept {
        ghost var m := M();
        EnvFree(e);
        OthersKeptTwice(m0, m, M(), e);
      }
    }

    /** The calls of the program, up to the one that puts page 0 on the free list, if any does. sys_page_unmap is
        page_remove. */
    method UseSpace(e: nat, script: seq<Use>, ghost sk: Sketch) returns (kept: bool)
      requires Valid() && e in dirs && e != KERN && Sketches(M(), book, e, sk)
      requires forall u :: u in script ==> Pdx(u.pn) < UTOP_PDX
      modifies this, pages, phys
      ensures kept <==> Strays(sk, script) < StrayLimit(old(ZeroRef()))
      ensures kept ==> Valid() && dirs == old(dirs) && OthersKept(old(M()), M(), e)
      ensures kept ==> book.held == old(book.held) && book.managed == old(book.managed)
      ensures !kept ==> !Valid() && freeList == 0
    {
      hide TablesOk, LedgerOk, Space, OthersKept, Sketches;
      var i := 0;
      ghost var now, strays: nat := sk, 0;
      OthersKeptSelf(M(), e);
      while i < |script|
        invariant 0 <= i <= |script| && Valid() && dirs == old(dirs) && OthersKept(old(M()), M(), e)
        invariant book.held == old(book.held) && book.managed == old(book.managed) && Sketches(M(), book, e, now)
        invariant strays + Strays(now, script[i..]) == Strays(sk, script) && strays < StrayLimit(old(ZeroRef()))
        invariant ZeroRef() == (old(ZeroRef()) + REF_LIMIT - strays) % REF_LIMIT
      {
        ghost var m := M();
        assert script[i] in script && script[i..][0] == script[i] && script[i..][1..] == script[i + 1..];
        strays := strays + if IsStray(now, script[i]) then 1 else 0;
        var ok := UseOnce(e, script[i], now);
        if !ok {
          return false;
        }
        OthersKeptTwice(old(M()), m, M(), e);
        now := AfterUse(now, script[i]);
        i := i + 1;
      }
      return true;
    }

    /** One call. */
    method UseOnce(e: nat, u: Use, ghost sk: Sketch) returns (kept: bool)
      requires Valid() && e in dirs && e != KERN && Pdx(u.pn) < UTOP_PDX && Sketches(M(), book, e, sk)
      modifies this, pages, phys
      ensures kept <==> !IsStray(sk, u) || old(ZeroRef()) != 1
      ensures kept ==>
        Valid() && dirs == old(dirs) && OthersKept(old(M()), M(), e) && Sketches(M(), book, e, AfterUse(sk, u))
      ensures book.held == old(book.held) && book.managed == old(book.managed)
      ensures kept ==>
        ZeroRef() == if IsStray(sk, u) then (old(ZeroRef()) + REF_LIMIT - 1) % REF_LIMIT else old(ZeroRef())
      ensures !kept ==> !Valid() && freeList == 0
    {
      hide TablesOk, LedgerOk, Space, OthersKept;
      ghost var m, a, b := M(), A(), book;
      match u
      case AllocAt(pn, perm) =>
        var ok := SysPageAlloc(e, pn, perm);
        if !ok {
          OthersSame(m, M(), e);
          SameSketch(m, M(), b, e, sk);
        } else {
          AllocSketch(m, a, b, M(), e, pn, perm, sk);
        }
        return true;
      case UnmapAt(pn) =>
        PageRemove(e, pn);
        UnmapSketch(m, b, M(), e, pn, sk);
        ZeroNotFree(A(), book);
        return freeList != 0;
    }

    /** check_page_free_list(1): low pages are moved to the front of the free list through pointers to
        the place where the next page of each kind goes. The list becomes its low pages followed by the
        others, each in the order it had; nothing is lost, repeated or made cyclic. */
    method LowPagesFirst(limit: nat)
      requires Valid() && book.free != []
      modifies this, pages
      ensures Valid() && M() == old(M())
      ensures book == Book(Part(old(book.free), limit, true) + Part(old(book.free), limit, false),
                           old(book.holders), old(book.held), old(book.managed))
    {
      hide TablesOk, PartedAt, Part, LedgerOk;
      ghost var a0, b0 := A(), book;
      var heads := new int[2](i => -1);
      var tp0, tp1 := PartList(heads, limit);
      EndPart(a0, pages[..], heads[..], b0, limit, tp0, tp1);
      WriteCell(heads, tp1, -1);
      WriteCell(heads, tp0, heads[1]);
      freeList := heads[0];
      book := Book(Part(b0.free, limit, true) + Part(b0.free, limit, false), b0.holders, b0.held, b0.managed);
      TablesIgnoreOrder(M(), b0, book.free);
    }

    /** The loop of check_page_free_list: two open lists, not yet ended. */
    method PartList(heads: array<int>, limit: nat) returns (tp0: Cell, tp1: Cell)
      requires heads.Length == 2 && LedgerOk(A(), book)
      modifies heads, pages
      ensures PartedAt(old(pages[..]), pages[..], heads[..], book.free, |book.free|, limit, tp0, tp1)
    {
      hide LedgerOk, PartedAt, Chain, StoredPages, StoredHeads;
      ghost var s, pages0 := book.free, pages[..];
      PartStart(A(), book, heads[..], limit);
      tp0, tp1 := Head(0), Head(1);
      var pp := freeList;
      ghost var k: nat := 0;
      while pp != -1
        invariant k <= |s| && pp == if k < |s| then s[k] else -1
        invariant PartedAt(pages0, pages[..], heads[..], s, k, limit, tp0, tp1)
        decreases |s| - k
      {
        StepPart(pages0, pages[..], heads[..], s, k, limit, tp0, tp1, freeList);
        var low := pp < limit;
        WriteCell(heads, if low then tp0 else tp1, pp);
        tp0, tp1 := if low then LinkOf(pp) else tp0, if low then tp1 else LinkOf(pp);
        pp := pages[pp].link;
        k := k + 1;
      }
    }

    method WriteCell(heads: array<int>, c: Cell, v: int)
      requires heads.Length == 2 && (if c.Head? then c.i < 2 else c.f < pages.Length)
      modifies heads, pages
      ensures heads[..] == StoredHeads(old(heads[..]), c, v) && pages[..] == StoredPages(old(pages[..]), c, v)
    {
      match c
      case Head(i) => heads[i] := v;
      case LinkOf(f) => pages[f] := Page(v, pages[f].ref);
    }
  }
}
