/** Programs that reach, from boot on, the calls after which the books of Pmap no longer fit. */
module PmapRuns {
  import opened Mmu
  import opened PageTables
  import opened PmapSteps
  import opened KernelMap
  import opened Pmap

  /** A falling list that holds every number of [lo, hi) is at least as long. */
  lemma {:induction false} AtLeast(free: seq<nat>, lo: nat, hi: nat)
    requires lo <= hi && forall f: nat :: lo <= f < hi ==> f in free
    requires forall i, j :: 0 <= i < j < |free| ==> free[j] < free[i]
    ensures |free| >= hi - lo
    decreases hi
  {
    if lo < hi {
      var top: nat := hi - 1;
      assert top in free;
      var i: nat :| i < |free| && free[i] == top;
      var rest := free[i + 1..];
      forall f: nat | lo <= f < top ensures f in rest {
        assert f in free;
        var j: nat :| j < |free| && free[j] == f;
        assert j > i && rest[j - i - 1] == f;
      }
      AtLeast(rest, lo, top);
    }
  }

  /** The frames that i386_detect_memory can report end here, and the runs below have enough of them. */
  const MOST := 0x40ff
  const LEAST := 0x400

  /** Where boot_alloc has put pages[] and envs[], right after kern_pgdir in frame 0x180, and the kernel its stacks. */
  const LAYOUT: Layout := Layout(0x181, 0x1a2, seq(NCPU, i => 0x110 + STACK * i))

  /** A machine with `frames` frames after mem_init. */
  method Booted(frames: nat) returns (mem: PhysMem)
    requires LEAST <= frames <= MOST
    ensures fresh(mem) && fresh(mem.pages) && fresh(mem.phys) && mem.Valid() && mem.dirs == map[KERN := 0x180]
    ensures mem.pages.Length == frames && mem.ZeroRef() == 0 && |mem.book.free| >= 400
    ensures KernelReady(mem.M(), LAYOUT)
  {
    mem := Paged(frames);
    hide TablesOk, LedgerOk, Space, KernelSpace, KernelReady;
    var ok := mem.MapKernel(LAYOUT);
  }

  /** The same after page_init. */
  method Paged(frames: nat) returns (mem: PhysMem)
    requires LEAST <= frames <= MOST
    ensures fresh(mem) && fresh(mem.pages) && fresh(mem.phys) && mem.Valid() && mem.dirs == map[KERN := 0x180]
    ensures mem.pages.Length == frames && mem.ZeroRef() == 0 && |mem.book.free| >= 482
    ensures Space(mem.M(), KERN) == map[]
    ensures forall p: nat :: SharedDir(p) ==> !Pde(mem.M(), KERN, p).Present()
  {
    mem := new PhysMem(seq(frames, i => ZERO_FRAME), seq(frames, i => Page(-1, 0)), 0x180);
    mem.PageInit(0x180, 0x1c2);
    assert forall f: nat :: 0x1c2 <= f < frames ==> Allocatable(f, 0x1c2);
    AtLeast(mem.book.free, 0x1c2, frames);
    assert forall p: nat :: p != UVPT_PDX ==> Pde(mem.M(), KERN, p) == ZERO;
    hide TablesOk, LedgerOk;
  }

  /** The same with environment 0, which has one page, at 0x800. */
  method OnePage() returns (mem: PhysMem, f: nat)
    ensures fresh(mem) && fresh(mem.pages) && fresh(mem.phys) && mem.Valid() && 0 in mem.dirs && |mem.book.free| >= 397
    ensures PteOf(mem.M(), 0, 0x800) == Entry(f, {P, U, W}) && 0 < f < mem.pages.Length && mem.pages[f].ref == 1
    ensures forall pn: nat :: Pdx(pn) < UTOP_PDX && pn != 0x800 ==> !PteOf(mem.M(), 0, pn).Present()
    ensures Pde(mem.M(), 0, 2).Present()
  {
    hide TablesOk, LedgerOk, Space, Pte, OthersKept;
    mem := Booted(0x4000);
    var made := mem.EnvSetupVm(0);
    ghost var m, a, b := mem.M(), mem.A(), mem.book;
    FreshSketch(m, b, 0, Sketch({}, {}, |b.free|));
    FreeHasNoHolder(m, a, b, 0);
    HeadOfFree(a, b);
    Shape(m, a, b);
    f := mem.freeList;
    var mapped := mem.SysPageAlloc(0, 0x800, {U, W});
    AllocSketch(m, a, b, mem.M(), 0, 0x800, {U, W}, Sketch({}, {}, |b.free|));
  }

  lemma HeadOfFree(a: Ledger, b: Book)
    requires LedgerOk(a, b) && b.free != []
    ensures 0 < a.freeList == b.free[0]
  {
    assert b.free[0] in b.free;
  }

  /** A program that shares a page it does not have: sys_page_map of unmapped page 0x801 succeeds, because
      its table exists, and maps page 0 of physical memory, which nobody allocated. */
  method MapsPageZero() returns (mem: PhysMem, r: MapResult)
    ensures r == Mapped && 0x801 !in Space(mem.M(), 0)
    ensures 0x802 in Space(mem.M(), 0) && Space(mem.M(), 0)[0x802] == Entry(0, {P, U})
    ensures forall b: Book :: !TablesOk(mem.M(), b)
  {
    hide TablesOk, LedgerOk, Space, Pte, OthersKept;
    var f;
    mem, f := OnePage();
    assert Pdx(0x801) == Pdx(0x802) == 2;
    InSpace(mem.M(), 0, 0x801);
    r := mem.SysPageMap(0, 0x801, 0, 0x802, {U});
  }

  lemma {:induction false} ManyStrays(sk: Sketch, u: Use, n: nat)
    requires IsStray(sk, u)
    ensures Strays(sk, seq(n, i => u)) == n
  {
    if n > 0 {
      assert seq(n, i => u)[1..] == seq(n - 1, i => u);
      ManyStrays(sk, u, n - 1);
    }
  }

  /** A program that allocates one page and then unmaps another, which it does not have, `n` times: the cycle
      restores counts and free pages exactly if `n` is below 65536, and the next such call puts page 0 on the
      free list. */
  method StrayUnmaps(n: nat) returns (mem: PhysMem, kept: bool)
    ensures kept <==> n < 0x1_0000
    ensures !kept ==> !mem.Valid() && mem.freeList == 0
  {
    hide TablesOk, LedgerOk, OthersKept, Strays;
    mem := Booted(0x4000);
    var unmaps: seq<Use> := seq(n, i => UnmapAt(0x801));
    var script := [AllocAt(0x800, {U, W})] + unmaps;
    ghost var sk := Sketch({}, {}, |mem.book.free| - 1);
    StraysFirst(sk, AllocAt(0x800, {U, W}), unmaps);
    ManyStrays(AfterUse(sk, AllocAt(0x800, {U, W})), UnmapAt(0x801), n);
    kept := mem.CreateUseFree(0, script);
  }

  lemma StraysFirst(sk: Sketch, u: Use, rest: seq<Use>)
    ensures Strays(sk, [u] + rest) == (if IsStray(sk, u) then 1 else 0) + Strays(AfterUse(sk, u), rest)
  {
    assert ([u] + rest)[1..] == rest;
  }

  /** A program that maps its one page 65536 times: the last time its count, 16 bits wide, goes from 65535 to 0. */
  method CountWraps() returns (mem: PhysMem, f: nat, r: MapResult)
    ensures r == Mapped && f < mem.pages.Length && mem.pages[f].ref == 0 && !mem.Valid()
    ensures PteOf(mem.M(), 0, 0x800).Present() && PteOf(mem.M(), 0, 0x800).frame == f
  {
    hide TablesOk, LedgerOk, Space, Pte, OthersKept;
    mem, f := OnePage();
    var n := 1;
    while n < 0xffff
      invariant 1 <= n <= 0xffff && Shared(mem, f, n)
      invariant fresh(mem) && fresh(mem.pages) && fresh(mem.phys)
    {
      r := ShareOnce(mem, f, n);
      n := n + 1;
    }
    r := ShareOnce(mem, f, n);
  }

  /** Environment 0 maps frame `f` at the `n` pages from 0x800 on, and nothing after them. */
  ghost predicate Shared(mem: PhysMem, f: nat, n: nat)
    reads mem, mem.pages, mem.phys
  {
    && mem.Valid() && 0 in mem.dirs && 0 < f < mem.pages.Length && mem.pages[f].ref == n && 0 < n
    && PteOf(mem.M(), 0, 0x800).Present() && PteOf(mem.M(), 0, 0x800).frame == f
    && (forall pn: nat :: 0x800 + n <= pn && Pdx(pn) < UTOP_PDX ==> !PteOf(mem.M(), 0, pn).Present())
    && Pde(mem.M(), 0, 2 + (n - 1) / NPTENTRIES).Present() && |mem.book.free| + (n - 1) / NPTENTRIES >= 397
  }

  /** sys_page_map to the next page. */
  method ShareOnce(mem: PhysMem, f: nat, n: nat) returns (r: MapResult)
    requires Shared(mem, f, n) && n <= 0xffff
    modifies mem, mem.pages, mem.phys
    ensures r == Mapped && f < mem.pages.Length && mem.pages[f].ref == (n + 1) % 0x1_0000
    ensures PteOf(mem.M(), 0, 0x800).Present() && PteOf(mem.M(), 0, 0x800).frame == f
    ensures if n < 0xffff then Shared(mem, f, n + 1) else !mem.Valid()
  {
    hide TablesOk, LedgerOk, Space, Pte, OthersKept;
    var pn := 0x800 + n;
    assert Pdx(0x800) == 2 && Pdx(pn) == 2 + n / NPTENTRIES < UTOP_PDX;
    AbsentIsZero(mem.M(), mem.book, 0, pn);
    TableOf(mem.M(), 0, 0x800);
    r := mem.SysPageMap(0, 0x800, 0, pn, {U});
  }

  /** Environment 1, which has no page, and environment 0, which has one, at 0x800. */
  method TwoEnvs(frames: nat) returns (mem: PhysMem, f: nat)
    requires LEAST <= frames <= MOST
    ensures fresh(mem) && fresh(mem.pages) && fresh(mem.phys) && mem.Valid() && mem.dirs.Keys == {KERN, 0, 1}
    ensures PteOf(mem.M(), 0, 0x800) == Entry(f, {P, U, W}) && 0 < f < mem.pages.Length == frames
    ensures KernelReady(mem.M(), LAYOUT)
    ensures forall e, q: nat :: e in mem.dirs && e != KERN && UENVS <= q < UPAGES + NPTENTRIES ==>
      AccessRights(mem.M(), e, q) == {P, U}
    ensures forall e, q: nat :: e in mem.dirs && e != KERN && UPAGES + 2 * NPTENTRIES <= q < NPAGES ==>
      U !in AccessRights(mem.M(), e, q)
  {
    hide TablesOk, LedgerOk, Space, Pte, KernelSpace, KernelReady, OthersKept, AccessRights;
    mem := Booted(frames);
    ghost var m := mem.M();
    var ok := mem.EnvSetupVm(1);
    ReadyKept(m, mem.M(), 1, LAYOUT);
    m := mem.M();
    ok := mem.EnvSetupVm(0);
    ReadyKept(m, mem.M(), 0, LAYOUT);
    m := mem.M();
    Shape(m, mem.A(), mem.book);
    HeadOfFree(mem.A(), mem.book);
    f := mem.freeList;
    ok := mem.SysPageAlloc(0, 0x800, {U, W});
    ReadyKept(m, mem.M(), 0, LAYOUT);
    forall e, q: nat | e in mem.dirs && e != KERN && UENVS <= q < NPAGES && Pdx(q) != UVPT_PDX
      ensures if q < UVPT_PDX * NPTENTRIES then AccessRights(mem.M(), e, q) == {P, U}
              else U !in AccessRights(mem.M(), e, q)
    {
      RightsAbove(mem.M(), mem.book, e, LAYOUT, q);
    }
  }

  /** Environment 0 sends its page to environment 1, which has asked for no page by the address ~0 of ipc_recv: the
      kernel's entry there is for the devices, and page_insert panics. */
  method SendsToNoAddress(frames: nat) returns (mem: PhysMem, r: Above)
    requires LEAST <= frames <= MOST
    ensures r == Panicked
  {
    hide TablesOk, LedgerOk, Space, Pte, KernelSpace, PlacedAbove, NoBooks;
    var f;
    mem, f := TwoEnvs(frames);
    KernelSeen(mem.M(), mem.book, 1, LAYOUT, NO_ADDRESS);
    r := mem.InsertAbove(1, f, NO_ADDRESS, {U});
  }

  /** It sends its page to environment 1 at KERNBASE, which sys_ipc_recv accepts and where memory begins: every address
      space shows the page to user programs there, the kernel's too, and no books fit any more. */
  method SendsToKernbase(frames: nat) returns (mem: PhysMem, f: nat, r: Above)
    requires LEAST <= frames <= MOST
    ensures r == Placed && PteOf(mem.M(), 0, 0x800) == Entry(f, {P, U, W})
    ensures mem.dirs.Keys == {KERN, 0, 1}
    ensures forall e :: e in mem.dirs ==> PteOf(mem.M(), e, KERNBASE) == Entry(f, {P, U})
    ensures NoBooks(mem.M(), mem.A())
  {
    hide TablesOk, LedgerOk, Space, Pte, KernelSpace, NoBooks;
    mem, f := TwoEnvs(frames);
    KernelSeen(mem.M(), mem.book, 1, LAYOUT, KERNBASE);
    MappedHere(mem.M(), 0, 0x800, 1);
    r := mem.InsertAbove(1, f, KERNBASE, {U});
    assert Pdx(KERNBASE) == KERNBASE_PDX && Ptx(KERNBASE) == 0;
  }
}
