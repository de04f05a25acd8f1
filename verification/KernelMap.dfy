/** The part of the address space above UTOP that mem_init and mem_init_mp (kern/pmap.c) set up, and
    the checks that check_kern_pgdir makes of it. */
module KernelMap {
  import opened Mmu
  import opened PageTables
  import opened PmapSteps

  /** Page numbers of UENVS, UPAGES, KSTACKTOP, KERNBASE and IOMEMBASE. */
  const UENVS: nat := UTOP_PDX * NPTENTRIES
  const UPAGES: nat := UPAGES_PDX * NPTENTRIES
  const KSTACKTOP: nat := 959 * NPTENTRIES
  const KERNBASE: nat := KERNBASE_PDX * NPTENTRIES
  const IOMEMBASE: nat := 0xfe000

  const NCPU := 8
  /** KSTKSIZE in pages; the gap below each stack has the same size. */
  const STACK := 8

  /** The frames at which pages[], envs[] and the stack of each CPU begin. */
  datatype Layout = Layout(pages: nat, envs: nat, stacks: seq<nat>)

  /** The first page of the stack of CPU `i`. */
  function StackBase(i: nat): nat
    requires i < NCPU
  {
    KSTACKTOP - i * (STACK + STACK) - STACK
  }

  /** The stacks of the first `n` CPUs. */
  ghost function Stacks(stacks: seq<nat>, n: nat): map<nat, Entry>
    requires n <= |stacks| <= NCPU
  {
    if n == 0 then map[] else Stacks(stacks, n - 1) + Region(StackBase(n - 1), STACK, stacks[n - 1], {W})
  }

  /** The calls of boot_map_region, in order: the last one is mem_init_mp's for the memory-mapped devices, which
      takes the end of the region at KERNBASE away. */
  ghost function KernelSpace(x: Layout): map<nat, Entry>
    requires |x.stacks| <= NCPU
  {
    Region(UPAGES, NPTENTRIES, x.pages, {U}) + Region(UENVS, NPTENTRIES, x.envs, {U})
    + Region(KERNBASE, NPAGES - KERNBASE, 0, {W}) + Region(IOMEMBASE, NPAGES - IOMEMBASE, IOMEMBASE, {W})
    + Stacks(x.stacks, |x.stacks|)
  }

  lemma AddTwice(a: map<nat, Entry>, b: map<nat, Entry>, c: map<nat, Entry>)
    ensures a + b + c == a + (b + c)
  {
  }

  lemma KernelSum(x: Layout)
    requires |x.stacks| <= NCPU
    ensures KernelSpace(x) ==
            map[] + Region(UPAGES, NPTENTRIES, x.pages, {U}) + Region(UENVS, NPTENTRIES, x.envs, {U})
            + Region(KERNBASE, NPAGES - KERNBASE, 0, {W}) + Region(IOMEMBASE, NPAGES - IOMEMBASE, IOMEMBASE, {W})
            + Stacks(x.stacks, |x.stacks|)
  {
    hide Region, Stacks;
    var first := Region(UPAGES, NPTENTRIES, x.pages, {U});
    assert map[] + first == first;
  }

  lemma InRegion(q: nat, pn: nat, n: nat, pa: nat, perm: Flags)
    ensures q in Region(pn, n, pa, perm) <==> pn <= q < pn + n
    ensures pn <= q < pn + n ==> Region(pn, n, pa, perm)[q] == Entry(pa + q - pn, perm + {P})
  {
    assert RegionEntry(q, pn, pa, perm).flags == perm + {P};
  }

  /** The page is in the stack of CPU `i`. */
  predicate InStack(q: nat, i: nat)
    requires i < NCPU
  {
    StackBase(i) <= q < StackBase(i) + STACK
  }

  /** The page is in the gap below that stack. */
  predicate InGap(q: nat, i: nat)
    requires i < NCPU
  {
    StackBase(i) - STACK <= q < StackBase(i)
  }

  /** The gaps between the stacks stay unmapped, and no stack runs into another. */
  lemma {:induction false} StacksAre(stacks: seq<nat>, n: nat, q: nat)
    requires n <= |stacks| <= NCPU
    ensures q in Stacks(stacks, n) ==>
      KSTACKTOP - NCPU * (STACK + STACK) <= q < KSTACKTOP && exists i: nat :: i < n && InStack(q, i)
    ensures forall i: nat :: i < n && InStack(q, i) ==>
      q in Stacks(stacks, n) && Stacks(stacks, n)[q] == Entry(stacks[i] + q - StackBase(i), {W, P})
  {
    if n > 0 {
      StacksAre(stacks, n - 1, q);
      InRegion(q, StackBase(n - 1), STACK, stacks[n - 1], {W});
      if InStack(q, n - 1) {
        assert forall i: nat :: i < n - 1 ==> !InStack(q, i);
      }
    }
  }

  /** What each page is mapped to. */
  lemma MappedAt(x: Layout, q: nat)
    requires |x.stacks| <= NCPU
    ensures UPAGES <= q < UPAGES + NPTENTRIES ==>
      q in KernelSpace(x) && KernelSpace(x)[q] == Entry(x.pages + q - UPAGES, {U, P})
    ensures UENVS <= q < UENVS + NPTENTRIES ==>
      q in KernelSpace(x) && KernelSpace(x)[q] == Entry(x.envs + q - UENVS, {U, P})
    ensures KERNBASE <= q < IOMEMBASE ==> q in KernelSpace(x) && KernelSpace(x)[q] == Entry(q - KERNBASE, {W, P})
    ensures IOMEMBASE <= q < NPAGES ==> q in KernelSpace(x) && KernelSpace(x)[q] == Entry(q, {W, P})
    ensures KSTACKTOP - NPTENTRIES <= q < KSTACKTOP ==>
      && (q in KernelSpace(x) <==> q in Stacks(x.stacks, |x.stacks|))
      && (q in KernelSpace(x) ==> KernelSpace(x)[q] == Stacks(x.stacks, |x.stacks|)[q])
    ensures q < UENVS || KSTACKTOP <= q < KERNBASE || q >= NPAGES ==> q !in KernelSpace(x)
  {
    InRegion(q, UPAGES, NPTENTRIES, x.pages, {U});
    InRegion(q, UENVS, NPTENTRIES, x.envs, {U});
    InRegion(q, KERNBASE, NPAGES - KERNBASE, 0, {W});
    InRegion(q, IOMEMBASE, NPAGES - IOMEMBASE, IOMEMBASE, {W});
    StacksAre(x.stacks, |x.stacks|, q);
    hide Stacks, Region;
  }

  ghost predicate At(m: map<nat, Entry>, q: nat, frame: nat) {
    q in m && m[q].frame == frame
  }

  /** What check_kern_pgdir asserts of the translation of page `q`, for `npages` frames of memory. */
  ghost predicate CheckedAt(m: map<nat, Entry>, x: Layout, npages: nat, q: nat)
    requires |x.stacks| <= NCPU
  {
    && (UPAGES <= q < UPAGES + NPTENTRIES ==> At(m, q, x.pages + q - UPAGES))
    && (UENVS <= q < UENVS + NPTENTRIES ==> At(m, q, x.envs + q - UENVS))
    && (KERNBASE <= q < KERNBASE + npages ==> At(m, q, q - KERNBASE))
    && (IOMEMBASE <= q < NPAGES ==> At(m, q, q))
    && (forall c: nat :: c < |x.stacks| && InStack(q, c) ==> At(m, q, x.stacks[c] + q - StackBase(c)))
    && (forall c: nat :: c < NCPU && InGap(q, c) ==> q !in m)
  }

  ghost predicate Checked(m: map<nat, Entry>, x: Layout, npages: nat)
    requires |x.stacks| <= NCPU
  {
    forall q: nat :: CheckedAt(m, x, npages, q)
  }

  /** The checks succeed exactly if physical memory ends below the region of the devices. */
  lemma ChecksPassIff(x: Layout, npages: nat)
    requires |x.stacks| <= NCPU && npages <= NPAGES - KERNBASE
    ensures Checked(KernelSpace(x), x, npages) <==> npages <= IOMEMBASE - KERNBASE
  {
    hide KernelSpace, Stacks;
    if npages > IOMEMBASE - KERNBASE {
      MappedAt(x, IOMEMBASE);
      assert !CheckedAt(KernelSpace(x), x, npages, IOMEMBASE);
    } else {
      forall q: nat ensures CheckedAt(KernelSpace(x), x, npages, q) {
        MappedAt(x, q);
        StacksAre(x.stacks, |x.stacks|, q);
      }
    }
  }

  /** What the addresses of the kernel's memory layout stand for, byte by byte: envs[] and pages[], each in 4 MB, all of
      memory up to 224 MB, and the devices at their own addresses. */
  lemma KernelAddresses(x: Layout, i: nat)
    requires |x.stacks| <= NCPU
    ensures i < 0x40_0000 ==> At(KernelSpace(x), PageOfAddr(0xeec0_0000 + i), x.envs + i / PGSIZE)
    ensures i < 0x40_0000 ==> At(KernelSpace(x), PageOfAddr(0xef00_0000 + i), x.pages + i / PGSIZE)
    ensures i < 0xe00_0000 ==> At(KernelSpace(x), PageOfAddr(0xf000_0000 + i), i / PGSIZE)
    ensures i < 0x200_0000 ==> At(KernelSpace(x), PageOfAddr(0xfe00_0000 + i), (0xfe00_0000 + i) / PGSIZE)
  {
    MappedAt(x, PageOfAddr(0xeec0_0000 + i));
    MappedAt(x, PageOfAddr(0xef00_0000 + i));
    MappedAt(x, PageOfAddr(0xf000_0000 + i));
    MappedAt(x, PageOfAddr(0xfe00_0000 + i));
    hide KernelSpace, Stacks;
  }

  /** Where the kernel stack of a CPU begins to grow down when it traps, trap_init_percpu's ts_esp0: KSTACKTOP less
      the stacks, of 32 KB, and the gaps, as large, of the CPUs before it. */
  function Esp0(cpu: nat): int {
    0xefc0_0000 - cpu * (0x8000 + 0x8000)
  }

  /** The page of an address. */
  function PageOfAddr(va: int): nat
    requires 0 <= va
  {
    va / PGSIZE
  }

  /** There each CPU finds its own stack, all of it, and then a page that is not mapped. */
  lemma StackOfCpu(x: Layout, cpu: nat, i: nat)
    requires |x.stacks| <= NCPU && cpu < |x.stacks|
    ensures 0 < i <= 0x8000 ==> At(KernelSpace(x), PageOfAddr(Esp0(cpu) - i), x.stacks[cpu] + (0x8000 - i) / PGSIZE)
    ensures 0x8000 < i <= 0x1_0000 ==> PageOfAddr(Esp0(cpu) - i) !in KernelSpace(x)
  {
    hide KernelSpace, Stacks;
    if 0 < i <= 0x1_0000 {
      var q := PageOfAddr(Esp0(cpu) - i);
      PageBelow(cpu, i);
      hide PageOfAddr, Esp0, StackBase;
      MappedAt(x, q);
      StacksAre(x.stacks, |x.stacks|, q);
    }
  }

  lemma PageBelow(cpu: nat, i: nat)
    requires cpu < NCPU && 0 < i <= 0x1_0000
    ensures var q := PageOfAddr(Esp0(cpu) - i);
      && KSTACKTOP - NPTENTRIES <= q < KSTACKTOP
      && (i <= 0x8000 ==> InStack(q, cpu) && q - StackBase(cpu) == (0x8000 - i) / PGSIZE)
      && (i > 0x8000 ==> InGap(q, cpu) && forall c: nat :: c < NCPU ==> !InStack(q, c))
  {
  }

  /** The page of the address ~0, by which ipc_recv asks for no page. */
  const NO_ADDRESS: nat := NPAGES - 1

  /** Every address space sees what the kernel has mapped from KERNBASE on: memory, and then the devices at their
      physical addresses. */
  lemma KernelSeen(m: Mem, b: Book, e: nat, x: Layout, q: nat)
    requires TablesOk(m, b) && e in m.dirs && |x.stacks| <= NCPU && Space(m, KERN) == KernelSpace(x)
    requires KERNBASE <= q < NPAGES
    ensures PteOf(m, e, q) == Entry(if q < IOMEMBASE then q - KERNBASE else q, {W, P})
    ensures Pde(m, e, Pdx(q)).Present()
  {
    MappedAt(x, q);
    hide KernelSpace;
    InSpaceIs(m, KERN, q);
    assert Pdx(q) >= KERNBASE_PDX && KernelPde(m, Pdx(q)) == Pde(m, KERN, Pdx(q));
    assert e != KERN ==> Pde(m, e, Pdx(q)) == KernelPde(m, Pdx(q));
  }

  lemma InSpaceIs(m: Mem, e: nat, q: nat)
    requires q in Space(m, e)
    ensures Space(m, e)[q] == PteOf(m, e, q) && PteOf(m, e, q).Present() && Pde(m, e, Pdx(q)).Present()
  {
  }

  // ----- What user programs may do above UTOP -----

  /** kern_pgdir after mem_init: its map, through directory entries that are present and writable. */
  ghost predicate KernelReady(m: Mem, x: Layout) {
    && |x.stacks| <= NCPU && KERN in m.dirs && Space(m, KERN) == KernelSpace(x)
    && forall p: nat :: SharedDir(p) && Pde(m, KERN, p).Present() ==> Pde(m, KERN, p).flags == {P, W}
  }

  lemma BootReady(m: Mem, n: Mem, x: Layout)
    requires |x.stacks| <= NCPU && KERN in n.dirs && Space(n, KERN) == KernelSpace(x)
    requires forall p: nat :: SharedDir(p) ==> !Pde(m, KERN, p).Present()
    requires forall p: nat :: KernelDirKept(m, n, p)
    ensures KernelReady(n, x)
  {
    forall p: nat | SharedDir(p) && Pde(n, KERN, p).Present() ensures Pde(n, KERN, p).flags == {P, W} {
      assert KernelDirKept(m, n, p);
    }
  }

  /** Whatever is done to environments, it stays so. */
  lemma ReadyKept(m: Mem, n: Mem, e: nat, x: Layout)
    requires KernelReady(m, x) && OthersKept(m, n, e) && e != KERN
    ensures KernelReady(n, x)
  {
    assert KERN in m.dirs - {e} && KERN in n.dirs - {e};
    assert Space(n, KERN) == Space(m, KERN);
  }

  /** From UTOP on, the window at UVPT aside, every environment maps what the kernel maps, and nothing else: it may read
      envs[] and pages[], and no user access is granted to the stacks, to memory and to the devices. */
  lemma RightsAbove(m: Mem, b: Book, e: nat, x: Layout, q: nat)
    requires TablesOk(m, b) && KernelReady(m, x) && e in m.dirs && e != KERN
    requires UTOP_PDX <= Pdx(q) && Pdx(q) != UVPT_PDX && q < NPAGES
    ensures PteOf(m, e, q).Present() <==> q in KernelSpace(x)
    ensures q in KernelSpace(x) ==> PteOf(m, e, q) == KernelSpace(x)[q]
    ensures AccessRights(m, e, q) ==
            if q !in KernelSpace(x) then {} else if q < UVPT_PDX * NPTENTRIES then {P, U} else {P, W}
    ensures UENVS <= q < UPAGES + NPTENTRIES ==> q in KernelSpace(x)
  {
    hide TablesOk, KernelSpace, Stacks, Space;
    KernelFlags(x, q);
    EntryIs(m, q);
    SeesKernels(m, b, e, Pdx(q));
    if q in KernelSpace(x) {
      assert PteOf(m, e, q) == PteOf(m, KERN, q);
      assert {P, W} * {W, P} == {P, W} && {P, W, U} * {U, P} == {P, U};
    }
  }

  /** The kernel's entries for its data are readable by users, and all others writable and its own. */
  lemma KernelFlags(x: Layout, q: nat)
    requires |x.stacks| <= NCPU && UTOP_PDX <= Pdx(q) && Pdx(q) != UVPT_PDX && q < NPAGES
    ensures q in KernelSpace(x) ==>
      KernelSpace(x)[q].flags == (if q < UVPT_PDX * NPTENTRIES then {U, P} else {W, P}) && Pdx(q) != 959
    ensures UENVS <= q < UPAGES + NPTENTRIES ==> q in KernelSpace(x)
  {
    MappedAt(x, q);
    StacksAre(x.stacks, |x.stacks|, q);
    hide KernelSpace, Stacks;
  }

  /** A page of a flat map, and a page that is in none. */
  lemma EntryIs(m: Mem, q: nat)
    requires q < NPAGES && Pdx(q) != UVPT_PDX
    ensures q in Space(m, KERN) <==> PteOf(m, KERN, q).Present()
    ensures q in Space(m, KERN) ==> Space(m, KERN)[q] == PteOf(m, KERN, q) && Pde(m, KERN, Pdx(q)).Present()
  {
  }

  /** An environment's directory entry of the kernel part is kern_pgdir's, with user access added for UENVS and UPAGES;
      in slot 959 it has none. */
  lemma SeesKernels(m: Mem, b: Book, e: nat, p: nat)
    requires TablesOk(m, b) && e in m.dirs && e != KERN && SharedDir(p)
    ensures p < UVPT_PDX ==> Pde(m, e, p) == Entry(Pde(m, KERN, p).frame, Pde(m, KERN, p).flags + {U})
    ensures p > UVPT_PDX && p != 959 ==> Pde(m, e, p) == Pde(m, KERN, p)
    ensures p == 959 ==> Pde(m, e, p) == ZERO
  {
    assert Pde(m, e, p) == KernelPde(m, p);
  }
}
