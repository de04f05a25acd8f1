# JOS lab 4 in Dafny

A model of the hard parts of the JOS kernel and its user library (the lab4 tree), with proofs.
`dafny verify dfyconfig.toml` checks everything. No file depends on another project.

## What is modelled

| files | what |
|---|---|
| `Lists.dfy` | linked lists that run through the slots of an array |
| `Mmu.dfy`, `PageTables.dfy` | entries and flag bits; physical memory holding two-level page tables; the books of who refers to which frame; what any single table or count update does to them |
| `PmapSteps.dfy`, `Pmap.dfy`, `FreeListParts.dfy` | what each memory operation does, on values, and `class PhysMem`: the page allocator, page tables and the building and tearing down of address spaces, updated in place in arrays of pages and frames; the in-place partition of the free list |
| `KernelMap.dfy` | the mappings above UTOP that mem_init makes, and the checks of check_kern_pgdir |
| `PmapRuns.dfy` | programs that reach, from boot on, the calls after which the books of `PhysMem` no longer fit |
| `CowFork.dfy`, `DumbFork.dfy` | copy-on-write fork as a step machine over any number of environments, and the eager fork it refines; `class Machine` runs the eager fork byte by byte |
| `CowRights.dfy` | the permission bits of pages under copy-on-write fork, over its runs |
| `CowPages.dfy` | the system calls of copy-on-write fork on the two-level tables of `PhysMem` |
| `Envs.dfy`, `Sched.dfy`, `Kernel.dfy` | the environment table, ids and the environment calls; `class EnvTable` makes them on `envs[]`, the links of the free list and the per-CPU variables, with the loops of `env_init` and `sched_yield` |
| `MultiCpu.dfy`, `Messages.dfy`, `Fairness.dfy` | CPUs under the big kernel lock as a step machine built from those calls; IPC and waiting times over its runs |
| `Reached.dfy`, `Starved.dfy` | concrete runs of that machine that reach its unsafe calls and the harm these do, and that starve an environment |
| `Sieve.dfy` | the prime sieve as a chain of processes |
| `Spinlock.dfy` | the spin lock, one memory access a step |
| `Stab.dfy` | `stab_binsearch` |
| `CInt.dfy`, `Numbers.dfy` | `printnum`, `%d` and `strtol` |

How the pieces relate:

- **Memory.** `Space(m, e)` is the flat map of an address space: page number to frame and permissions. It is defined by
  walking the two levels of the tables held in `Mem`. `PhysMem.Valid` says, among other things, that the set of holders booked for each
  frame is exactly the set of references found in the tables, that each `pp_ref` is the size of that set, and
  that the free list is a duplicate-free chain of exactly the managed frames that are neither held nor referred to. Every method states
  its effect on `Space` and on the books, so a run of calls keeps all of it.
- **Fork.** `CowFork.View` is what each environment reads. `CowFork.StepFollows` maps every step of the
  copy-on-write machine to one step of the eager machine, `CowRefinesEager` lifts it to runs, and `DumbFork` shows that the code of
  user/dumbfork.c performs that eager `CopyPage` step. `CowPages.Shows` says when the tables and frames of `PhysMem` hold a state of the copy-on-write
  machine, and `CowPages.Perform` carries out each of its calls with `SysPageAlloc`, `SysPageMap`, `EnvSetupVm` and `EnvFree`.
- **CPUs.** `MultiCpu.Apply` uses the functions of `Envs`. `Kernel.EnvTable` proves that the code, on arrays, computes those
  functions, and that its scan makes the choice `Sched.Chooses` describes, so the invariants proved over runs speak about the code.

Results where the code does less than its documentation says:

- `page_remove` and `page_lookup` do not test PTE_P. `PageRemove` keeps the books if and only if the page is mapped, or has no
  table, or the count of page 0 is not 1 (kern/pmap.c:615-658); otherwise it takes a reference from page 0. So an environment's
  life restores counts and free pages if and only if it makes fewer stray `sys_page_unmap` calls than page 0 is counted, none counting
  as 65536 (`CreateUseFree`); `StrayUnmaps` is a program that makes 65536 and puts page 0 on the free list.
- `sys_page_map` of a page that is not mapped is refused if and only if the page has no table or PTE_W is asked for (memory permitting).
  Otherwise page 0 of physical memory gets mapped, uncounted where the destination entry was absent, and no books fit the tables any
  more: `SysPageMap`, and `MapsPageZero` for a program that does it (kern/syscall.c:290-300, kern/pmap.c:579-588).
- `page_insert` keeps the books if and only if the page is not page 0, and was there already or its 16-bit count is not full.
  `CountWraps` is a program that maps one page 65536 times; its count is then 0 while it is mapped.
- `sys_ipc_try_send` gives the page to page_insert even if the receiver asked for none by an address at or above UTOP, where the
  comment promises that nothing is mapped and no error occurs (kern/syscall.c:360-361, 448). `InsertAbove` says what page_insert does there:
  KADDR panics if and only if the entry found names a frame outside physical memory; otherwise the page appears in the kernel's
  table, which all address spaces share, or in a table of its own, or in the directory itself, and for a page that another environment maps no books fit any more, unless it was there.
  With the address ~0 of `ipc_recv` (lib/ipc.c:30) the kernel always panics, because it has the devices mapped there
  (`SendToNoAddress`, and `SendsToNoAddress` for a run); `SendsToKernbase` is a run that gets the page mapped, with the address KERNBASE.
- mem_init's mappings pass the checks of check_kern_pgdir if and only if memory ends below 0xe000000 (`ChecksPassIff`): the region of the
  devices takes the end of the one at KERNBASE away (kern/pmap.c:233, 274).
- `user_mem_check` computes the end of the range in 32 bits and steps by PGSIZE from an unaligned address. `VisitsCover` gives the exact
  condition under which it tests every page of the range, `VisitsNothing` the one under which it tests nothing and approves,
  and `ApprovedUntested` an input. `AccessibleIff` says what its approval of a user range means for the hardware. The step wraps too, but the
  loop ends all the same: no address space has every page mapped (`SomeEntryFails`). It compares only the start with
  ULIM, and accepts a start equal to it.
- fork() gives its child a page if and only if the page was writable or copy-on-write when scanned; dumbfork copies read-only pages too.
- pgfault and duppage panic if and only if memory is exhausted (`NeverStuck`): duppage too may need memory, for a page table of the child.
- `sys_env_set_status` and a second `env_destroy` can break the invariant: `StatusSafeIff` and `DestroySafeIff` say when, and
  `UnsafeStatusReached` and `UnsafeDestroyReached` give runs of two CPUs that get there. What comes of it: `OneEnvOnTwoCpus`, two CPUs in user
  mode with the same environment, and `UserOnFreedDirectory`, a CPU in user mode on a page directory that has been freed.
- `sched_yield` called with curenv NULL starts again from slot 0: `StarvesForever` builds, for every number of calls, a run in which an
  environment is always ready and never chosen.
- `stab_binsearch` overshoots when both `addr` and `addr + 1` occur, and ends before its entry when `addr` is the last address, because
  addr++ wraps (`CorrectIff`); for the last address but one it can end between its entry and the next (`SearchSkips`); and when every entry of the type lies above `addr` it ends with left <= right although no entry
  contains `addr`, which its comment does not say: `EmptyIff` gives the exact meaning of left > right.
- `%d` puts the sign before blank padding, which `strtol` cannot read back (`SignedRoundTripIff`); `strtol` wraps at 32 bits (`RoundTrip`).

## Model

| member | source | states |
|---|---|---|
| Pmap.PhysMem.PageInit | lab4/kern/pmap.c:314-391 | from arbitrary memory, the free list holds exactly the pages in memory that are not page 0, not the boot code of the other CPUs at 0x7000, and not from 0xa0000 on below the first free one, each once, highest first, with count 0; the whole invariant holds |
| Pmap.PhysMem.PageAlloc | lab4/kern/pmap.c:403-424 | fails exactly if the free list is empty; else takes its first page, which nothing refers to, zeroed on request; all mappings and other contents stay |
| Pmap.PhysMem.PageFree | lab4/kern/pmap.c:431-437 | puts an unreferenced page that was handed out back at the front of the list |
| Pmap.PhysMem.PgdirWalk | lab4/kern/pmap.c:473-520 | finds the table of the page, or makes one if asked and memory is left; making one maps nothing anywhere and books one table reference |
| Pmap.PhysMem.PageLookup | lab4/kern/pmap.c:612-620 | the mapped page and its slot; NULL exactly if there is no table, page 0 on an absent entry of an existing table |
| Pmap.PhysMem.PageRemove | lab4/kern/pmap.c:638-658 | the flat map loses exactly that page, other spaces and all contents stay, its one reference is dropped; an absent entry in an existing table takes one from page 0 instead, in 16 bits; the invariant holds exactly if the page was mapped, or had no table, or page 0 has not count 1 |
| PmapSteps.StrayDecref | lab4/kern/pmap.c:444-448 | a reference dropped from unmanaged page 0 keeps the books exactly if its count is not 1 |
| PmapSteps.TakeOut | lab4/kern/pmap.c:638-658 | on values: clearing the entry and dropping a reference of the frame found there, both cases, and when it keeps the books |
| Pmap.PhysMem.PageInsert | lab4/kern/pmap.c:570-598 | fails, changing no mapping, exactly if a table is missing and memory is full; else the flat map changes at that page only, contents kept even when the same page is re-inserted, and the 16-bit count rises by one unless the page was there; the invariant holds exactly if the page is not page 0 and its count did not wrap; for page 0 no books fit afterwards |
| Pmap.PhysMem.InsertAbove | lab4/kern/pmap.c:570-598 | at every address from UTOP on: fails exactly if a table is missing and memory is full, and panics exactly if the entry found, present or not, names a frame outside physical memory, both changing nothing; else which walks find the page, all others staying; no books fit if a shared directory entry lacked a permission or was missing, or if another environment maps the page and it was not there already |
| PmapSteps.SharedInsert | lab4/kern/pmap.c:590-595 | the stores above UTOP reach every address space, and raised directory permissions set one space apart from the rest |
| PmapSteps.LoneInsert | lab4/kern/pmap.c:486-507 | behind a missing directory entry of the kernel part the page goes into a table of one environment, which no books fit |
| PmapSteps.WindowInsert | lab4/kern/pmap.c:579-595 | in the window at UVPT the page becomes a table of the directory, which no books fit while it is mapped elsewhere |
| PmapSteps.CountOff | lab4/kern/pmap.c:584 | where only entries of the kernel part change, a count that has changed fits no books |
| PmapSteps.InsertKeeps | lab4/kern/pmap.c:570-598 | the new entry, the raised directory flags and the new reference keep tables and books consistent |
| PmapSteps.ReinsertKeeps | lab4/kern/pmap.c:579-595 | re-inserting the page already there changes the permissions only and needs no count change |
| PageTables.RightsAreThePtes | lab4/kern/pmap.c:693-715 | in user space, for every set of permissions: the rights of both levels combined contain it exactly if the table entry does |
| PageTables.VptIsTheWalk | lab4/kern/env.c:229 | through the recursive entry, the address vpt[PGNUM(la)] denotes the very word that the two-level walk for la ends in, for every la with a table |
| PageTables.SpaceSet | lab4/kern/pmap.c:570-598 | changing one walked entry changes the flat map at exactly that page |
| PageTables.TableApart | lab4/kern/pmap.c:486-507 | a user table is no directory and no other entry's table, so writing it changes one space only |
| PageTables.SetPteEffect | lab4/kern/pmap.c:590-595 | one store into a table changes one walk of one address space and no directory entry |
| PageTables.AddTableKeeps | lab4/kern/pmap.c:486-507 | hanging a zeroed table into a directory keeps the tables and books consistent |
| PageTables.DropTableKeeps | lab4/kern/env.c:532-536 | taking out an empty table does too |
| PageTables.AddDirKeeps | lab4/kern/env.c:175-232 | a new directory with the kernel's entries and its recursive entry keeps the tables and books consistent |
| PageTables.PopKeeps | lab4/kern/pmap.c:403-424 | the ledger and the books after taking the first free page |
| PageTables.DropRefKeeps | lab4/kern/pmap.c:444-448 | dropping the last reference frees the frame, dropping another does not; the counts stay exact |
| Pmap.PhysMem.BootMapRegion | lab4/kern/pmap.c:533-543 | the kernel's flat map gains exactly the region, page by page, as far as memory for tables lasts, with at most one page spent for each table and new directory entries present and writable only |
| Pmap.PhysMem.MapKernel | lab4/kern/pmap.c:199-296 | with memory for the tables, the kernel's flat map is exactly its data, physical memory, the devices and the stacks of the CPUs |
| KernelMap.ChecksPassIff | lab4/kern/pmap.c:889-922 | that map passes all checks of translations, the gaps between the stacks included, exactly if memory ends below the region of the devices |
| KernelMap.KernelAddresses | lab4/kern/pmap.c:199-274 | byte by byte: 4 MB from 0xeec00000 are envs[], 4 MB from 0xef000000 pages[], from 0xf0000000 on memory up to 224 MB, from 0xfe000000 on the devices at their own addresses |
| KernelMap.StackOfCpu | lab4/kern/trap.c:169 | below the address at which a CPU starts its kernel stack it finds all 32 KB of its own stack, and below that 32 KB not mapped |
| KernelMap.KernelSeen | lab4/kern/env.c:215-226 | every environment sees from KERNBASE on what the kernel has mapped there: memory, and the devices at their physical addresses |
| KernelMap.RightsAbove | lab4/kern/env.c:175-232 | from UTOP on, every environment maps exactly what the kernel maps; the rights the hardware grants are reading by user programs for envs[] and pages[], and none to them for stacks, memory and devices |
| KernelMap.ReadyKept | lab4/kern/env.c:175-232 | no operation on an environment's address space changes that part |
| Pmap.PhysMem.UserMemCheck | lab4/kern/pmap.c:693-715 | for every range, in 32-bit arithmetic, the loop ends; it refuses exactly a start above ULIM, else succeeds exactly if every visited address grants the permission, or names the first that does not |
| PmapSteps.SomeEntryFails | lab4/kern/env.c:175-232 | in every address space some page of every full round of 2^20 addresses is not mapped |
| PmapSteps.VisitsCover | lab4/kern/pmap.c:693-715 | the visited addresses touch every page of a range exactly if the range ends before 2^32 and the offset of the start and of the length fit into one page |
| PmapSteps.VisitsNothing | lab4/kern/pmap.c:702-703 | nothing is tested exactly if the range is empty or ends at or beyond 2^32 |
| PmapSteps.ApprovedUntested | lab4/kern/syscall.c:19-30 | a range of nearly all memory, which meets the offset condition and is not tested at all |
| PmapSteps.AccessibleIff | lab4/kern/pmap.c:693-715 | the hardware grants the permission on every byte of a user range exactly if the loop finds no failing entry and, where the offsets do not fit into one page, the last page, which it leaves out, grants it too |
| Pmap.PhysMem.EnvSetupVm | lab4/kern/env.c:175-232 | a new space, empty below UTOP, with one reference on its directory; every other space stays |
| Pmap.PhysMem.EnvFree | lab4/kern/env.c:500-547 | every count falls by exactly the references of the environment; the free list is exactly the frames it alone used and those free before; other spaces stay |
| Pmap.PhysMem.SysPageAlloc | lab4/kern/syscall.c:193-234 | succeeds exactly if enough frames are left; maps a zeroed page with count 1 there and changes no other address; on failure gives the page back |
| Pmap.PhysMem.SysPageMap | lab4/kern/syscall.c:253-303 | for every source: what each error means, exactly; else maps at the destination only and counts the page once more; an unmapped source is refused exactly if it has no table or write access is asked for, and otherwise page 0 is mapped and no books fit the tables |
| PmapRuns.MapsPageZero | lab4/kern/syscall.c:290-300 | a program from boot on that maps page 0 by sharing a page it does not have |
| PmapRuns.CountWraps | lab4/kern/pmap.c:570-598 | a program from boot on that maps its page 65536 times: the count comes to 0 while the page is mapped |
| PmapRuns.StrayUnmaps | lab4/kern/syscall.c:313-333 | a program from boot on that makes n unmaps of a page it does not have: its life restores counts and free pages exactly if n is below 65536, and else page 0 comes to head the free list |
| PmapRuns.SendsToNoAddress | lab4/kern/syscall.c:448 | a run from boot on, for every size of memory that can be detected from 4 MB, in which a page is sent to an environment that asked for none by the address ~0: the kernel panics |
| PmapRuns.SendsToKernbase | lab4/kern/syscall.c:448 | a run in which it asked for one at KERNBASE: all address spaces, the kernel's too, map the page for user programs there, and no books fit |
| PmapSteps.PageZeroMapped | lab4/kern/pmap.c:579-590 | once page 0 is mapped, no books whatever satisfy the invariant of the tables |
| Pmap.PhysMem.CreateUseFree | lab4/kern/env.c:500-547 | creating a space, any sequence of allocations and unmaps in it, absent pages included, and freeing it restores every count and the set of free frames exactly if fewer stray unmaps are made than page 0 is counted, none standing for 65536 |
| Pmap.PhysMem.UseSpace | lab4/kern/syscall.c:313-333 | the calls in between: which of them are stray follows from the sequence alone, and the call that makes as many as page 0 is counted puts it on the free list |
| PmapSteps.AllocSketch | lab4/kern/syscall.c:193-234 | the pages and tables a program has, as its own calls predict them, are those in the tables after an allocation |
| PmapSteps.CycleRestores | lab4/kern/env.c:500-547 | if no other space has changed and the space is gone, neither have the counts and the free set |
| PmapSteps.CountsFollowTables | lab4/kern/pmap.c:444-448 | counts and free set are determined by the references in the tables |
| PmapSteps.FreePagesUnmapped | lab4/kern/pmap.c:403-424 | free pages have count 0, and nothing refers to a page that is free or handed out: it is not mapped, no table and no directory |
| Pmap.PhysMem.LowPagesFirst | lab4/kern/pmap.c:755-768 | the pointer-to-pointer pass makes the list its low pages then the others, each in its old order, and keeps the invariant |
| FreeListParts.StepPart | lab4/kern/pmap.c:760-764 | one turn of that pass keeps two open lists and the rest of the old one apart |
| FreeListParts.PartEnd | lab4/kern/pmap.c:765-767 | the last three stores end and join the lists without a cycle |
| FreeListParts.PartMembers | lab4/kern/pmap.c:755-768 | the two parts hold exactly the low and the other elements and repeat none |
| FreeListParts.PartOrder | lab4/kern/pmap.c:755-768 | two elements of one part come in the order they had |
| CowFork.StepFollows | lab4/lib/fork.c:18-108 | every step of copy-on-write fork, the end of an environment at any point included, is, on what all environments read, one enabled step of the eager system |
| CowFork.CowRefinesEager | lab4/lib/fork.c:18-212 | over all runs and interleavings, every running environment has the pages and bytes that eager copying would give it |
| CowFork.RunFromBoot | lab4/lib/fork.c:18-212 | every run from boot has an eager run beside it that starts with all the pages there are and holds in every state what each running environment has |
| CowFork.StepKeeps | lab4/lib/fork.c:18-212 | every step keeps the sharing invariant |
| CowFork.RunningSeesAll | lab4/lib/fork.c:173-204 | only pages of a child not yet running can be hidden from the comparison |
| CowFork.NeverStuck | lab4/lib/fork.c:18-108 | inside pgfault or fork the next step is possible exactly unless memory is exhausted (a frame or table for the copy in pgfault, a table of the child in duppage), and a panic is possible exactly then |
| CowFork.WritableIsPrivate | lab4/lib/fork.c:56-108 | a writable page is mapped nowhere else, but for the child in the window of duppage, at the same page and read-only |
| CowFork.DuppageSafe | lab4/lib/fork.c:83-108 | after the second mapping the child's frame is writable through no slot, whatever the parent did between the two |
| CowFork.ForkReturns | lab4/lib/fork.c:173-204 | when fork returns the child has the parent's pages up to the stack page at 0xeebfd000, and neither can write a page mapped elsewhere |
| CowFork.ForkCopiesPageIff | lab4/lib/fork.c:93-212 | a scanned page reaches the child exactly if its entry had PTE_W or PTE_COW then |
| CowRights.UserAlways | lab4/lib/fork.c:18-108 | over all runs every page ever mapped is present and for user programs, pgfault's scratch page included, and none is both writable and copy-on-write |
| CowRights.BitsKept | lab4/lib/fork.c:18-108 | no step takes a page away from its owner or changes a permission bit of it other than PTE_W and PTE_COW, but for a new page mapped there and the owner's end |
| CowRights.ForkPermissions | lab4/lib/fork.c:95 | when fork returns the child has each copied page with exactly the scanned permissions but for PTE_COW added and PTE_W removed, the parent with all other bits as scanned, and without PTE_W as long as the frame is shared |
| CowPages.Perform | lab4/lib/fork.c:18-212 | every call of pgfault and fork, sys_page_alloc, and the end of an environment, done by the kernel's operations on the two-level tables, leaves in them exactly the state that CowFork says, in frames the allocator gives; the books fit exactly if the count of a page to be shared was not full |
| CowPages.HardwareReadsEager | lab4/lib/fork.c:18-212 | over all runs: through both levels of the tables the hardware lets a running environment read exactly the pages, with the bytes, that eager copying would give it |
| CowPages.FreeIff | lab4/kern/pmap.c:403-424 | the frames that are free for CowFork are exactly those on the free list or just taken from it |
| CowPages.ExhaustedIff | lab4/lib/fork.c:58-68 | memory is exhausted for CowFork exactly if the next system call finds too few pages on the free list |
| CowPages.MapShows | lab4/kern/pmap.c:570-598 | one walk changed and a missing table made is the flat map, the tables and the frames of one environment changed as CowFork writes it |
| CowPages.ExitShows | lab4/kern/env.c:500-547 | env_free takes the environment out and leaves the others and what they read |
| CowPages.StoreShows | lab4/lib/fork.c:63 | a store to a mapped page keeps the tables and is the store that CowFork makes |
| CowPages.SomeState | lab4/kern/pmap.c:570-598 | any sound tables hold a state of CowFork |
| DumbFork.Machine.Duppage | lab4/user/dumbfork.c:26-38 | allocate, map at UTEMP, copy 4096 bytes, unmap: for all readers the eager CopyPage step, whatever UTEMP held, and nothing is left there |
| DumbFork.Machine.Dumbfork | lab4/user/dumbfork.c:41-79 | the child maps exactly the pages from 0x800000 to end and the stack, in frames of its own, and reads in each what the parent read there; the parent loses what it had at UTEMP, and nobody else sees a change |
| DumbFork.CopySeen | lab4/user/dumbfork.c:26-38 | a copy in an unused frame is seen by the child at that page and by nobody else |
| DumbFork.CopiesAreEqual | lab4/user/dumbfork.c:63-68 | after the eager copies the child reads in each page what the parent reads |
| Envs.NextIdIs | lab4/kern/env.c:256-260 | the id arithmetic, overflow included, goes through 2^19-1 generations and starts again |
| Envs.IdSound | lab4/inc/env.h:12-30 | ids are positive int32 values whose low bits are the slot |
| Envs.SameIdIff | lab4/kern/env.c:256-260 | two environments have the same id exactly if they used one slot a multiple of 2^19-1 allocations apart |
| Envs.HandleNames | lab4/kern/env.c:76-109 | a handle names its slot exactly while an environment lives there whose number differs by a multiple of the period; a stale one is refused for 2^19-2 reallocations |
| Envs.HandleChecked | lab4/kern/env.c:97-106 | with the permission test it does so exactly if the environment there is the caller or a child of the caller, too |
| Envs.MayIff | lab4/kern/env.c:76-109 | the slots that some id names under the test are exactly the caller's own and those of its children |
| Kernel.EnvTable.EnvInit | lab4/kern/env.c:118-141 | the list runs through all slots in order, each free with id 0 |
| Kernel.EnvTable.FindEnv | lab4/kern/env.c:76-109 | 0 is the current environment; any other id is answered by its slot exactly if one lives there with that id and, under the permission test, is the caller or has it as parent; the function HandleNames and HandleChecked are about |
| Kernel.EnvTable.EnvAlloc | lab4/kern/env.c:243-305 | takes the first free slot and sets its fields, or fails and changes nothing, with which error |
| Kernel.EnvTable.EnvDestroy | lab4/kern/env.c:555-571 | a target that another CPU runs becomes DYING and nothing else changes; any other is free, without directory, at the head of the free list, and the CPU loses it if it was its own; the step of the machine |
| Kernel.EnvTable.SysEnvDestroy | lab4/kern/syscall.c:52-66 | the error for a bad id, or the environment destroyed like that; when it is free the id is refused on every CPU |
| Kernel.EnvTable.EnvRun | lab4/kern/env.c:605-651 | the old environment becomes RUNNABLE only if it was RUNNING, the new one RUNNING and current, cr3 its directory |
| Kernel.EnvTable.PickNext | lab4/kern/sched.c:33-79 | the circular scan makes the choice that Chooses describes: the nearest ready slot, else the current one, else idle, monitor or panic |
| Kernel.EnvTable.SchedYield | lab4/kern/sched.c:33-79 | runs what Chooses describes, as env_run does, or changes nothing |
| Kernel.EnvTable.SysExofork | lab4/kern/syscall.c:80-106 | a child not runnable, with the caller as parent, or which error and no change |
| Kernel.EnvTable.SysEnvSetStatus | lab4/kern/syscall.c:116-143 | which error, or the new status and nothing else |
| Kernel.EnvTable.SysIpcTrySend | lab4/kern/syscall.c:380-476 | with or without a page, at any address of the receiver: which error, or the panic, exactly, and no change to environments or address spaces; else the receiver's fields set, receiving ended, the receiver RUNNABLE, and the page mapped, below UTOP at its address and nowhere else; then the books of memory fit exactly if the page is not page 0 and was there already or its count is not full; a mapped page sent to another environment above UTOP leaves no books that fit unless it was there |
| Kernel.EnvTable.SendToNoAddress | lab4/lib/ipc.c:30 | a page sent to a receiver with the address ~0 is refused, exactly as any other, or panics the kernel, whose memory ends before that page; the receiver is never woken |
| Kernel.EnvTable.SysIpcRecv | lab4/kern/syscall.c:490-516 | an unaligned address for a page is an error and changes nothing; else the caller is receiving, at exactly that address, and not runnable, and no other field or slot has changed |
| Kernel.EnvTable.TrapEntry | lab4/kern/trap.c:331-352 | a zombie is freed by its own CPU, any other trap goes on |
| Sched.ChoiceUnique | lab4/kern/sched.c:33-79 | the choice is determined by the table and the CPU |
| Sched.ChoiceExists | lab4/kern/sched.c:33-79 | there always is one |
| Sched.ChosenInTime | lab4/kern/sched.c:33-58 | an environment RUNNABLE at NENV successive calls on a CPU, none with curenv NULL, is chosen by one of them |
| Sched.Passed | lab4/kern/sched.c:33-58 | a call that passes over it moves nearer to it: the circular distance is the ranking function |
| Sched.NullStartsOver | lab4/kern/sched.c:33-45 | with curenv NULL the lower of two ready environments always wins |
| Fairness.WaitIsBounded | lab4/kern/sched.c:33-58 | over all runs: an environment ready at NENV successive calls on a CPU, none with curenv NULL, is chosen by one of them |
| Fairness.CurUntil | lab4/kern/env.c:636 | until its next call of sched_yield a CPU has the environment that the last call chose, or none |
| Fairness.NullStarves | lab4/kern/sched.c:33-45 | over every run in which a CPU calls it with curenv NULL and a lower environment ready, the higher is never chosen there |
| Starved.StarvesForever | lab4/kern/sched.c:33-45 | for every number of calls there is a run in which an environment is ready throughout and never chosen |
| MultiCpu.StepKeeps | lab4/kern/env.c:555-651 | every step of every CPU keeps the invariant of table, CPUs and lock |
| MultiCpu.OneCpuEach | lab4/kern/env.c:605-651 | over all runs no environment is current on two CPUs, RUNNING or DYING ones are current on one, one CPU at a time is in the kernel, and a user-mode CPU runs its own environment on that one's directory |
| MultiCpu.DyingKept | lab4/kern/trap.c:331-352 | a DYING environment stays as it is, directory included, exactly until its own CPU reaps it |
| MultiCpu.DestroyedStays | lab4/kern/env.c:555-571 | over all runs a destroyed environment is free or a zombie and is chosen by no CPU until its slot is taken again |
| MultiCpu.TrapGoesBack | lab4/kern/trap.c:360-369 | over all runs a trap that neither yields nor ends its environment goes back to that environment, whatever other CPUs do |
| MultiCpu.StoppedWasIdle | lab4/kern/sched.c:60-72 | over all runs a CPU is in the monitor only since a call at which none but idle environments could run or ran |
| MultiCpu.NoPanic | lab4/kern/sched.c:75-79 | the missing-idle panic is not reached and curenv is not NULL at a user trap |
| MultiCpu.ReschedRuns | lab4/kern/sched.c:33-79 | what sched_yield picks is RUNNABLE or the CPU's own idle environment; it stops in the monitor exactly if nothing is busy and its own environment is not RUNNABLE |
| MultiCpu.StatusSafeIff | lab4/kern/syscall.c:116-143 | exactly which calls of sys_env_set_status keep the invariant |
| MultiCpu.DestroySafeIff | lab4/kern/env.c:555-571 | env_destroy keeps the invariant exactly if its target is not DYING |
| Reached.UnsafeStatusReached | lab4/kern/syscall.c:116-143 | runs of two CPUs reach the calls that break it: a child that runs, that is dying, or that waits for a message |
| Reached.UnsafeDestroyReached | lab4/kern/env.c:555-571 | a run of two CPUs reaches a second destroy of an environment that still runs |
| Reached.OneEnvOnTwoCpus | lab4/kern/syscall.c:116-143 | a run in which sys_env_set_status wakes a running child ends with two CPUs in user mode on that one environment |
| Reached.UserOnFreedDirectory | lab4/kern/env.c:555-571 | a run in which a child is destroyed twice ends with a CPU in user mode on a directory that no environment has any more |
| MultiCpu.SomeCpuSteps | lab4/kern/trap.c:331-369 | some CPU can step unless one has stopped in the monitor |
| Messages.DeliveredInOrder | lab4/kern/syscall.c:380-516 | over all runs, what one environment got from one sender is a prefix of what that sent it, and a live one without a waiting message got everything |
| Messages.NotOverwritten | lab4/lib/ipc.c:23-53 | a delivered message stays in place until it is read or the receiver is freed, although it is read without the lock in two steps |
| Messages.SendWakes | lab4/kern/syscall.c:456-475 | over all runs a send makes a blocked receiver RUNNABLE and not receiving, with the sender's id and the value in place |
| Messages.MessageWakes | lab4/kern/syscall.c:456-475 | over all runs a live environment with an unread message is not NOT_RUNNABLE unless sys_env_set_status has made it so since the message came |
| Messages.StepKeepsMail | lab4/kern/syscall.c:380-516 | every step keeps: sent is received plus at most the one message waiting |
| Sieve.SieveCorrect | lab4/user/primes.c:14-52 | over all runs stage k holds the k-th prime, values in transit pass all filters before them and grow towards the generator |
| Sieve.HoldsKthPrime | lab4/user/primes.c:14-36 | the prime of stage k is prime and exactly k primes are smaller |
| Sieve.StepKeeps | lab4/user/primes.c:14-52 | each step of each process keeps what has been filtered and what is still to come |
| Sieve.SomeoneSteps | lab4/user/primes.c:14-52 | some process can step, or no environment is left and the last process, or the first, is about to fork |
| Sieve.ReceivesInOrder | lab4/user/primes.c:28-35 | over all runs the values a stage has received are increasing and exactly the integers below its bound that pass the filters before it |
| Spinlock.Exclusive | lab4/kern/spinlock.c:62-121 | under every interleaving of single accesses: one holder, lk->cpu and lk->pcs name nobody else, holding() is true for the holder only, no panic |
| Spinlock.OrderMatters | lab4/kern/spinlock.c:105-120 | the lock never panics exactly if lk->cpu is cleared before lk->locked, or there is one CPU |
| Stab.StabBinsearch | lab4/kern/kdebug.c:60-103 | on every table and address the loops terminate and compute the function the lemmas below are about, addr++ wrapping at 2^32 |
| Stab.SearchIsCorrect | lab4/kern/kdebug.c:60-103 | with sorted entries, unless addr occurs and addr+1 does too or addr is the last address: the last entry at or below addr and the index before the next; or the range before the first; or left > right |
| Stab.CorrectIff | lab4/kern/kdebug.c:83-89 | the search is right on every range of a sorted table exactly if addr does not occur, or is not the last address and addr+1 does not occur; for the last address but one that suffices, and it is necessary that the next entry of the type follows at once |
| Stab.EmptyIff | lab4/kern/kdebug.c:92-102 | on any table, left > right exactly if the range has no entry of the type |
| Stab.Next | lab4/kern/kdebug.c:65-90 | each turn makes the range smaller, or leaves it as it is and can then not match exactly at its start again |
| Stab.SearchWraps | lab4/kern/kdebug.c:83-89 | for the last address the search on its own entry ends before it |
| Stab.SearchSkips | lab4/kern/kdebug.c:83-89 | for the last address but one, between its entry and the next, the search ends just before the next, which is right exactly if nothing lies between |
| Stab.SearchOvershoots | lab4/kern/kdebug.c:83-89 | the concrete range on which the search overshoots |
| Numbers.Printnum | lab4/lib/printfmt.c:38-52 | appends the padding and the digits, max(width, digit count) characters |
| Numbers.PrintDecimal | lab4/lib/printfmt.c:193-200 | the sign, then the padding, then the digits |
| Numbers.DigitsValue | lab4/lib/printfmt.c:38-52 | the digits are digits of the base and stand for the number |
| Numbers.Strtol | lab4/lib/string.c:244-288 | value and end pointer for every string and base, as the parsing function the round trips are about |
| Numbers.RoundTrip | lab4/lib/string.c:244-288 | strtol reads back what printnum prints, to the end, for every number, base from 2 to 16, width and padding; the value is the number exactly if below 2^31 |
| Numbers.ReadsNotation | lab4/lib/string.c:244-288 | blanks, a sign or none, the prefix that announces the base, and digits in letters of either size are read to the end as the number, in every base up to 36, for a reader given that base or 0 |
| Numbers.SignedRoundTripIff | lab4/lib/printfmt.c:193-200 | a negative %d comes back exactly if no blank stands between sign and digits |
| Numbers.RenderInjective | lab4/lib/printfmt.c:38-52 | numbers below 2^31 that print alike are equal |
| CInt.Int32Step | lab4/lib/string.c:263-283 | wrapping at each digit is wrapping once at the end |

## Left out

- PageRemove: `Space` leaves out the pages of the UVPT window, whose mappings follow the directory; `VptIsTheWalk` covers them. TLB invalidation is not modelled.
- SysPageAlloc: alignment, range and permission bits of the system calls are preconditions, because validate_va and validate_perm return positive codes where callers test for negative ones (kern/syscall.c:215-221, 518-533).
- BootMapRegion: where memory for tables runs out the source follows a NULL pointer; the model stops.
- PageInit: the boot-time frame of kern_pgdir and the first free frame are parameters; boot_alloc and the memory sizes are not modelled. MapKernel: so are the frames of pages[], envs[] and the stacks.
- Perform: stores and the bytes that pgfault copies are made by the processor; `StoreShows` says what they come to. How a program reads a frame is a parameter.
- EnvFree: the environment's status and free list are in `Kernel`, not in `PhysMem`.
- DeliveredInOrder: speaks of the values, not of the pages.
- CowRefinesEager: a program's own calls of sys_page_map and sys_page_unmap, pages received by IPC, and sys_page_alloc between the steps of fork() are no steps of the machine. A fork() that cannot even make its child is not a step either. PFTEMP, which pgfault leaves mapped to the copied frame, and the exception stack are not compared.
- ForkCopiesPageIff: speaks of forks whose parent is not destroyed before they end.
- DumbFork.Machine.Dumbfork: runs without other environments storing to the same pages in between.
- NoPanic: idle programs only trap and yield, as user/idle.c does; a program that is in ipc_recv reads its message before it receives again.
- OneCpuEach: between unlock_kernel and lcr3 in env_run, cr3 may still name a directory that another CPU frees; nothing is claimed of cr3 there.
- CorrectIff: for the last address but one, 0xfffffffe, a sufficient and a necessary condition: there addr++ wraps on the second match, and if that match is not the first entry holding 0xffffffff the result depends on where the midpoints fall.
- SieveCorrect: the generator's counter is unbounded; the environments run out long before 2^31.
- Exclusive: memory is sequentially consistent and xchg atomic.
- Strtol: the wrap-around of signed arithmetic, undefined in C, is that of the machine; `long` has 32 bits.
- Printnum: numbers are not bounded by 64 bits; the other conversions of vprintfmt are not modelled.
- page_fault_handler's placement of the user trap frame (kern/trap.c:376-520), the dispatch of single traps and the trap frames themselves.
- env_runs, env_cpunum and the saved registers of struct Env.
- check_va2pa, the permissions that check_kern_pgdir asserts, and the other boot self-tests.
- Devices, interrupt controllers, boot, ELF loading, the kernel monitor, assembly, and all of lab1 to lab3.
