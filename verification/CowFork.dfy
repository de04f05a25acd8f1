/** Copy-on-write fork (lib/fork.c) as a step machine over any number of environments, and
    the eager copy of user/dumbfork.c as the machine it refines.

    One step is one page-table read, one system call, one byte of a memmove or one user store,
    and the steps of different environments interleave freely. An environment that is inside
    fork() keeps storing to its memory and taking page faults between the steps of fork(). */
module CowFork {
  import opened Mmu

  type Page = seq<int>

  /** Page number of PFTEMP (0x7ff000). */
  const PFTEMP := 0x7ff
  /** Page number of the user stack page, PGNUM(USTACKTOP - PGSIZE). */
  const USTACK := 0xeebfd
  /** Page number of the user exception stack, PGNUM(UXSTACKTOP - PGSIZE). */
  const UXSTACK := 0xeebff

  /** The index of the page table that holds the entry of a page. */
  function Dir(pn: nat): nat {
    pn / NPTENTRIES
  }

  function ZeroPage(): (z: Page)
    ensures |z| == PGSIZE
  {
    seq(PGSIZE, _ => 0)
  }

  /** Where an environment stands inside fork(): scanning page `pn`; holding the permissions it
      read for `pn`; or between the two sys_page_map calls of duppage. */
  datatype Fork =
    | NoFork
    | Scan(child: nat, pn: nat)
    | Dup(child: nat, pn: nat, perm: Flags)
    | Window(child: nat, pn: nat, perm: Flags)

  /** Where an environment stands inside pgfault(); Panicked if a system call of pgfault or duppage has run
      out of memory, upon which the program stops. */
  datatype Fault =
    | NoFault
    | Alloc(pn: nat, perm: Flags)
    | Copy(pn: nat, perm: Flags, done: nat)
    | Panicked

  /** `tables` are the page tables that exist; `own` are the frames of these tables, of the page directory and of the
      exception stack. */
  datatype Proc = Proc(
    parent: nat, space: map<nat, Entry>, tables: set<nat>, own: set<nat>, runnable: bool, fork: Fork, fault: Fault
  ) {
    predicate HasTable(pn: nat) {
      Dir(pn) in tables
    }

    /** page_insert; a missing table is made in frame `tab`. */
    function MapPage(pn: nat, x: Entry, tab: nat): Proc {
      Proc(parent, space[pn := x], tables + {Dir(pn)}, if HasTable(pn) then own else own + {tab}, runnable, fork, fault)
    }

    /** page_insert over an entry of an existing table. */
    function Remap(pn: nat, x: Entry): Proc {
      Proc(parent, space[pn := x], tables, own, runnable, fork, fault)
    }

    function WithFork(k: Fork): Proc {
      Proc(parent, space, tables, own, runnable, k, fault)
    }

    function WithFault(k: Fault): Proc {
      Proc(parent, space, tables, own, runnable, fork, k)
    }

    function Started(): Proc {
      Proc(parent, space, tables, own, true, fork, fault)
    }
  }

  datatype State = State(mem: map<nat, Page>, procs: map<nat, Proc>)

  datatype Step =
    | Store(e: nat, pn: nat, off: nat, v: int)
    | PageAlloc(e: nat, pn: nat, frame: nat, tab: nat)
    | FaultEnter(e: nat, pn: nat)
    | FaultAlloc(e: nat, frame: nat, tab: nat)
    | FaultCopy(e: nat)
    | FaultMap(e: nat)
    | ForkBegin(e: nat, newenv: nat, dir: nat, xstack: nat, tab: nat)
    | ForkScan(e: nat)
    | DupChild(e: nat, tab: nat)
    | DupParent(e: nat)
    | ForkEnd(e: nat)
    | Exit(e: nat)
    | OutOfMemory(e: nat)

  // ----- Permissions -----

  predicate WritableOrCow(x: Entry) {
    W in x.flags || COW in x.flags
  }

  /** The permissions duppage gives to both mappings: COW added, W removed. */
  function DupPerm(flags: Flags): Flags {
    flags + {COW} - {W}
  }

  /** The permissions pgfault gives to the private copy: COW removed, W added. */
  function PrivatePerm(flags: Flags): Flags {
    flags - {COW} + {W}
  }

  // ----- Slots -----

  predicate Maps(s: State, e: nat, p: nat) {
    e in s.procs && p in s.procs[e].space
  }

  function At(s: State, e: nat, p: nat): Entry
    requires Maps(s, e, p)
  {
    s.procs[e].space[p]
  }

  /** No slot of any environment maps frame `f`. */
  ghost predicate Unmapped(s: State, f: nat) {
    forall e: nat, p: nat :: Maps(s, e, p) ==> At(s, e, p).frame != f
  }

  /** Frame `f` is used for nothing: what page_alloc guarantees of the frame it returns. */
  ghost predicate Free(s: State, f: nat) {
    f in s.mem && Unmapped(s, f) && forall e :: e in s.procs ==> f !in s.procs[e].own
  }

  /** page_insert of a page in frame `f` at page `pn` of `e` finds its table or makes it in frame `tab`. */
  ghost predicate CanMap(s: State, e: nat, pn: nat, f: nat, tab: nat)
    requires e in s.procs
  {
    s.procs[e].HasTable(pn) || (Free(s, tab) && tab != f)
  }

  /** The memory that the next system call of `e` in pgfault or duppage needs is not there: in pgfault a frame for
      the copy, with another for the table at PFTEMP if that is missing; in duppage a frame for the child's table. */
  ghost predicate Exhausted(s: State, e: nat)
    requires e in s.procs
  {
    || (s.procs[e].fault.Alloc? && forall f, tab :: Free(s, f) ==> !CanMap(s, e, PFTEMP, f, tab))
    || (s.procs[e].fault == NoFault && s.procs[e].fork.Dup? && s.procs[e].fork.child in s.procs
        && !s.procs[s.procs[e].fork.child].HasTable(s.procs[e].fork.pn) && forall tab :: !Free(s, tab))
  }

  /** A load or store through slot (e, p) reaches a page of memory. */
  predicate Reaches(s: State, e: nat, p: nat) {
    Maps(s, e, p) && At(s, e, p).frame in s.mem && |s.mem[At(s, e, p).frame]| == PGSIZE
  }

  // ----- The machine -----

  /** Environment `e` is executing user code, outside its page-fault handler. */
  predicate UserMode(s: State, e: nat) {
    e in s.procs && s.procs[e].runnable && s.procs[e].fault == NoFault
  }

  ghost predicate Enabled(s: State, st: Step) {
    match st
    case Store(e, pn, off, v) =>
      UserMode(s, e) && pn != PFTEMP && Reaches(s, e, pn) && W in At(s, e, pn).flags && off < PGSIZE
    case PageAlloc(e, pn, f, tab) =>
      UserMode(s, e) && s.procs[e].fork == NoFork && pn != PFTEMP && Free(s, f) && CanMap(s, e, pn, f, tab)
    case FaultEnter(e, pn) =>
      UserMode(s, e) && pn != PFTEMP && Maps(s, e, pn) && W !in At(s, e, pn).flags
    case FaultAlloc(e, f, tab) =>
      e in s.procs && s.procs[e].fault.Alloc? && Free(s, f) && CanMap(s, e, PFTEMP, f, tab)
    case FaultCopy(e) =>
      e in s.procs && s.procs[e].fault.Copy? && s.procs[e].fault.done < PGSIZE
      && Reaches(s, e, s.procs[e].fault.pn) && Reaches(s, e, PFTEMP) && W in At(s, e, PFTEMP).flags
    case FaultMap(e) =>
      e in s.procs && s.procs[e].fault.Copy? && s.procs[e].fault.done == PGSIZE
      && Maps(s, e, PFTEMP) && W in At(s, e, PFTEMP).flags && s.procs[e].HasTable(s.procs[e].fault.pn)
    case ForkBegin(e, c, d, x, tab) =>
      UserMode(s, e) && s.procs[e].fork == NoFork && c !in s.procs
      && Free(s, d) && Free(s, x) && Free(s, tab) && d != x && d != tab && x != tab
    case ForkScan(e) =>
      UserMode(s, e) && s.procs[e].fork.Scan? && s.procs[e].fork.pn <= USTACK
    case DupChild(e, tab) =>
      UserMode(s, e) && s.procs[e].fork.Dup? && s.procs[e].fork.child in s.procs && Maps(s, e, s.procs[e].fork.pn)
      && CanMap(s, s.procs[e].fork.child, s.procs[e].fork.pn, At(s, e, s.procs[e].fork.pn).frame, tab)
    case DupParent(e) =>
      UserMode(s, e) && s.procs[e].fork.Window? && Maps(s, e, s.procs[e].fork.pn)
      && s.procs[e].HasTable(s.procs[e].fork.pn)
    case ForkEnd(e) =>
      UserMode(s, e) && s.procs[e].fork.Scan? && s.procs[e].fork.pn > USTACK && s.procs[e].fork.child in s.procs
    case Exit(e) =>
      e in s.procs && s.procs[e].runnable
    case OutOfMemory(e) =>
      e in s.procs && Exhausted(s, e)
  }

  function SetProc(s: State, e: nat, p: Proc): State {
    State(s.mem, s.procs[e := p])
  }

  function SetMem(s: State, f: nat, page: Page): State {
    State(s.mem[f := page], s.procs)
  }

  /** A user store. */
  function StoreTo(s: State, f: nat, off: nat, v: int): State
    requires f in s.mem && off < |s.mem[f]|
  {
    SetMem(s, f, s.mem[f][off := v])
  }

  /** sys_page_alloc of the fresh frame `f` at page `pn`; the fault state becomes `fault`. */
  function MapFresh(s: State, e: nat, pn: nat, f: nat, tab: nat, perm: Flags, fault: Fault): State
    requires e in s.procs
  {
    SetProc(SetMem(s, f, ZeroPage()), e,
            s.procs[e].MapPage(pn, Entry(f, perm), tab).WithFault(fault))
  }

  /** Entering pgfault(): the permissions are read through vpt. Its test of PTE_COW, written
      `perm | PTE_COW`, is always true, so any write fault on a mapped page gets here. */
  function EnterFault(s: State, e: nat, pn: nat): State
    requires Maps(s, e, pn)
  {
    SetProc(s, e, s.procs[e].WithFault(Alloc(pn, PrivatePerm(At(s, e, pn).flags))))
  }

  /** One byte of memmove(PFTEMP, va, PGSIZE). */
  function CopyByte(s: State, e: nat, from: nat, to: nat, i: nat): State
    requires e in s.procs && s.procs[e].fault.Copy?
    requires from in s.mem && i < |s.mem[from]| && to in s.mem && i < |s.mem[to]|
  {
    SetProc(StoreTo(s, to, i, s.mem[from][i]), e,
            s.procs[e].WithFault(Copy(s.procs[e].fault.pn, s.procs[e].fault.perm, i + 1)))
  }

  /** sys_page_map(PFTEMP, va): the private copy replaces the shared page. */
  function MapPrivate(s: State, e: nat, pn: nat, perm: Flags): State
    requires Maps(s, e, PFTEMP)
  {
    SetProc(s, e, s.procs[e].Remap(pn, Entry(At(s, e, PFTEMP).frame, perm)).WithFault(NoFault))
  }

  /** sys_exofork and the exception stack: an empty child that is not runnable. */
  function NewChild(s: State, e: nat, c: nat, own: set<nat>): State
    requires e in s.procs
  {
    var child := Proc(e, map[], {Dir(UXSTACK)}, own, false, NoFork, NoFault);
    SetProc(SetProc(s, c, child), e, s.procs[e].WithFork(Scan(c, 0)))
  }

  /** One turn of fork()'s loop, up to the test of PTE_W and PTE_COW in duppage. */
  function ScanPage(s: State, e: nat, c: nat, pn: nat): State
    requires e in s.procs
  {
    SetProc(s, e, s.procs[e].WithFork(
      if Maps(s, e, pn) && WritableOrCow(At(s, e, pn))
      then Dup(c, pn, DupPerm(At(s, e, pn).flags))
      else Scan(c, pn + 1)))
  }

  /** duppage's first sys_page_map, into the child. */
  function MapChild(s: State, e: nat, c: nat, pn: nat, perm: Flags, tab: nat): State
    requires Maps(s, e, pn) && c in s.procs
  {
    SetProc(SetProc(s, c, s.procs[c].MapPage(pn, Entry(At(s, e, pn).frame, perm), tab)),
            e, s.procs[e].WithFork(Window(c, pn, perm)))
  }

  /** duppage's second sys_page_map, over the parent's own mapping. */
  function MapParent(s: State, e: nat, c: nat, pn: nat, perm: Flags): State
    requires Maps(s, e, pn)
  {
    SetProc(s, e, s.procs[e].Remap(pn, Entry(At(s, e, pn).frame, perm)).WithFork(Scan(c, pn + 1)))
  }

  /** sys_env_set_status(child, ENV_RUNNABLE) and the return from fork(). */
  function StartChild(s: State, e: nat, c: nat): State
    requires e in s.procs && c in s.procs
  {
    SetProc(SetProc(s, c, s.procs[c].Started()), e, s.procs[e].WithFork(NoFork))
  }

  /** Effect of a step. */
  ghost function Apply(s: State, st: Step): State
    requires Enabled(s, st)
  {
    match st
    case Store(e, pn, off, v) => StoreTo(s, At(s, e, pn).frame, off, v)
    case PageAlloc(e, pn, f, tab) => MapFresh(s, e, pn, f, tab, {P, U, W}, NoFault)
    case FaultEnter(e, pn) => EnterFault(s, e, pn)
    case FaultAlloc(e, f, tab) =>
      MapFresh(s, e, PFTEMP, f, tab, s.procs[e].fault.perm, Copy(s.procs[e].fault.pn, s.procs[e].fault.perm, 0))
    case FaultCopy(e) =>
      CopyByte(s, e, At(s, e, s.procs[e].fault.pn).frame, At(s, e, PFTEMP).frame, s.procs[e].fault.done)
    case FaultMap(e) => MapPrivate(s, e, s.procs[e].fault.pn, s.procs[e].fault.perm)
    case ForkBegin(e, c, d, x, tab) => NewChild(s, e, c, {d, x, tab})
    case ForkScan(e) => ScanPage(s, e, s.procs[e].fork.child, s.procs[e].fork.pn)
    case DupChild(e, tab) => MapChild(s, e, s.procs[e].fork.child, s.procs[e].fork.pn, s.procs[e].fork.perm, tab)
    case DupParent(e) => MapParent(s, e, s.procs[e].fork.child, s.procs[e].fork.pn, s.procs[e].fork.perm)
    case ForkEnd(e) => StartChild(s, e, s.procs[e].fork.child)
    case Exit(e) => State(s.mem, s.procs - {e})
    case OutOfMemory(e) => SetProc(s, e, s.procs[e].WithFault(Panicked))
  }

  // ----- The invariant -----

  /** `e` has mapped its page `p` into child `c` and has not yet remapped its own. */
  predicate Pending(s: State, e: nat, c: nat, p: nat) {
    e in s.procs && s.procs[e].fork.Window? && s.procs[e].fork.child == c && s.procs[e].fork.pn == p
  }

  /** Every mapped frame is a page of memory. */
  ghost predicate FramesOk(s: State) {
    && (forall f :: f in s.mem ==> |s.mem[f]| == PGSIZE)
    && (forall e: nat, p: nat :: Maps(s, e, p) ==> At(s, e, p).frame in s.mem)
  }

  /** What an environment inside fork() knows: the child is its own, is not running, and so far
      has read-only mappings below the scan position only. */
  ghost predicate ForkOk(s: State, e: nat)
    requires e in s.procs
  {
    s.procs[e].fork != NoFork ==>
      && s.procs[e].runnable
      && s.procs[e].fork.child != e
      && ChildOk(s, e, s.procs[e].fork.child, s.procs[e].fork.pn)
      && (!s.procs[e].fork.Scan? ==> Maps(s, e, s.procs[e].fork.pn) && W !in s.procs[e].fork.perm)
      && (s.procs[e].fork.Window? <==> Maps(s, s.procs[e].fork.child, s.procs[e].fork.pn))
  }

  ghost predicate ChildOk(s: State, e: nat, c: nat, pn: nat) {
    && c in s.procs && s.procs[c].parent == e
    && !s.procs[c].runnable && s.procs[c].fork == NoFork && s.procs[c].fault == NoFault
    && (forall p: nat :: Maps(s, c, p) ==> p <= pn && W !in At(s, c, p).flags)
  }

  /** Inside pgfault(): the faulting page is still mapped read-only; the frame at PFTEMP is mapped
      nowhere else, and its first `done` bytes are already those of the faulting page. */
  ghost predicate FaultOk(s: State, e: nat)
    requires e in s.procs && FramesOk(s)
  {
    s.procs[e].fault.Alloc? || s.procs[e].fault.Copy? ==>
      && s.procs[e].runnable
      && s.procs[e].fault.pn != PFTEMP && W in s.procs[e].fault.perm
      && Maps(s, e, s.procs[e].fault.pn) && W !in At(s, e, s.procs[e].fault.pn).flags
      && (s.procs[e].fault.Copy? ==> CopyOk(s, e, s.procs[e].fault.pn, s.procs[e].fault.done))
  }

  ghost predicate CopyOk(s: State, e: nat, pn: nat, done: nat)
    requires Maps(s, e, pn) && FramesOk(s)
  {
    && Maps(s, e, PFTEMP) && W in At(s, e, PFTEMP).flags && Sole(s, e, PFTEMP)
    && done <= PGSIZE
    && s.mem[At(s, e, PFTEMP).frame][..done] == s.mem[At(s, e, pn).frame][..done]
  }

  /** Slot (e, p) is the only slot that maps its frame. */
  ghost predicate Sole(s: State, e: nat, p: nat)
    requires Maps(s, e, p)
  {
    forall e2: nat, p2: nat :: Maps(s, e2, p2) && (e2 != e || p2 != p) ==> At(s, e2, p2).frame != At(s, e, p).frame
  }

  /** A frame writable through (e, p) is mapped by no other slot, except by the child into which
      `e` is duplicating that very page. PFTEMP slots are aside: only pgfault uses them. */
  ghost predicate Exclusive(s: State) {
    forall e: nat, p: nat, e2: nat, p2: nat ::
      Maps(s, e, p) && Maps(s, e2, p2) && p != PFTEMP && p2 != PFTEMP && (e != e2 || p != p2)
      && At(s, e, p).frame == At(s, e2, p2).frame && W in At(s, e, p).flags
      ==> p2 == p && Pending(s, e, e2, p)
  }

  /** A mapped page has its table. */
  ghost predicate TablesExist(s: State) {
    forall e: nat, p: nat :: Maps(s, e, p) ==> s.procs[e].HasTable(p)
  }

  ghost predicate Inv(s: State) {
    && FramesOk(s) && TablesExist(s)
    && (forall e :: e in s.procs ==> ForkOk(s, e))
    && (forall e :: e in s.procs ==> FaultOk(s, e))
    && Exclusive(s)
  }

  // ----- Every step keeps the invariant -----

  /** Outside slot (e0, p0) both states map the same entries. */
  ghost predicate SameSlotsBut(s: State, t: State, e0: nat, p0: nat) {
    forall e: nat, p: nat {:trigger Maps(s, e, p)} {:trigger Maps(t, e, p)} ::
      e != e0 || p != p0 ==>
        && (Maps(s, e, p) <==> Maps(t, e, p))
        && (Maps(s, e, p) ==> At(s, e, p) == At(t, e, p))
  }

  ghost predicate SameSlots(s: State, t: State) {
    forall e: nat, p: nat {:trigger Maps(s, e, p)} {:trigger Maps(t, e, p)} ::
      && (Maps(s, e, p) <==> Maps(t, e, p))
      && (Maps(s, e, p) ==> At(s, e, p) == At(t, e, p))
  }

  lemma TablesKept(s: State, st: Step)
    requires TablesExist(s) && Enabled(s, st)
    ensures TablesExist(Apply(s, st))
  {
    hide Free, CanMap, Exhausted;
    SlotEffects(s, st);
  }

  /** What a step that changes no slot keeps. */
  lemma SlotsStay(s: State, t: State)
    requires SameSlots(s, t) && Exclusive(s)
    requires forall e: nat, c: nat, p: nat :: Pending(s, e, c, p) ==> Pending(t, e, c, p)
    ensures Exclusive(t)
    ensures forall e: nat, p: nat :: Maps(s, e, p) && Sole(s, e, p) ==> Sole(t, e, p)
  {
    forall e: nat, p: nat | Maps(s, e, p) && Sole(s, e, p) ensures Sole(t, e, p) {
    }
  }

  /** So the copy that an environment is making in pgfault is as it was. */
  lemma FaultStays(s: State, t: State, e: nat)
    requires SameSlots(s, t) && FramesOk(s) && FramesOk(t) && t.mem == s.mem && e in s.procs && e in t.procs
    requires FaultOk(s, e)
    requires t.procs[e].fault == s.procs[e].fault && (s.procs[e].runnable ==> t.procs[e].runnable)
    ensures FaultOk(t, e)
  {
    if s.procs[e].fault.Copy? {
      assert Sole(t, e, PFTEMP);
    }
  }

  /** What mapping an unused frame at slot (e, pn) keeps. */
  lemma FreshKeeps(s: State, t: State, e: nat, pn: nat, f: nat)
    requires SameSlotsBut(s, t, e, pn) && Exclusive(s) && Unmapped(s, f) && Maps(t, e, pn) && At(t, e, pn).frame == f
    requires forall e2: nat, c: nat, p: nat :: Pending(s, e2, c, p) ==> Pending(t, e2, c, p)
    ensures Exclusive(t) && Sole(t, e, pn)
    ensures forall e2: nat, p2: nat :: Maps(s, e2, p2) && (e2 != e || p2 != pn) && Sole(s, e2, p2) ==> Sole(t, e2, p2)
  {
    forall e2: nat, p2: nat | Maps(s, e2, p2) && (e2 != e || p2 != pn) && Sole(s, e2, p2) ensures Sole(t, e2, p2) {
    }
  }

  lemma NotMapped(s: State, f: nat)
    requires Unmapped(s, f)
    ensures forall e: nat, p: nat {:trigger At(s, e, p)} :: Maps(s, e, p) ==> At(s, e, p).frame != f
  {
  }

  lemma NoFaultOk(s: State, e: nat)
    requires FramesOk(s) && e in s.procs && s.procs[e].fault == NoFault
    ensures FaultOk(s, e)
  {
  }

  lemma StoreKeeps(s: State, e: nat, pn: nat, off: nat, v: int)
    requires Inv(s) && Enabled(s, Store(e, pn, off, v))
    ensures Inv(Apply(s, Store(e, pn, off, v)))
  {
    hide TablesExist, Free, CanMap, Exhausted;
    TablesKept(s, Store(e, pn, off, v));
    var t := Apply(s, Store(e, pn, off, v));
    assert SameSlots(s, t);
  }

  lemma PageAllocKeeps(s: State, e: nat, pn: nat, f: nat, tab: nat)
    requires Inv(s) && Enabled(s, PageAlloc(e, pn, f, tab))
    ensures Inv(Apply(s, PageAlloc(e, pn, f, tab)))
  {
    hide TablesExist, CanMap, Exhausted, Exclusive, Unmapped, Sole;
    TablesKept(s, PageAlloc(e, pn, f, tab));
    var t := Apply(s, PageAlloc(e, pn, f, tab));
    assert SameSlotsBut(s, t, e, pn);
    FreshKeeps(s, t, e, pn, f);
    NotMapped(s, f);
  }

  lemma FaultEnterKeeps(s: State, e: nat, pn: nat)
    requires Inv(s) && Enabled(s, FaultEnter(e, pn))
    ensures Inv(Apply(s, FaultEnter(e, pn)))
  {
    hide TablesExist, Free, CanMap, Exhausted;
    TablesKept(s, FaultEnter(e, pn));
    var t := Apply(s, FaultEnter(e, pn));
    assert SameSlots(s, t);
  }

  lemma FaultAllocKeeps(s: State, e: nat, f: nat, tab: nat)
    requires Inv(s) && Enabled(s, FaultAlloc(e, f, tab))
    ensures Inv(Apply(s, FaultAlloc(e, f, tab)))
  {
    hide TablesExist, CanMap, Exhausted, Exclusive, Unmapped, Sole;
    TablesKept(s, FaultAlloc(e, f, tab));
    var t := Apply(s, FaultAlloc(e, f, tab));
    assert SameSlotsBut(s, t, e, PFTEMP);
    FreshKeeps(s, t, e, PFTEMP, f);
    NotMapped(s, f);
  }

  lemma FaultCopyKeeps(s: State, e: nat)
    requires Inv(s) && Enabled(s, FaultCopy(e))
    ensures Inv(Apply(s, FaultCopy(e)))
  {
    hide TablesExist, Free, CanMap, Exhausted, Exclusive, FaultOk;
    TablesKept(s, FaultCopy(e));
    var t := Apply(s, FaultCopy(e));
    assert SameSlots(s, t);
    SlotsStay(s, t);
    forall e2 | e2 in s.procs ensures FaultOk(t, e2) {
      FaultCopyFaults(s, e, e2);
    }
  }

  /** The byte goes to a frame that nobody else maps. */
  lemma FaultCopyFaults(s: State, e: nat, e2: nat)
    requires Inv(s) && Enabled(s, FaultCopy(e)) && e2 in s.procs && FramesOk(Apply(s, FaultCopy(e)))
    ensures FaultOk(Apply(s, FaultCopy(e)), e2)
  {
    hide TablesExist, Free, CanMap, Exhausted, Exclusive, ForkOk;
    assert FaultOk(s, e) && FaultOk(s, e2);
    assert SameSlots(s, Apply(s, FaultCopy(e)));
  }

  lemma FaultMapKeeps(s: State, e: nat)
    requires Inv(s) && Enabled(s, FaultMap(e))
    ensures Inv(Apply(s, FaultMap(e)))
  {
    hide TablesExist, Free, CanMap, Exhausted, ForkOk, FaultOk, Exclusive;
    var t := Apply(s, FaultMap(e));
    TablesKept(s, FaultMap(e));
    FaultMapExcludes(s, e);
    forall e2 | e2 in s.procs ensures ForkOk(t, e2) && FaultOk(t, e2) {
      FaultMapForks(s, e, e2);
      FaultMapFaults(s, e, e2);
    }
  }

  lemma FaultMapExcludes(s: State, e: nat)
    requires Inv(s) && Enabled(s, FaultMap(e))
    ensures FramesOk(Apply(s, FaultMap(e))) && Exclusive(Apply(s, FaultMap(e)))
  {
    hide TablesExist, Free, CanMap, Exhausted;
    assert ForkOk(s, e) && FaultOk(s, e);
    assert SameSlotsBut(s, Apply(s, FaultMap(e)), e, s.procs[e].fault.pn);
  }

  lemma FaultMapForks(s: State, e: nat, e2: nat)
    requires Inv(s) && Enabled(s, FaultMap(e)) && e2 in s.procs
    ensures ForkOk(Apply(s, FaultMap(e)), e2)
  {
    hide TablesExist, Free, CanMap, Exhausted, Exclusive;
    assert ForkOk(s, e) && ForkOk(s, e2) && FaultOk(s, e);
    assert SameSlotsBut(s, Apply(s, FaultMap(e)), e, s.procs[e].fault.pn);
  }

  lemma FaultMapFaults(s: State, e: nat, e2: nat)
    requires Inv(s) && Enabled(s, FaultMap(e)) && e2 in s.procs && FramesOk(Apply(s, FaultMap(e)))
    ensures FaultOk(Apply(s, FaultMap(e)), e2)
  {
    hide TablesExist, Free, CanMap, Exhausted, Exclusive, ForkOk;
    assert FaultOk(s, e) && FaultOk(s, e2);
    assert SameSlotsBut(s, Apply(s, FaultMap(e)), e, s.procs[e].fault.pn);
  }

  lemma ForkBeginKeeps(s: State, e: nat, c: nat, d: nat, x: nat, tab: nat)
    requires Inv(s) && Enabled(s, ForkBegin(e, c, d, x, tab))
    ensures Inv(Apply(s, ForkBegin(e, c, d, x, tab)))
  {
    hide TablesExist, Free, CanMap, Exhausted, Exclusive, FaultOk, Sole;
    TablesKept(s, ForkBegin(e, c, d, x, tab));
    var t := Apply(s, ForkBegin(e, c, d, x, tab));
    assert SameSlots(s, t);
    SlotsStay(s, t);
    NoFaultOk(t, c);
    forall e2 | e2 in s.procs ensures FaultOk(t, e2) {
      FaultStays(s, t, e2);
    }
  }

  lemma ForkScanKeeps(s: State, e: nat)
    requires Inv(s) && Enabled(s, ForkScan(e))
    ensures Inv(Apply(s, ForkScan(e)))
  {
    hide TablesExist, Free, CanMap, Exhausted, Exclusive, FaultOk, Sole;
    TablesKept(s, ForkScan(e));
    var t := Apply(s, ForkScan(e));
    assert SameSlots(s, t);
    SlotsStay(s, t);
    forall e2 | e2 in s.procs ensures FaultOk(t, e2) {
      FaultStays(s, t, e2);
    }
  }

  lemma DupChildForks(s: State, e: nat, tab: nat, e2: nat)
    requires Inv(s) && Enabled(s, DupChild(e, tab)) && e2 in s.procs
    ensures ForkOk(Apply(s, DupChild(e, tab)), e2)
  {
    hide TablesExist, Free, CanMap, Exhausted, Exclusive, FaultOk;
    assert ForkOk(s, e) && ForkOk(s, e2);
    assert SameSlotsBut(s, Apply(s, DupChild(e, tab)), s.procs[e].fork.child, s.procs[e].fork.pn);
  }

  lemma DupChildKeeps(s: State, e: nat, tab: nat)
    requires Inv(s) && Enabled(s, DupChild(e, tab))
    ensures Inv(Apply(s, DupChild(e, tab)))
  {
    hide TablesExist, Free, CanMap, Exhausted, ForkOk, ChildOk, FaultOk, Exclusive;
    var t := Apply(s, DupChild(e, tab));
    TablesKept(s, DupChild(e, tab));
    DupChildExcludes(s, e, tab);
    forall e2 | e2 in s.procs ensures ForkOk(t, e2) && FaultOk(t, e2) {
      DupChildForks(s, e, tab, e2);
      DupChildFaults(s, e, tab, e2);
    }
  }

  lemma DupChildExcludes(s: State, e: nat, tab: nat)
    requires Inv(s) && Enabled(s, DupChild(e, tab))
    ensures FramesOk(Apply(s, DupChild(e, tab))) && Exclusive(Apply(s, DupChild(e, tab)))
  {
    hide TablesExist, Free, CanMap, Exhausted, FaultOk;
    assert ForkOk(s, e);
    assert SameSlotsBut(s, Apply(s, DupChild(e, tab)), s.procs[e].fork.child, s.procs[e].fork.pn);
  }

  lemma DupChildFaults(s: State, e: nat, tab: nat, e2: nat)
    requires Inv(s) && Enabled(s, DupChild(e, tab)) && e2 in s.procs && FramesOk(Apply(s, DupChild(e, tab)))
    ensures FaultOk(Apply(s, DupChild(e, tab)), e2)
  {
    hide TablesExist, Free, CanMap, Exhausted, Exclusive;
    assert ForkOk(s, e) && FaultOk(s, e2);
    assert SameSlotsBut(s, Apply(s, DupChild(e, tab)), s.procs[e].fork.child, s.procs[e].fork.pn);
  }

  lemma DupParentKeeps(s: State, e: nat)
    requires Inv(s) && Enabled(s, DupParent(e))
    ensures Inv(Apply(s, DupParent(e)))
  {
    hide TablesExist, Free, CanMap, Exhausted, ForkOk, FaultOk, Exclusive;
    var t := Apply(s, DupParent(e));
    TablesKept(s, DupParent(e));
    DupParentExcludes(s, e);
    forall e2 | e2 in s.procs ensures ForkOk(t, e2) && FaultOk(t, e2) {
      DupParentForks(s, e, e2);
      DupParentFaults(s, e, e2);
    }
  }

  lemma DupParentExcludes(s: State, e: nat)
    requires Inv(s) && Enabled(s, DupParent(e))
    ensures FramesOk(Apply(s, DupParent(e))) && Exclusive(Apply(s, DupParent(e)))
  {
    hide TablesExist, Free, CanMap, Exhausted, FaultOk;
    assert ForkOk(s, e);
    assert SameSlotsBut(s, Apply(s, DupParent(e)), e, s.procs[e].fork.pn);
  }

  lemma DupParentForks(s: State, e: nat, e2: nat)
    requires Inv(s) && Enabled(s, DupParent(e)) && e2 in s.procs
    ensures ForkOk(Apply(s, DupParent(e)), e2)
  {
    hide TablesExist, Free, CanMap, Exhausted, Exclusive, FaultOk;
    assert ForkOk(s, e) && ForkOk(s, e2);
    assert SameSlotsBut(s, Apply(s, DupParent(e)), e, s.procs[e].fork.pn);
  }

  lemma DupParentFaults(s: State, e: nat, e2: nat)
    requires Inv(s) && Enabled(s, DupParent(e)) && e2 in s.procs && FramesOk(Apply(s, DupParent(e)))
    ensures FaultOk(Apply(s, DupParent(e)), e2)
  {
    hide TablesExist, Free, CanMap, Exhausted, Exclusive, ForkOk;
    assert FaultOk(s, e) && FaultOk(s, e2);
    assert SameSlotsBut(s, Apply(s, DupParent(e)), e, s.procs[e].fork.pn);
  }

  lemma ForkEndKeeps(s: State, e: nat)
    requires Inv(s) && Enabled(s, ForkEnd(e))
    ensures Inv(Apply(s, ForkEnd(e)))
  {
    hide TablesExist, Free, CanMap, Exhausted, Exclusive, FaultOk, Sole;
    TablesKept(s, ForkEnd(e));
    var t := Apply(s, ForkEnd(e));
    assert SameSlots(s, t);
    SlotsStay(s, t);
    forall e2 | e2 in s.procs ensures FaultOk(t, e2) {
      FaultStays(s, t, e2);
    }
  }

  lemma ExitKeeps(s: State, e: nat)
    requires Inv(s) && Enabled(s, Exit(e))
    ensures Inv(Apply(s, Exit(e)))
  {
    hide TablesExist, Free, CanMap, Exhausted;
    TablesKept(s, Exit(e));
    var t := Apply(s, Exit(e));
    assert forall e2: nat, p2: nat {:trigger Maps(t, e2, p2)} :: Maps(t, e2, p2) ==>
      e2 != e && Maps(s, e2, p2) && At(s, e2, p2) == At(t, e2, p2);
  }

  lemma OutOfMemoryKeeps(s: State, e: nat)
    requires Inv(s) && Enabled(s, OutOfMemory(e))
    ensures Inv(Apply(s, OutOfMemory(e)))
  {
    hide TablesExist, Free, CanMap;
    TablesKept(s, OutOfMemory(e));
    assert SameSlots(s, Apply(s, OutOfMemory(e)));
  }

  /** Which slots a step changes: at most one, or all those of an environment that exits. */
  lemma SlotEffects(s: State, st: Step)
    requires Enabled(s, st)
    ensures var t := Apply(s, st);
      match st
      case PageAlloc(e, pn, _, _) => SameSlotsBut(s, t, e, pn)
      case FaultAlloc(e, _, _) => SameSlotsBut(s, t, e, PFTEMP)
      case FaultMap(e) => SameSlotsBut(s, t, e, s.procs[e].fault.pn)
      case DupChild(e, _) => SameSlotsBut(s, t, s.procs[e].fork.child, s.procs[e].fork.pn)
      case DupParent(e) => SameSlotsBut(s, t, e, s.procs[e].fork.pn)
      case Exit(e) => forall e2: nat, p2: nat {:trigger Maps(t, e2, p2)} :: Maps(t, e2, p2) ==>
        e2 != e && Maps(s, e2, p2) && At(s, e2, p2) == At(t, e2, p2)
      case Store(_, _, _, _) => SameSlots(s, t)
      case FaultEnter(_, _) => SameSlots(s, t)
      case FaultCopy(_) => SameSlots(s, t)
      case ForkBegin(_, _, _, _, _) => SameSlots(s, t)
      case ForkScan(_) => SameSlots(s, t)
      case ForkEnd(_) => SameSlots(s, t)
      case OutOfMemory(_) => SameSlots(s, t)
  {
  }

  lemma StepKeeps(s: State, st: Step)
    requires Inv(s) && Enabled(s, st)
    ensures Inv(Apply(s, st))
  {
    hide Free, CanMap, Exhausted;
    match st
    case Store(e, pn, off, v) => StoreKeeps(s, e, pn, off, v);
    case PageAlloc(e, pn, f, tab) => PageAllocKeeps(s, e, pn, f, tab);
    case FaultEnter(e, pn) => FaultEnterKeeps(s, e, pn);
    case FaultAlloc(e, f, tab) => FaultAllocKeeps(s, e, f, tab);
    case FaultCopy(e) => FaultCopyKeeps(s, e);
    case FaultMap(e) => FaultMapKeeps(s, e);
    case ForkBegin(e, c, d, x, tab) => ForkBeginKeeps(s, e, c, d, x, tab);
    case ForkScan(e) => ForkScanKeeps(s, e);
    case DupChild(e, tab) => DupChildKeeps(s, e, tab);
    case DupParent(e) => DupParentKeeps(s, e);
    case ForkEnd(e) => ForkEndKeeps(s, e);
    case Exit(e) => ExitKeeps(s, e);
    case OutOfMemory(e) => OutOfMemoryKeeps(s, e);
  }

  // ----- The eager machine: every fork copies pages, nothing is shared -----

  type Spaces = map<nat, map<nat, Page>>

  /** Steps of a system whose forks copy each page, as duppage in user/dumbfork.c does. Depart is a last CopyPage and
      then Reap. */
  datatype EagerStep =
    | Idle
    | Write(e: nat, pn: nat, off: nat, v: int)
    | Zero(e: nat, pn: nat)
    | Spawn(c: nat)
    | CopyPage(e: nat, c: nat, pn: nat)
    | Reap(e: nat)
    | Depart(e: nat, c: nat, pn: nat)

  predicate EagerEnabled(i: Spaces, st: EagerStep) {
    match st
    case Idle => true
    case Write(e, pn, off, v) => e in i && pn in i[e] && off < |i[e][pn]|
    case Zero(e, pn) => e in i
    case Spawn(c) => c !in i
    case CopyPage(e, c, pn) => e in i && pn in i[e] && c in i && pn !in i[c]
    case Reap(e) => e in i
    case Depart(e, c, pn) => e in i && pn in i[e] && c in i && c != e && pn !in i[c]
  }

  function SetPage(i: Spaces, e: nat, pn: nat, page: Page): Spaces
    requires e in i
  {
    var space: map<nat, Page> := i[e];
    i[e := space[pn := page]]
  }

  function EagerApply(i: Spaces, st: EagerStep): Spaces
    requires EagerEnabled(i, st)
  {
    match st
    case Idle => i
    case Write(e, pn, off, v) => SetPage(i, e, pn, i[e][pn][off := v])
    case Zero(e, pn) => SetPage(i, e, pn, ZeroPage())
    case Spawn(c) => i[c := map[]]
    case CopyPage(e, c, pn) => SetPage(i, c, pn, i[e][pn])
    case Reap(e) => i - {e}
    case Depart(e, c, pn) => SetPage(i, c, pn, i[e][pn]) - {e}
  }

  // ----- What each environment reads -----

  /** The page `p` that the child `c` shares with a parent still between the two mappings of
      duppage: the parent may write it yet, so the copy is not taken yet. */
  predicate Hidden(s: State, c: nat, p: nat) {
    && Maps(s, c, p)
    && Pending(s, s.procs[c].parent, c, p)
    && Maps(s, s.procs[c].parent, p)
    && At(s, s.procs[c].parent, p).frame == At(s, c, p).frame
  }

  predicate Visible(s: State, e: nat, p: nat) {
    Maps(s, e, p) && p != PFTEMP && !Hidden(s, e, p)
  }

  ghost function Content(s: State, e: nat, p: nat): Page
    requires FramesOk(s) && Maps(s, e, p)
  {
    s.mem[At(s, e, p).frame]
  }

  ghost function EnvView(s: State, e: nat): map<nat, Page>
    requires FramesOk(s) && e in s.procs
  {
    map p | p in s.procs[e].space && Visible(s, e, p) :: Content(s, e, p)
  }

  /** For every environment, the pages it sees and the bytes it reads from them. */
  ghost function View(s: State): Spaces
    requires FramesOk(s)
  {
    map e | e in s.procs :: EnvView(s, e)
  }

  /** At page `p` environment `e` sees in `s` just what `i` holds there. */
  ghost predicate SeesAt(s: State, i: Spaces, e: nat, p: nat)
    requires FramesOk(s)
  {
    e in i ==> (p in i[e] <==> Visible(s, e, p)) && (Visible(s, e, p) ==> i[e][p] == Content(s, e, p))
  }

  lemma ViewIs(s: State, i: Spaces)
    requires FramesOk(s) && s.procs.Keys == i.Keys
    requires forall e: nat, p: nat :: SeesAt(s, i, e, p)
    ensures View(s) == i
  {
    forall e | e in i
      ensures EnvView(s, e) == i[e]
    {
      forall p: nat
        ensures p in EnvView(s, e) <==> p in i[e]
        ensures p in i[e] ==> EnvView(s, e)[p] == i[e][p]
      {
        assert SeesAt(s, i, e, p);
      }
    }
  }

  // ----- The simulation -----

  /** The eager step that a copy-on-write step amounts to. The copy of a page is taken when the
      parent gives up the shared frame or, failing that, when it makes its own mapping read-only or
      is destroyed between the two. */
  ghost function EagerOf(s: State, st: Step): EagerStep
    requires Enabled(s, st)
  {
    match st
    case Store(e, pn, off, v) => Write(e, pn, off, v)
    case PageAlloc(e, pn, _, _) => Zero(e, pn)
    case FaultMap(e) =>
      if s.procs[e].fork.Window? && s.procs[e].fork.pn == s.procs[e].fault.pn
         && Hidden(s, s.procs[e].fork.child, s.procs[e].fork.pn)
      then CopyPage(e, s.procs[e].fork.child, s.procs[e].fork.pn) else Idle
    case DupParent(e) =>
      if s.procs[e].fork.pn != PFTEMP && Hidden(s, s.procs[e].fork.child, s.procs[e].fork.pn)
      then CopyPage(e, s.procs[e].fork.child, s.procs[e].fork.pn) else Idle
    case ForkBegin(e, c, _, _, _) => Spawn(c)
    case Exit(e) =>
      if s.procs[e].fork.Window? && s.procs[e].fork.pn != PFTEMP && Hidden(s, s.procs[e].fork.child, s.procs[e].fork.pn)
      then Depart(e, s.procs[e].fork.child, s.procs[e].fork.pn) else Reap(e)
    case OutOfMemory(_) => Idle
    case FaultEnter(_, _) => Idle
    case FaultAlloc(_, _, _) => Idle
    case FaultCopy(_) => Idle
    case ForkScan(_) => Idle
    case DupChild(_, _) => Idle
    case ForkEnd(_) => Idle
  }

  /** After the step, slot (e2, p2) reads as the eager step makes it read. */
  ghost predicate StepSees(s: State, st: Step, e2: nat, p2: nat)
    requires Inv(s) && Enabled(s, st)
  {
    && Inv(Apply(s, st))
    && EagerEnabled(View(s), EagerOf(s, st))
    && SeesAt(Apply(s, st), EagerApply(View(s), EagerOf(s, st)), e2, p2)
  }

  /** The view of one slot. */
  lemma ViewAt(s: State, e: nat, p: nat)
    requires FramesOk(s)
    ensures e in View(s) <==> e in s.procs
    ensures e in s.procs ==>
      (p in View(s)[e] <==> Visible(s, e, p)) && (Visible(s, e, p) ==> View(s)[e][p] == Content(s, e, p))
  {
  }

  lemma StoreSees(s: State, e: nat, pn: nat, off: nat, v: int, e2: nat, p2: nat)
    requires Inv(s) && Enabled(s, Store(e, pn, off, v))
    ensures StepSees(s, Store(e, pn, off, v), e2, p2)
  {
    hide TablesExist, CanMap, Exhausted, Free, FaultOk, View, EnvView;
    ViewAt(s, e2, p2);
    ViewAt(s, e, pn);
    StoreKeeps(s, e, pn, off, v);
  }

  lemma PageAllocSees(s: State, e: nat, pn: nat, f: nat, tab: nat, e2: nat, p2: nat)
    requires Inv(s) && Enabled(s, PageAlloc(e, pn, f, tab))
    ensures StepSees(s, PageAlloc(e, pn, f, tab), e2, p2)
  {
    hide Exclusive, TablesExist, CanMap, Exhausted, FaultOk, View, EnvView;
    ViewAt(s, e2, p2);
    ViewAt(s, e, pn);
    PageAllocKeeps(s, e, pn, f, tab);
  }

  lemma FaultEnterSees(s: State, e: nat, pn: nat, e2: nat, p2: nat)
    requires Inv(s) && Enabled(s, FaultEnter(e, pn))
    ensures StepSees(s, FaultEnter(e, pn), e2, p2)
  {
    hide Exclusive, TablesExist, CanMap, Exhausted, Free, FaultOk, View, EnvView;
    ViewAt(s, e2, p2);
    FaultEnterKeeps(s, e, pn);
  }

  lemma FaultAllocSees(s: State, e: nat, f: nat, tab: nat, e2: nat, p2: nat)
    requires Inv(s) && Enabled(s, FaultAlloc(e, f, tab))
    ensures StepSees(s, FaultAlloc(e, f, tab), e2, p2)
  {
    hide Exclusive, TablesExist, CanMap, Exhausted, View, EnvView;
    ViewAt(s, e2, p2);
    FaultAllocKeeps(s, e, f, tab);
  }

  lemma FaultCopySees(s: State, e: nat, e2: nat, p2: nat)
    requires Inv(s) && Enabled(s, FaultCopy(e))
    ensures StepSees(s, FaultCopy(e), e2, p2)
  {
    hide Exclusive, TablesExist, CanMap, Exhausted, Free, View, EnvView;
    ViewAt(s, e2, p2);
    FaultCopyKeeps(s, e);
  }

  /** When pgfault has copied the whole page, its private copy reads like the shared page. */
  lemma CopyDone(s: State, e: nat)
    requires Inv(s) && Enabled(s, FaultMap(e))
    ensures Maps(s, e, PFTEMP) && Maps(s, e, s.procs[e].fault.pn)
    ensures Content(s, e, PFTEMP) == Content(s, e, s.procs[e].fault.pn) && Sole(s, e, PFTEMP)
  {
    var g, f := At(s, e, PFTEMP).frame, At(s, e, s.procs[e].fault.pn).frame;
    assert s.mem[g][..PGSIZE] == s.mem[g] && s.mem[f][..PGSIZE] == s.mem[f];
  }

  lemma FaultMapEager(s: State, e: nat)
    requires Inv(s) && Enabled(s, FaultMap(e))
    ensures EagerEnabled(View(s), EagerOf(s, FaultMap(e)))
    ensures !Hidden(s, e, s.procs[e].fault.pn)
  {
    hide Exclusive, TablesExist, CanMap, Exhausted, Free, View, EnvView;
    assert ForkOk(s, e) && (s.procs[e].parent in s.procs ==> ForkOk(s, s.procs[e].parent));
    ViewAt(s, e, s.procs[e].fault.pn);
    if s.procs[e].fork.Window? {
      ViewAt(s, s.procs[e].fork.child, s.procs[e].fork.pn);
    }
  }

  /** What becomes of the slots that pgfault's sys_page_map does not change. */
  lemma FaultMapOthers(s: State, e: nat, e2: nat, p2: nat)
    requires Inv(s) && Enabled(s, FaultMap(e)) && Inv(Apply(s, FaultMap(e)))
    requires (e2, p2) != (e, s.procs[e].fault.pn)
    ensures var t := Apply(s, FaultMap(e));
      && (Maps(s, e2, p2) <==> Maps(t, e2, p2))
      && (Maps(s, e2, p2) ==> Content(s, e2, p2) == Content(t, e2, p2))
      && (Hidden(t, e2, p2) <==> Hidden(s, e2, p2) && !(Pending(s, e, e2, p2) && p2 == s.procs[e].fault.pn))
  {
    hide TablesExist, CanMap, Exhausted, Free, Exclusive;
    CopyDone(s, e);
    assert SameSlotsBut(s, Apply(s, FaultMap(e)), e, s.procs[e].fault.pn);
    hide FaultOk, ForkOk;
  }

  lemma FaultMapSees(s: State, e: nat, e2: nat, p2: nat)
    requires Inv(s) && Enabled(s, FaultMap(e))
    ensures StepSees(s, FaultMap(e), e2, p2)
  {
    hide TablesExist, CanMap, Exhausted, Free, FaultOk, View, EnvView, EagerEnabled, Exclusive;
    FaultMapKeeps(s, e);
    FaultMapEager(s, e);
    ViewAt(s, e2, p2);
    ViewAt(s, e, s.procs[e].fault.pn);
    CopyDone(s, e);
    var t := Apply(s, FaultMap(e));
    if (e2, p2) != (e, s.procs[e].fault.pn) {
      FaultMapOthers(s, e, e2, p2);
    } else {
      assert t.procs[e].parent in t.procs ==> ForkOk(t, t.procs[e].parent);
    }
  }

  lemma ForkBeginSees(s: State, e: nat, c: nat, d: nat, x: nat, tab: nat, e2: nat, p2: nat)
    requires Inv(s) && Enabled(s, ForkBegin(e, c, d, x, tab))
    ensures StepSees(s, ForkBegin(e, c, d, x, tab), e2, p2)
  {
    hide Exclusive, TablesExist, CanMap, Exhausted, Free, FaultOk, View, EnvView;
    ViewAt(s, e2, p2);
    ViewAt(s, c, p2);
    ForkBeginKeeps(s, e, c, d, x, tab);
  }

  lemma ForkScanSees(s: State, e: nat, e2: nat, p2: nat)
    requires Inv(s) && Enabled(s, ForkScan(e))
    ensures StepSees(s, ForkScan(e), e2, p2)
  {
    hide Exclusive, TablesExist, CanMap, Exhausted, Free, FaultOk, View, EnvView;
    ViewAt(s, e2, p2);
    ForkScanKeeps(s, e);
  }

  lemma DupChildSees(s: State, e: nat, tab: nat, e2: nat, p2: nat)
    requires Inv(s) && Enabled(s, DupChild(e, tab))
    ensures StepSees(s, DupChild(e, tab), e2, p2)
  {
    hide Exclusive, TablesExist, CanMap, Exhausted, Free, FaultOk, View, EnvView;
    ViewAt(s, e2, p2);
    DupChildKeeps(s, e, tab);
  }

  lemma DupParentSees(s: State, e: nat, e2: nat, p2: nat)
    requires Inv(s) && Enabled(s, DupParent(e))
    ensures StepSees(s, DupParent(e), e2, p2)
  {
    hide Exclusive, TablesExist, CanMap, Exhausted, Free, FaultOk, View, EnvView;
    ViewAt(s, e2, p2);
    ViewAt(s, e, s.procs[e].fork.pn);
    ViewAt(s, s.procs[e].fork.child, s.procs[e].fork.pn);
    DupParentKeeps(s, e);
    DupParentOthers(s, e, e2, p2);
    assert ForkOk(s, e);
    hide ForkOk, ChildOk, Hidden;
  }

  /** duppage's second mapping changes what nobody reads, and hides nothing any more. */
  lemma DupParentOthers(s: State, e: nat, e2: nat, p2: nat)
    requires Inv(s) && Enabled(s, DupParent(e)) && Inv(Apply(s, DupParent(e)))
    ensures var t := Apply(s, DupParent(e));
      && (Maps(t, e2, p2) <==> Maps(s, e2, p2))
      && (Maps(t, e2, p2) ==>
            && Content(s, e2, p2) == Content(t, e2, p2)
            && (Hidden(t, e2, p2) <==> Hidden(s, e2, p2) && !Pending(s, e, e2, p2)))
    ensures !Hidden(s, e, s.procs[e].fork.pn)
  {
    hide Exclusive, TablesExist, CanMap, Exhausted, Free, FaultOk;
    assert ForkOk(s, e) && (s.procs[e].parent in s.procs ==> ForkOk(s, s.procs[e].parent));
    assert SameSlotsBut(s, Apply(s, DupParent(e)), e, s.procs[e].fork.pn);
  }

  lemma ForkEndSees(s: State, e: nat, e2: nat, p2: nat)
    requires Inv(s) && Enabled(s, ForkEnd(e))
    ensures StepSees(s, ForkEnd(e), e2, p2)
  {
    hide Exclusive, TablesExist, CanMap, Exhausted, Free, FaultOk, View, EnvView;
    ViewAt(s, e2, p2);
    ForkEndKeeps(s, e);
  }

  lemma ExitSees(s: State, e: nat, e2: nat, p2: nat)
    requires Inv(s) && Enabled(s, Exit(e))
    ensures StepSees(s, Exit(e), e2, p2)
  {
    hide Exclusive, TablesExist, CanMap, Exhausted, Free, FaultOk, View, EnvView;
    ExitKeeps(s, e);
    ExitOthers(s, e, e2, p2);
    assert ForkOk(s, e);
    hide ForkOk, Hidden;
    var t := Apply(s, Exit(e));
    ViewAt(s, e2, p2);
    if s.procs[e].fork.Window? {
      ViewAt(s, e, s.procs[e].fork.pn);
      ViewAt(s, s.procs[e].fork.child, s.procs[e].fork.pn);
    } else {
      ViewAt(s, e, p2);
    }
  }

  /** What becomes of the slots of other environments when one ends. */
  lemma ExitOthers(s: State, e: nat, e2: nat, p2: nat)
    requires Inv(s) && Enabled(s, Exit(e)) && Inv(Apply(s, Exit(e)))
    ensures var t := Apply(s, Exit(e));
      && (Maps(t, e2, p2) <==> e2 != e && Maps(s, e2, p2))
      && (Maps(t, e2, p2) ==>
            && Content(s, e2, p2) == Content(t, e2, p2)
            && (Hidden(t, e2, p2) <==> Hidden(s, e2, p2) && !Pending(s, e, e2, p2)))
    ensures !Hidden(s, e, p2)
  {
    hide Exclusive, TablesExist, CanMap, Exhausted, Free, FaultOk;
    assert ForkOk(s, e) && (s.procs[e].parent in s.procs ==> ForkOk(s, s.procs[e].parent));
  }

  lemma OutOfMemorySees(s: State, e: nat, e2: nat, p2: nat)
    requires Inv(s) && Enabled(s, OutOfMemory(e))
    ensures StepSees(s, OutOfMemory(e), e2, p2)
  {
    hide Exclusive, TablesExist, CanMap, Exhausted, Free, FaultOk, View, EnvView;
    ViewAt(s, e2, p2);
    OutOfMemoryKeeps(s, e);
    assert SameSlots(s, Apply(s, OutOfMemory(e)));
  }

  lemma AnySees(s: State, st: Step, e2: nat, p2: nat)
    requires Inv(s) && Enabled(s, st)
    ensures StepSees(s, st, e2, p2)
  {
    hide Free, CanMap, Exhausted;
    match st
    case Store(e, pn, off, v) => StoreSees(s, e, pn, off, v, e2, p2);
    case PageAlloc(e, pn, f, tab) => PageAllocSees(s, e, pn, f, tab, e2, p2);
    case FaultEnter(e, pn) => FaultEnterSees(s, e, pn, e2, p2);
    case FaultAlloc(e, f, tab) => FaultAllocSees(s, e, f, tab, e2, p2);
    case FaultCopy(e) => FaultCopySees(s, e, e2, p2);
    case FaultMap(e) => FaultMapSees(s, e, e2, p2);
    case ForkBegin(e, c, d, x, tab) => ForkBeginSees(s, e, c, d, x, tab, e2, p2);
    case ForkScan(e) => ForkScanSees(s, e, e2, p2);
    case DupChild(e, tab) => DupChildSees(s, e, tab, e2, p2);
    case DupParent(e) => DupParentSees(s, e, e2, p2);
    case ForkEnd(e) => ForkEndSees(s, e, e2, p2);
    case Exit(e) => ExitSees(s, e, e2, p2);
    case OutOfMemory(e) => OutOfMemorySees(s, e, e2, p2);
  }

  /** One step of the copy-on-write system is one step of the eager one. */
  lemma StepFollows(s: State, st: Step)
    requires Inv(s) && Enabled(s, st)
    ensures Inv(Apply(s, st))
    ensures EagerEnabled(View(s), EagerOf(s, st))
    ensures View(Apply(s, st)) == EagerApply(View(s), EagerOf(s, st))
  {
    AnySees(s, st, 0, 0);
    SameKeys(s, st);
    hide Inv, Enabled, Apply, View, EagerOf, EagerEnabled, EagerApply, SeesAt;
    var t, i := Apply(s, st), EagerApply(View(s), EagerOf(s, st));
    forall e2: nat, p2: nat
      ensures SeesAt(t, i, e2, p2)
    {
      AnySees(s, st, e2, p2);
    }
    InvFrames(t);
    ViewIs(t, i);
  }

  lemma InvFrames(s: State)
    requires Inv(s)
    ensures FramesOk(s)
  {
  }

  /** Both machines have the same environments. */
  lemma SameKeys(s: State, st: Step)
    requires Inv(s) && Enabled(s, st) && EagerEnabled(View(s), EagerOf(s, st))
    ensures Apply(s, st).procs.Keys == EagerApply(View(s), EagerOf(s, st)).Keys
  {
    hide Exclusive, TablesExist, CanMap, Exhausted, Free, FaultOk, View, EnvView, Apply, EagerApply;
    ViewKeys(s);
    StepKeys(s, st);
    EagerKeys(View(s), EagerOf(s, st));
  }

  lemma ViewKeys(s: State)
    requires FramesOk(s)
    ensures View(s).Keys == s.procs.Keys
  {
  }

  lemma StepKeys(s: State, st: Step)
    requires Inv(s) && Enabled(s, st)
    ensures Apply(s, st).procs.Keys ==
            if st.ForkBegin? then s.procs.Keys + {st.newenv}
            else if st.Exit? then s.procs.Keys - {st.e}
            else s.procs.Keys
  {
    hide Exclusive, TablesExist, CanMap, Exhausted, Free, FaultOk, FramesOk;
    if st.DupChild? || st.ForkEnd? {
      assert ForkOk(s, st.e);
    }
  }

  lemma EagerKeys(i: Spaces, st: EagerStep)
    requires EagerEnabled(i, st)
    ensures EagerApply(i, st).Keys ==
            if st.Spawn? then i.Keys + {st.c} else if st.Reap? || st.Depart? then i.Keys - {st.e} else i.Keys
  {
  }

  // ----- Whole runs -----

  ghost predicate Run(states: seq<State>, steps: seq<Step>) {
    && |states| == |steps| + 1
    && forall k :: 0 <= k < |steps| ==> Enabled(states[k], steps[k]) && states[k + 1] == Apply(states[k], steps[k])
  }

  /** No environment has forked or faulted, and their pages are private. */
  ghost predicate Boot(s: State) {
    && FramesOk(s) && TablesExist(s)
    && (forall e :: e in s.procs ==> s.procs[e].fork == NoFork && s.procs[e].fault == NoFault)
    && (forall e: nat, p: nat :: Maps(s, e, p) ==> Sole(s, e, p))
  }

  lemma InitInv(s: State)
    requires Boot(s)
    ensures Inv(s)
  {
  }

  lemma {:induction false} RunKeeps(states: seq<State>, steps: seq<Step>, k: nat)
    requires Run(states, steps) && Inv(states[0]) && k <= |steps|
    ensures Inv(states[k])
  {
    if k > 0 {
      RunKeeps(states, steps, k - 1);
      StepKeeps(states[k - 1], steps[k - 1]);
    }
  }

  /** `eager` executes, from the same contents, the eager step that each step amounts to. */
  ghost predicate EagerRun(eager: seq<Spaces>, states: seq<State>, steps: seq<Step>)
    requires Run(states, steps) && FramesOk(states[0])
  {
    && |eager| == |states|
    && eager[0] == View(states[0])
    && forall k :: 0 <= k < |steps| ==>
         EagerEnabled(eager[k], EagerOf(states[k], steps[k])) ==>
           eager[k + 1] == EagerApply(eager[k], EagerOf(states[k], steps[k]))
  }

  /** Page `p` of `e` reads in `i` as it does in `s`. */
  ghost predicate SamePage(s: State, i: Spaces, e: nat, p: nat)
    requires FramesOk(s) && e in s.procs
  {
    && e in i && (p in i[e] <==> Maps(s, e, p))
    && (Maps(s, e, p) ==> i[e][p] == Content(s, e, p))
  }

  /** Copy-on-write fork refines eager copying, over every run: the eager system never gets stuck,
      and every running environment has the same pages with the same bytes in both systems. */
  lemma {:induction false} CowRefinesEager(states: seq<State>, steps: seq<Step>, eager: seq<Spaces>, k: nat)
    requires Run(states, steps) && Inv(states[0]) && EagerRun(eager, states, steps) && k <= |steps|
    ensures Inv(states[k]) && eager[k] == View(states[k])
    ensures k < |steps| ==> EagerEnabled(eager[k], EagerOf(states[k], steps[k]))
    ensures forall e: nat, p: nat :: e in states[k].procs && states[k].procs[e].runnable && p != PFTEMP ==>
      SamePage(states[k], eager[k], e, p)
  {
    RunKeeps(states, steps, k);
    if k > 0 {
      CowRefinesEager(states, steps, eager, k - 1);
      StepFollows(states[k - 1], steps[k - 1]);
    }
    if k < |steps| {
      StepFollows(states[k], steps[k]);
    }
    forall e: nat, p: nat | e in states[k].procs && states[k].procs[e].runnable && p != PFTEMP
      ensures SamePage(states[k], eager[k], e, p)
    {
      RunningSeesAll(states[k], e, p);
    }
  }

  /** Every run from boot is matched by a run of the eager system: it starts with the pages that all
      environments have then, takes the eager step of each step, and has in every state the pages of every
      running environment. */
  lemma RunFromBoot(states: seq<State>, steps: seq<Step>) returns (eager: seq<Spaces>)
    requires Run(states, steps) && Boot(states[0])
    ensures EagerRun(eager, states, steps)
    ensures forall k :: 0 <= k < |steps| ==> EagerEnabled(eager[k], EagerOf(states[k], steps[k]))
    ensures eager[0].Keys == states[0].procs.Keys
    ensures forall e: nat, p: nat :: e in states[0].procs && p != PFTEMP ==> SamePage(states[0], eager[0], e, p)
    ensures forall k, e: nat, p: nat ::
      0 <= k < |states| && e in states[k].procs && states[k].procs[e].runnable && p != PFTEMP ==>
      FramesOk(states[k]) && SamePage(states[k], eager[k], e, p)
  {
    hide Inv, Boot, Enabled, Apply, View, EagerOf, EagerApply, EagerEnabled, FramesOk;
    InitInv(states[0]);
    forall k | 0 <= k < |states| ensures Inv(states[k]) && FramesOk(states[k]) {
      RunKeeps(states, steps, k);
      InvFrames(states[k]);
    }
    eager := seq(|states|, k requires 0 <= k < |states| => View(states[k]));
    forall k | 0 <= k < |steps|
      ensures EagerEnabled(eager[k], EagerOf(states[k], steps[k]))
      ensures eager[k + 1] == EagerApply(eager[k], EagerOf(states[k], steps[k]))
    {
      StepFollows(states[k], steps[k]);
    }
    BootView(states[0]);
    forall k, e: nat, p: nat | 0 <= k < |states| && e in states[k].procs && states[k].procs[e].runnable && p != PFTEMP
      ensures SamePage(states[k], eager[k], e, p)
    {
      CowRefinesEager(states, steps, eager, k);
    }
  }

  /** At boot nothing is hidden. */
  lemma BootView(s: State)
    requires Boot(s)
    ensures View(s).Keys == s.procs.Keys
    ensures forall e: nat, p: nat :: e in s.procs && p != PFTEMP ==> SamePage(s, View(s), e, p)
  {
  }

  /** Only a child that is not yet running has hidden pages. */
  lemma RunningSeesAll(s: State, e: nat, p: nat)
    requires Inv(s) && e in s.procs && s.procs[e].runnable
    ensures Visible(s, e, p) <==> Maps(s, e, p) && p != PFTEMP
  {
    assert s.procs[e].parent in s.procs ==> ForkOk(s, s.procs[e].parent);
  }

  /** The steps of pgfault and fork. */
  predicate OwnStep(st: Step, e: nat) {
    && st.e == e
    && (st.FaultAlloc? || st.FaultCopy? || st.FaultMap? || st.ForkScan? || st.DupChild? || st.DupParent? || st.ForkEnd?)
  }

  /** An environment inside pgfault() or fork() can always take its next step: no lookup misses, no memmove faults,
      and the only system calls that can fail are that of pgfault for the copy and that of duppage for a new table
      of the child, which fail, and panic, exactly when memory is exhausted. */
  lemma NeverStuck(s: State, e: nat)
    requires Inv(s) && e in s.procs && s.procs[e].fault != Panicked
    requires s.procs[e].fault != NoFault || s.procs[e].fork != NoFork
    ensures (exists st :: OwnStep(st, e) && Enabled(s, st)) <==> !Exhausted(s, e)
    ensures Enabled(s, OutOfMemory(e)) <==> Exhausted(s, e)
  {
    hide Exclusive, FramesOk, TablesExist, Free, CanMap, ForkOk, FaultOk;
    match s.procs[e].fault
    case Alloc(_, _) => AllocStuck(s, e);
    case Copy(_, _, _) => CopyGoesOn(s, e);
    case NoFault =>
      if s.procs[e].fork.Dup? {
        DupStuck(s, e);
      } else {
        ForkGoesOn(s, e);
      }
  }

  lemma AllocStuck(s: State, e: nat)
    requires Inv(s) && e in s.procs && s.procs[e].fault.Alloc?
    ensures (exists st :: OwnStep(st, e) && Enabled(s, st)) <==> !Exhausted(s, e)
  {
    hide Inv, Free, CanMap;
    if f, tab :| Free(s, f) && CanMap(s, e, PFTEMP, f, tab) {
      assert OwnStep(FaultAlloc(e, f, tab), e) && Enabled(s, FaultAlloc(e, f, tab));
    }
  }

  lemma CopyGoesOn(s: State, e: nat)
    requires Inv(s) && e in s.procs && s.procs[e].fault.Copy?
    ensures exists st :: OwnStep(st, e) && Enabled(s, st)
  {
    hide Exclusive, Free, CanMap, ForkOk, Exhausted;
    assert FaultOk(s, e);
    assert OwnStep(FaultCopy(e), e) && OwnStep(FaultMap(e), e) && (Enabled(s, FaultCopy(e)) || Enabled(s, FaultMap(e)));
  }

  lemma ForkGoesOn(s: State, e: nat)
    requires Inv(s) && e in s.procs && s.procs[e].fault == NoFault && (s.procs[e].fork.Scan? || s.procs[e].fork.Window?)
    ensures exists st :: OwnStep(st, e) && Enabled(s, st)
  {
    hide Exclusive, FramesOk, Free, CanMap, FaultOk, Exhausted;
    assert ForkOk(s, e);
    if s.procs[e].fork.Scan? {
      assert OwnStep(ForkScan(e), e) && OwnStep(ForkEnd(e), e) && (Enabled(s, ForkScan(e)) || Enabled(s, ForkEnd(e)));
    } else {
      assert OwnStep(DupParent(e), e) && Enabled(s, DupParent(e));
    }
  }

  lemma DupStuck(s: State, e: nat)
    requires Inv(s) && e in s.procs && s.procs[e].fault == NoFault && s.procs[e].fork.Dup?
    ensures (exists st :: OwnStep(st, e) && Enabled(s, st)) <==> !Exhausted(s, e)
  {
    assert ForkOk(s, e);
    var c, pn := s.procs[e].fork.child, s.procs[e].fork.pn;
    if s.procs[c].HasTable(pn) {
      assert OwnStep(DupChild(e, 0), e) && Enabled(s, DupChild(e, 0));
    } else if tab :| Free(s, tab) {
      assert OwnStep(DupChild(e, tab), e) && Enabled(s, DupChild(e, tab));
    }
  }

  /** Outside the two calls of duppage, a page that an environment may write is mapped by nobody
      else; inside them, only by the child that is still being built, at the same page. */
  lemma WritableIsPrivate(s: State, e: nat, p: nat, e2: nat, p2: nat)
    requires Inv(s) && Maps(s, e, p) && Maps(s, e2, p2) && p != PFTEMP && p2 != PFTEMP
    requires W in At(s, e, p).flags && (e2 != e || p2 != p) && At(s, e2, p2).frame == At(s, e, p).frame
    ensures p2 == p && s.procs[e].fork.Window? && s.procs[e].fork.child == e2 && s.procs[e].fork.pn == p
    ensures !s.procs[e2].runnable && W !in At(s, e2, p2).flags
  {
    assert ForkOk(s, e);
  }

  /** duppage's order is safe: however many stores and faults the parent took between the two
      calls, after the second the frame the child has at that page is writable through no slot. */
  lemma DuppageSafe(s: State, e: nat, e2: nat, p2: nat)
    requires Inv(s) && Enabled(s, DupParent(e)) && s.procs[e].fork.pn != PFTEMP && p2 != PFTEMP
    ensures var t, c, pn := Apply(s, DupParent(e)), s.procs[e].fork.child, s.procs[e].fork.pn;
      && Maps(t, c, pn)
      && (Maps(t, e2, p2) && At(t, e2, p2).frame == At(t, c, pn).frame ==> W !in At(t, e2, p2).flags)
  {
    DupParentKeeps(s, e);
    var t, c, pn := Apply(s, DupParent(e)), s.procs[e].fork.child, s.procs[e].fork.pn;
    assert ForkOk(s, e) && SameSlotsBut(s, t, e, pn);
    assert Maps(t, c, pn) && W !in At(t, c, pn).flags;
    assert ForkOk(t, e) && (e2 in t.procs ==> ForkOk(t, e2));
  }

  // ----- What a finished fork has copied -----

  ghost predicate AllWritableOrCow(s: State) {
    forall e: nat, p: nat :: Maps(s, e, p) ==> WritableOrCow(At(s, e, p))
  }

  /** `e` has given its child every page below the scan position, and no other. */
  ghost predicate Duplicated(s: State, e: nat)
    requires e in s.procs
  {
    s.procs[e].fork != NoFork ==>
      && s.procs[e].fork.pn <= USTACK + 1
      && (!s.procs[e].fork.Scan? ==> s.procs[e].fork.pn <= USTACK && COW in s.procs[e].fork.perm)
      && forall p: nat :: p != PFTEMP ==>
           (Maps(s, s.procs[e].fork.child, p) <==>
            Maps(s, e, p) && (p < s.procs[e].fork.pn || (s.procs[e].fork.Window? && p == s.procs[e].fork.pn)))
  }

  ghost predicate CopyInv(s: State) {
    && Inv(s) && AllWritableOrCow(s)
    && forall e :: e in s.procs ==> Duplicated(s, e)
  }

  lemma WritableOrCowKeeps(s: State, st: Step)
    requires CopyInv(s) && Enabled(s, st)
    ensures AllWritableOrCow(Apply(s, st))
  {
    SlotEffects(s, st);
  }

  lemma ScanStepDuplicates(s: State, st: Step, e2: nat)
    requires CopyInv(s) && Enabled(s, st) && Inv(Apply(s, st)) && e2 in Apply(s, st).procs
    requires st.ForkBegin? || st.ForkScan? || st.ForkEnd? || st.Exit?
    ensures Duplicated(Apply(s, st), e2)
  {
    hide Exclusive, FramesOk, TablesExist, FaultOk, Free, CanMap, Exhausted;
    SlotEffects(s, st);
    if e2 in s.procs {
      assert Duplicated(s, e2) && ForkOk(s, e2);
    }
  }

  lemma DupStepDuplicates(s: State, st: Step, e2: nat)
    requires CopyInv(s) && Enabled(s, st) && Inv(Apply(s, st)) && e2 in Apply(s, st).procs
    requires st.DupChild? || st.DupParent?
    ensures Duplicated(Apply(s, st), e2)
  {
    hide Exclusive, FramesOk, TablesExist, FaultOk, Free, CanMap, Exhausted;
    SlotEffects(s, st);
    assert Duplicated(s, e2) && ForkOk(s, e2);
  }

  lemma DuplicatedKeeps(s: State, st: Step, e2: nat)
    requires CopyInv(s) && Enabled(s, st) && Inv(Apply(s, st)) && e2 in Apply(s, st).procs
    ensures Duplicated(Apply(s, st), e2)
  {
    hide Exclusive, FramesOk, TablesExist, FaultOk, Free, CanMap, Exhausted;
    if st.ForkBegin? || st.ForkScan? || st.ForkEnd? || st.Exit? {
      ScanStepDuplicates(s, st, e2);
    } else if st.DupChild? || st.DupParent? {
      DupStepDuplicates(s, st, e2);
    } else {
      MemoryStepDuplicates(s, st, e2);
    }
  }

  /** The steps of user code and of pgfault. */
  predicate MemoryStep(st: Step) {
    st.Store? || st.PageAlloc? || st.FaultEnter? || st.FaultAlloc? || st.FaultCopy? || st.FaultMap? || st.OutOfMemory?
  }

  /** They map no new pages, except by sys_page_alloc and at PFTEMP. */
  lemma MapsStay(s: State, st: Step)
    requires Inv(s) && Enabled(s, st) && MemoryStep(st)
    ensures Apply(s, st).procs.Keys == s.procs.Keys
    ensures forall e :: e in s.procs ==> Apply(s, st).procs[e].fork == s.procs[e].fork
    ensures forall e: nat, p: nat :: p != PFTEMP && (st.PageAlloc? ==> e != st.e) ==>
      (Maps(Apply(s, st), e, p) <==> Maps(s, e, p))
  {
    hide Exclusive, TablesExist, Free, CanMap, Exhausted, ForkOk, FaultOk;
    if st.FaultMap? {
      CopyDone(s, st.e);
    }
  }

  lemma MemoryStepDuplicates(s: State, st: Step, e2: nat)
    requires CopyInv(s) && Enabled(s, st) && MemoryStep(st) && e2 in Apply(s, st).procs
    ensures Duplicated(Apply(s, st), e2)
  {
    hide Exclusive, FramesOk, TablesExist, FaultOk, Free, CanMap, Exhausted, Apply, Maps;
    MapsStay(s, st);
    assert Duplicated(s, e2) && ForkOk(s, e2);
  }

  lemma CopyInvKeeps(s: State, st: Step)
    requires CopyInv(s) && Enabled(s, st)
    ensures CopyInv(Apply(s, st))
  {
    StepKeeps(s, st);
    WritableOrCowKeeps(s, st);
    forall e | e in Apply(s, st).procs
      ensures Duplicated(Apply(s, st), e)
    {
      DuplicatedKeeps(s, st, e);
    }
  }

  /** If every page is writable or copy-on-write, a fork that returns has given the child exactly
      the parent's pages up to the stack page. */
  lemma ForkCopiesAll(s: State, e: nat)
    requires CopyInv(s) && Enabled(s, ForkEnd(e))
    ensures forall p: nat :: p != PFTEMP ==>
      (Maps(Apply(s, ForkEnd(e)), s.procs[e].fork.child, p) <==> Maps(s, e, p) && p <= USTACK)
  {
    assert Duplicated(s, e);
    ForkEndKeeps(s, e);
    assert SameSlots(s, Apply(s, ForkEnd(e)));
  }

  lemma {:induction false} RunKeepsCopies(states: seq<State>, steps: seq<Step>, k: nat)
    requires Run(states, steps) && CopyInv(states[0]) && k <= |steps|
    ensures CopyInv(states[k])
  {
    if k > 0 {
      RunKeepsCopies(states, steps, k - 1);
      CopyInvKeeps(states[k - 1], steps[k - 1]);
    }
  }

  /** Slot (e, p) can be stored to, and another slot maps its frame. */
  ghost predicate SharedWritable(s: State, e: nat, p: nat) {
    p != PFTEMP && Maps(s, e, p) && W in At(s, e, p).flags && exists e2: nat, p2: nat :: Shares(s, e, p, e2, p2)
  }

  predicate Shares(s: State, e: nat, p: nat, e2: nat, p2: nat)
    requires Maps(s, e, p)
  {
    p2 != PFTEMP && Maps(s, e2, p2) && (e2 != e || p2 != p) && At(s, e2, p2).frame == At(s, e, p).frame
  }

  /** When a fork returns, in any run of environments whose pages are all writable or copy-on-write: the child has
      the parent's pages up to the stack page, and no page that parent or child may write is mapped anywhere else. */
  lemma ForkReturns(states: seq<State>, steps: seq<Step>, e: nat, k: nat)
    requires Run(states, steps) && CopyInv(states[0]) && k < |steps| && steps[k] == ForkEnd(e)
    ensures var t, c := states[k + 1], states[k].procs[e].fork.child;
      forall p: nat :: p != PFTEMP ==>
        && (Maps(t, c, p) <==> Maps(t, e, p) && p * PGSIZE <= 0xeebf_d000)
        && !SharedWritable(t, e, p) && !SharedWritable(t, c, p)
  {
    RunKeepsCopies(states, steps, k);
    RunKeepsCopies(states, steps, k + 1);
    var s, t, c := states[k], states[k + 1], states[k].procs[e].fork.child;
    ForkCopiesAll(s, e);
    SlotEffects(s, ForkEnd(e));
    assert ForkOk(s, e) && t.procs[e].fork == NoFork && t.procs[c].fork == NoFork;
    forall p: nat | p != PFTEMP
      ensures Maps(s, e, p) <==> Maps(t, e, p)
      ensures !SharedWritable(t, e, p) && !SharedWritable(t, c, p)
    {
      forall a: nat, e2: nat, p2: nat | (a == e || a == c) && Maps(t, a, p) && W in At(t, a, p).flags
        ensures !Shares(t, a, p, e2, p2)
      {
        if Shares(t, a, p, e2, p2) {
          WritableIsPrivate(t, a, p, e2, p2);
        }
      }
    }
  }

  /** duppage will map page `p` into the child: it was mapped, writable or copy-on-write, when
      fork() read its entry. */
  predicate Copyable(s: State, e: nat, p: nat) {
    Maps(s, e, p) && WritableOrCow(At(s, e, p))
  }

  /** What becomes of the page `p` that fork() scanned: unless copyable it is skipped for good. */
  ghost predicate Scanned(s: State, e: nat, c: nat, p: nat, copyable: bool) {
    && e in s.procs && s.procs[e].fork != NoFork && s.procs[e].fork.child == c
    && (s.procs[e].fork.pn > p ==> (Maps(s, c, p) <==> copyable))
    && (s.procs[e].fork.pn <= p ==> s.procs[e].fork.pn == p && copyable && !s.procs[e].fork.Scan?)
  }

  lemma ScannedKeeps(s: State, st: Step, e: nat, c: nat, p: nat, copyable: bool)
    requires Inv(s) && Enabled(s, st) && Scanned(s, e, c, p, copyable) && st != ForkEnd(e) && st != Exit(e)
    ensures Scanned(Apply(s, st), e, c, p, copyable)
  {
    hide Exclusive, FramesOk, TablesExist, FaultOk, Free, CanMap, Exhausted;
    StepKeeps(s, st);
    SlotEffects(s, st);
    assert ForkOk(s, e);
  }

  lemma ScanStarts(s: State, e: nat)
    requires Inv(s) && Enabled(s, ForkScan(e))
    ensures var c, pn := s.procs[e].fork.child, s.procs[e].fork.pn;
      Scanned(Apply(s, ForkScan(e)), e, c, pn, Copyable(s, e, pn))
  {
    assert ForkOk(s, e);
    SlotEffects(s, ForkScan(e));
  }

  lemma ScanEnds(s: State, e: nat, c: nat, p: nat, copyable: bool)
    requires Inv(s) && Enabled(s, ForkEnd(e)) && Scanned(s, e, c, p, copyable) && p <= USTACK
    ensures var t := Apply(s, ForkEnd(e));
      c in t.procs && t.procs[c].runnable && (Maps(t, c, p) <==> copyable)
  {
    assert ForkOk(s, e);
    SlotEffects(s, ForkEnd(e));
  }

  /** fork() gives its child page `p` if and only if the parent's entry was writable or
      copy-on-write when it was scanned; a read-only page is left out, although dumbfork would
      copy it. Between the scan and the end of the fork anything else may happen. */
  lemma {:induction false} ForkCopiesPageIff(states: seq<State>, steps: seq<Step>, e: nat, i: nat, j: nat)
    requires Run(states, steps) && Inv(states[0])
    requires i < j < |steps| && steps[i] == ForkScan(e) && steps[j] == ForkEnd(e)
    requires forall k :: i < k < j ==> steps[k] != ForkEnd(e) && steps[k] != Exit(e)
    ensures var c, p := states[i].procs[e].fork.child, states[i].procs[e].fork.pn;
      && c in states[j + 1].procs && states[j + 1].procs[c].runnable
      && (Maps(states[j + 1], c, p) <==>
            Maps(states[i], e, p) && (W in At(states[i], e, p).flags || COW in At(states[i], e, p).flags))
  {
    var c, p := states[i].procs[e].fork.child, states[i].procs[e].fork.pn;
    RunKeeps(states, steps, i);
    ScanStarts(states[i], e);
    var k := i + 1;
    while k < j
      invariant i < k <= j
      invariant Scanned(states[k], e, c, p, Copyable(states[i], e, p))
    {
      RunKeeps(states, steps, k);
      ScannedKeeps(states[k], steps[k], e, c, p, Copyable(states[i], e, p));
      k := k + 1;
    }
    RunKeeps(states, steps, j);
    ScanEnds(states[j], e, c, p, Copyable(states[i], e, p));
  }
}
