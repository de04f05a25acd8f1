/** Several CPUs running environments under the big kernel lock (kern/trap.c, kern/env.c,
    kern/sched.c, kern/syscall.c, lib/ipc.c), as a machine whose steps interleave freely. */
module MultiCpu {
  import Mmu
  import opened Envs
  import opened Sched
  import opened Lists

  /** Where a CPU stands. Entry: trap() has the lock. Ret: at the end of trap(). Yield: in sched_yield.
      Leaving: in env_run, after unlock_kernel and before lcr3. Stopped: in the kernel monitor or a panic. */
  datatype Mode = Boot | User | Spin | Entry | Ret | Yield | Leaving | Stopped

  /** Where the program of an environment stands in ipc_recv: blocked, about to read env_ipc_from,
      or about to read env_ipc_value. */
  datatype Phase = Quiet | Asking | Unread | HaveFrom(from: int)

  /** A message for the `gen`-th environment of slot `slot`. */
  datatype Msg = Msg(from: int, slot: nat, gen: nat, value: int)

  /** `gens` counts the environments each slot has held; `sent` records the successful calls of
      sys_ipc_try_send and `got` the values that ipc_recv has returned. */
  datatype State = State(
    t: Table, mode: seq<Mode>, lock: int, gens: seq<nat>, phase: seq<Phase>, sent: seq<Msg>, got: seq<Msg>)

  datatype Step =
    | Acquire(c: nat)
    | Trap(c: nat)
    | Leave(c: nat)
    | ReadFrom(c: nat)
    | ReadValue(c: nat)
    | Reap(c: nat)
    | Handle(c: nat)
    | YieldCall(c: nat)
    | Destroy(c: nat, e: nat)
    | Fork(c: nat, dir: int)
    | Status(c: nat, e: nat, status: Envs.Status)
    | Recv(c: nat, dstva: Va)
    | SendTo(c: nat, e: nat, value: int, perm: Mmu.Flags)
    | Return(c: nat)
    | Resched(c: nat, choice: Choice)

  predicate Holding(m: Mode) {
    m == Entry || m == Ret || m == Yield || m == Stopped
  }

  // ----- The invariant of the table, the CPUs and the lock -----

  /** The mode of CPU `c` agrees with curenv, cr3 and the status of curenv. */
  ghost predicate CpuOk(t: Table, m: Mode, c: nat)
    requires Shape(t) && c < |t.cur|
  {
    var e := t.cur[c];
    if e == NONE then t.cr3[c] == KERNDIR && (m == Boot || m == Yield || m == Stopped)
    else
      var x := t.envs[e];
      && x.pgdir != NONE && m != Boot
      && (m != Leaving ==> t.cr3[c] == x.pgdir)
      && (if m == Ret || m == Yield || m == Stopped
          then x.status == Running || x.status == Runnable || x.status == NotRunnable
          else x.status == Running || x.status == Dying)
  }

  ghost predicate CpusOk(t: Table, mode: seq<Mode>, lock: int) {
    && Shape(t) && |mode| == |t.cur|
    && (forall c: nat :: c < |mode| ==> CpuOk(t, mode[c], c))
    && (forall c: nat :: c < |mode| ==> (Holding(mode[c]) <==> lock == c))
    && Once(t)
  }

  /** No environment is curenv of two CPUs. */
  ghost predicate Once(t: Table) {
    forall c: nat, d: nat :: c < |t.cur| && d < |t.cur| && c != d && t.cur[c] != NONE ==> t.cur[c] != t.cur[d]
  }

  /** No two environments share a page directory. */
  ghost predicate DirsOk(t: Table) {
    forall e: nat, f: nat :: e < |t.envs| && f < |t.envs| && e != f && t.envs[e].pgdir != NONE ==>
      t.envs[e].pgdir != t.envs[f].pgdir
  }

  /** Slot `e` is curenv of some CPU. */
  ghost predicate Current(t: Table, e: nat) {
    exists c: nat :: c < |t.cur| && t.cur[c] == e
  }

  ghost predicate EnvsOk(t: Table) {
    && Shape(t) && Distinct(t.free)
    && (forall e: nat :: e < NENV ==> (t.envs[e].status == Free <==> e in t.free))
    && (forall e: nat :: e < NENV ==> (t.envs[e].status == Free <==> t.envs[e].pgdir == NONE))
    && (forall e: nat :: e < NENV && t.envs[e].recving ==> t.envs[e].status == Free || t.envs[e].status == NotRunnable)
    && (forall e: nat :: e < NENV && (t.envs[e].status == Running || t.envs[e].status == Dying) ==> Current(t, e))
    && DirsOk(t)
  }

  /** The idle environment of each CPU lives and runs nowhere else. */
  ghost predicate IdleOk(t: Table) {
    && Shape(t)
    && (forall e: nat :: e < |t.cur| ==> t.envs[e].idle)
    && (forall e: nat :: e < NENV && t.envs[e].idle ==>
          t.envs[e].parent == 0 && (t.envs[e].status == Runnable || t.envs[e].status == Running))
    && (forall c: nat :: c < |t.cur| && t.cur[c] != NONE && t.envs[t.cur[c]].idle ==> t.cur[c] == c)
  }

  ghost predicate KernelOk(s: State) {
    && CpusOk(s.t, s.mode, s.lock) && NONE <= s.lock < |s.mode| && EnvsOk(s.t) && IdleOk(s.t) && IdsOk(s.t, s.gens)
    && |s.phase| == NENV
  }

  // ----- The steps -----

  ghost predicate Typed(s: State) {
    Shape(s.t) && |s.mode| == |s.t.cur| && |s.phase| == NENV && |s.gens| == NENV
  }

  /** CPU `c` runs environment cur[c] in mode `m`. */
  predicate In(s: State, c: nat, m: Mode)
    requires |s.mode| == |s.t.cur|
  {
    c < |s.mode| && s.mode[c] == m && s.t.cur[c] != NONE
  }

  /** CPU `c` is in trap(), has the lock, and its environment is not a zombie and not an idle one:
      idle programs only trap and yield. */
  ghost predicate InCall(s: State, c: nat)
    requires Typed(s)
  {
    In(s, c, Entry) && s.t.envs[s.t.cur[c]].status == Running && !s.t.envs[s.t.cur[c]].idle
  }

  /** The uses of sys_env_set_status that are sound: on oneself, or on an environment that neither runs
      nor waits for a message (as fork does with its child). */
  ghost predicate StatusSafe(t: Table, c: nat, e: nat, status: Envs.Status)
    requires Shape(t) && c < |t.cur| && e < NENV
  {
    && (e == t.cur[c] || (t.envs[e].status != Running && t.envs[e].status != Dying))
    && !(t.envs[e].recving && status == Runnable)
  }

  ghost predicate Enabled(s: State, st: Step)
    requires Typed(s)
  {
    && st.c < |s.mode|
    && match st
       case Acquire(c) => (s.mode[c] == Boot || s.mode[c] == Spin) && s.lock == NONE
       case Trap(c) => In(s, c, User)
       case Leave(c) => In(s, c, Leaving)
       case ReadFrom(c) => In(s, c, User) && s.phase[s.t.cur[c]] == Unread
       case ReadValue(c) => In(s, c, User) && s.phase[s.t.cur[c]].HaveFrom?
       case Reap(c) => In(s, c, Entry) && s.t.envs[s.t.cur[c]].status == Dying
       case Handle(c) => In(s, c, Entry) && s.t.envs[s.t.cur[c]].status == Running
       case YieldCall(c) => In(s, c, Entry) && s.t.envs[s.t.cur[c]].status == Running
       case Destroy(c, e) => InCall(s, c) && May(s.t, c, e) && s.t.envs[e].status != Dying
       case Fork(c, dir) =>
         InCall(s, c) && s.t.free != [] && dir >= 0 && forall e :: 0 <= e < NENV ==> s.t.envs[e].pgdir != dir
       case Status(c, e, status) =>
         && InCall(s, c) && May(s.t, c, e) && StatusSafe(s.t, c, e, status)
         && (status == Runnable || status == NotRunnable)
       case Recv(c, dstva) => InCall(s, c) && s.phase[s.t.cur[c]] == Quiet
       case SendTo(c, e, value, perm) => InCall(s, c) && e < NENV && s.t.envs[e].status != Free && s.t.envs[e].recving
       case Return(c) => s.mode[c] == Ret
       case Resched(c, choice) => s.mode[c] == Yield && Chooses(s.t, c, choice)
  }

  /** The state with a new table and CPU `c` in a new mode. */
  function Go(s: State, t: Table, c: nat, m: Mode): State
    requires c < |s.mode|
  {
    State(t, s.mode[c := m], s.lock, s.gens, s.phase, s.sent, s.got)
  }

  function WithLock(s: State, lock: int): State {
    State(s.t, s.mode, lock, s.gens, s.phase, s.sent, s.got)
  }

  function WithPhase(s: State, e: nat, p: Phase): State
    requires e < |s.phase|
  {
    State(s.t, s.mode, s.lock, s.gens, s.phase[e := p], s.sent, s.got)
  }

  function Acquired(s: State, c: nat): State
    requires c < |s.mode|
  {
    WithLock(Go(s, s.t, c, if s.mode[c] == Boot then Yield else Entry), c)
  }

  /** env_run: the table changes and the lock is released. */
  function Ran(s: State, c: nat, e: nat): State
    requires Typed(s) && c < |s.mode| && e < NENV
  {
    WithLock(Go(s, RunEnv(s.t, c, e), c, Leaving), NONE)
  }

  function Forked(s: State, c: nat, dir: int): State
    requires Typed(s) && c < |s.mode| && s.t.cur[c] != NONE && s.t.free != []
  {
    var e := s.t.free[0];
    State(Exofork(s.t, c, dir), s.mode[c := Ret], s.lock, s.gens[e := s.gens[e] + 1], s.phase[e := Quiet],
          s.sent, s.got)
  }

  function Delivered(s: State, c: nat, e: nat, value: int, perm: Mmu.Flags): State
    requires Typed(s) && c < |s.mode| && s.t.cur[c] != NONE && e < NENV
  {
    State(Send(s.t, c, e, value, perm), s.mode[c := Ret], s.lock, s.gens, s.phase[e := Unread],
          s.sent + [Msg(s.t.envs[s.t.cur[c]].id, e, s.gens[e], value)], s.got)
  }

  function Received(s: State, c: nat): State
    requires Typed(s) && c < |s.mode| && s.t.cur[c] != NONE && s.phase[s.t.cur[c]].HaveFrom?
  {
    var e: nat := s.t.cur[c];
    State(s.t, s.mode, s.lock, s.gens, s.phase[e := Quiet], s.sent,
          s.got + [Msg(s.phase[e].from, e, s.gens[e], s.t.envs[e].value)])
  }

  /** The state after a step. */
  ghost function Apply(s: State, st: Step): State
    requires Typed(s) && Enabled(s, st)
  {
    match st
    case Acquire(c) => Acquired(s, c)
    case Trap(c) => Go(s, s.t, c, Spin)
    case Leave(c) => Go(s, SetCr3(s.t, c, s.t.envs[s.t.cur[c]].pgdir), c, User)
    case ReadFrom(c) => WithPhase(s, s.t.cur[c], HaveFrom(s.t.envs[s.t.cur[c]].from))
    case ReadValue(c) => Received(s, c)
    case Reap(c) => Go(s, SetCur(FreeEnv(s.t, c, s.t.cur[c]), c, NONE), c, Yield)
    case Handle(c) => Go(s, s.t, c, Ret)
    case YieldCall(c) => Go(s, s.t, c, Yield)
    case Destroy(c, e) => Go(s, DestroyEnv(s.t, c, e), c, if s.t.cur[c] == e then Yield else Ret)
    case Fork(c, dir) => Forked(s, c, dir)
    case Status(c, e, status) => Go(s, SetStatus(s.t, e, status), c, Ret)
    case Recv(c, dstva) => WithPhase(Go(s, Receive(s.t, c, dstva), c, Yield), s.t.cur[c], Asking)
    case SendTo(c, e, value, perm) => Delivered(s, c, e, value, perm)
    case Return(c) =>
      if s.t.cur[c] != NONE && s.t.envs[s.t.cur[c]].status == Running then Ran(s, c, s.t.cur[c])
      else Go(s, s.t, c, Yield)
    case Resched(c, choice) => if choice.Run? then Ran(s, c, choice.e) else Go(s, s.t, c, Stopped)
  }

  lemma KernelTyped(s: State)
    requires KernelOk(s)
    ensures Typed(s)
    ensures forall c: nat :: c < |s.t.cur| && s.t.cur[c] != NONE ==> s.t.envs[s.t.cur[c]].status != Free
  {
    forall c: nat | c < |s.t.cur| && s.t.cur[c] != NONE ensures s.t.envs[s.t.cur[c]].status != Free {
      assert CpuOk(s.t, s.mode[c], c);
    }
  }

  // ----- Each step keeps the invariant -----

  lemma MoveKeeps(s: State, c: nat, m: Mode)
    requires KernelOk(s) && c < |s.mode| && Holding(m) == Holding(s.mode[c]) && CpuOk(s.t, m, c)
    ensures KernelOk(Go(s, s.t, c, m))
  {
  }

  lemma AcquireKeeps(s: State, c: nat)
    requires KernelOk(s) && Enabled(s, Acquire(c))
    ensures KernelOk(Apply(s, Acquire(c)))
  {
  }

  lemma LeaveKeeps(s: State, c: nat)
    requires KernelOk(s) && In(s, c, Leaving)
    ensures KernelOk(Go(s, SetCr3(s.t, c, s.t.envs[s.t.cur[c]].pgdir), c, User))
  {
    var t2 := SetCr3(s.t, c, s.t.envs[s.t.cur[c]].pgdir);
    LeaveKeepsCpus(s.t, s.mode, s.lock, c);
    assert EnvsOk(t2) by {
      CurrentStays(s.t, t2);
      hide Current, CpusOk;
    }
    hide EnvsOk, CpusOk;
  }

  lemma LeaveKeepsCpus(t: Table, mode: seq<Mode>, lock: int, c: nat)
    requires CpusOk(t, mode, lock) && c < |mode| && mode[c] == Leaving && t.cur[c] != NONE
    ensures CpusOk(SetCr3(t, c, t.envs[t.cur[c]].pgdir), mode[c := User], lock)
  {
    assert CpuOk(t, mode[c], c);
    OnceKeeps(t, SetCr3(t, c, t.envs[t.cur[c]].pgdir), c);
    hide Once;
  }

  lemma DirsKeep(t: Table, t2: Table)
    requires DirsOk(t) && |t2.envs| == |t.envs|
    requires forall e :: 0 <= e < |t.envs| ==> t2.envs[e].pgdir == t.envs[e].pgdir || t2.envs[e].pgdir == NONE
    ensures DirsOk(t2)
  {
  }

  lemma OnceKeeps(t: Table, t2: Table, c: nat)
    requires Once(t) && c < |t.cur| && |t2.cur| == |t.cur|
    requires forall d: nat :: d < |t.cur| && d != c ==>
      t2.cur[d] == t.cur[d] && (t2.cur[c] == NONE || t.cur[d] != t2.cur[c])
    ensures Once(t2)
  {
  }

  /** Slots that stay in the same place stay current. */
  lemma CurrentStays(t: Table, t2: Table)
    requires t.cur == t2.cur
    ensures forall e: nat :: Current(t, e) ==> Current(t2, e)
  {
    forall e: nat | Current(t, e) ensures Current(t2, e) {
      var c: nat :| c < |t.cur| && t.cur[c] == e;
      assert t2.cur[c] == e;
    }
  }

  /** The table once env_destroy has freed slot `e`. */
  ghost function Freed(t: Table, c: nat, e: nat): Table
    requires Shape(t) && c < |t.cur| && e < NENV
  {
    if t.cur[c] == e then SetCur(FreeEnv(t, c, e), c, NONE) else FreeEnv(t, c, e)
  }

  lemma FreeKeepsIdle(t: Table, gens: seq<nat>, c: nat, e: nat)
    requires IdleOk(t) && IdsOk(t, gens) && c < |t.cur| && e < NENV && (t.envs[e].idle ==> t.envs[e].status == Dying)
    ensures IdleOk(Freed(t, c, e)) && IdsOk(Freed(t, c, e), gens)
  {
  }

  /** Only the holder of the lock can have as curenv an environment that neither runs nor dies. */
  lemma CurHere(s: State, c: nat, e: nat)
    requires KernelOk(s) && c < |s.mode| && Holding(s.mode[c]) && e < NENV
    requires s.t.cur[c] == e || (s.t.envs[e].status != Running && s.t.envs[e].status != Dying)
    ensures forall d: nat :: d < |s.mode| && d != c ==> s.t.cur[d] != e
  {
    forall d: nat | d < |s.mode| && d != c ensures s.t.cur[d] != e {
      assert CpuOk(s.t, s.mode[d], d);
    }
  }

  lemma FreeKeepsEnvs(t: Table, c: nat, e: nat)
    requires EnvsOk(t) && c < |t.cur| && e < NENV && t.envs[e].status != Free
    requires t.envs[e].status == Running || t.envs[e].status == Dying ==> t.cur[c] == e
    requires forall d: nat :: d < |t.cur| && d != c ==> t.cur[d] != e
    ensures EnvsOk(Freed(t, c, e))
  {
    var t2 := Freed(t, c, e);
    DirsKeep(t, t2);
    hide DirsOk;
    forall f: nat | f < NENV && f != e && Current(t, f) ensures Current(t2, f) {
      var d: nat :| d < |t.cur| && t.cur[d] == f;
      assert t2.cur[d] == f;
    }
    assert forall f: nat :: f in t2.free <==> f == e || f in t.free;
  }

  lemma ReapKeeps(s: State, c: nat)
    requires KernelOk(s) && Enabled(s, Reap(c))
    ensures KernelOk(Apply(s, Reap(c)))
  {
    hide EnvsOk, IdleOk, IdsOk, CpusOk;
    KernelTyped(s);
    CurHere(s, c, s.t.cur[c]);
    FreedKeeps(s, c, s.t.cur[c]);
  }

  lemma ZombieKeepsEnvs(t: Table, e: nat)
    requires EnvsOk(t) && e < NENV && t.envs[e].status == Running
    ensures EnvsOk(SetStatus(t, e, Dying))
  {
    CurrentStays(t, SetStatus(t, e, Dying));
    DirsKeep(t, SetStatus(t, e, Dying));
    hide DirsOk;
  }

  lemma ZombieKeepsIdle(t: Table, gens: seq<nat>, e: nat)
    requires IdleOk(t) && IdsOk(t, gens) && e < NENV && !t.envs[e].idle && t.envs[e].status == Running
    ensures IdleOk(SetStatus(t, e, Dying)) && IdsOk(SetStatus(t, e, Dying), gens)
  {
  }

  /** The environment that a call names is not an idle one. */
  lemma NamedNotIdle(s: State, c: nat, e: nat)
    requires KernelOk(s) && InCall(s, c) && May(s.t, c, e)
    ensures !s.t.envs[e].idle
  {
    IdSound(s.t.cur[c], s.gens[s.t.cur[c]]);
  }

  lemma ZombieKeepsCpus(s: State, c: nat, e: nat)
    requires KernelOk(s) && InCall(s, c) && e < NENV && s.t.envs[e].status == Running && s.t.cur[c] != e
    ensures CpusOk(SetStatus(s.t, e, Dying), s.mode[c := Ret], s.lock)
  {
    hide EnvsOk, IdleOk, IdsOk;
    var t2 := SetStatus(s.t, e, Dying);
    forall d: nat {:trigger CpuOk(t2, s.mode[c := Ret][d], d)} | d < |s.mode|
      ensures CpuOk(t2, s.mode[c := Ret][d], d)
    {
      assert CpuOk(s.t, s.mode[d], d) && (Holding(s.mode[d]) <==> s.lock == d);
    }
  }

  lemma DestroyKeeps(s: State, c: nat, e: nat)
    requires KernelOk(s) && Enabled(s, Destroy(c, e))
    ensures KernelOk(Apply(s, Destroy(c, e)))
  {
    hide EnvsOk, IdleOk, IdsOk, CpusOk, CpuOk;
    KernelTyped(s);
    NamedNotIdle(s, c, e);
    if s.t.envs[e].status == Running && s.t.cur[c] != e {
      ZombieKeepsEnvs(s.t, e);
      ZombieKeepsCpus(s, c, e);
      ZombieKeepsIdle(s.t, s.gens, e);
    } else {
      FreedKeeps(s, c, e);
    }
  }

  /** env_free of an environment that is current nowhere else, by the holder of the lock. */
  lemma FreedKeeps(s: State, c: nat, e: nat)
    requires KernelOk(s) && In(s, c, Entry) && e < NENV && s.t.envs[e].status != Free
    requires s.t.envs[e].status == Running || s.t.envs[e].status == Dying ==> s.t.cur[c] == e
    requires s.t.envs[e].idle ==> s.t.envs[e].status == Dying
    requires s.t.cur[c] != e ==> s.t.envs[s.t.cur[c]].status == Running
    ensures KernelOk(Go(s, Freed(s.t, c, e), c, if s.t.cur[c] == e then Yield else Ret))
  {
    hide EnvsOk, IdleOk, IdsOk, CpusOk;
    KernelTyped(s);
    CurHere(s, c, e);
    FreeKeepsEnvs(s.t, c, e);
    FreeKeepsCpus(s, c, e);
    FreeKeepsIdle(s.t, s.gens, c, e);
  }

  lemma FreeKeepsCpus(s: State, c: nat, e: nat)
    requires KernelOk(s) && In(s, c, Entry) && e < NENV
    requires s.t.cur[c] != e ==> s.t.envs[s.t.cur[c]].status == Running
    requires forall d: nat :: d < |s.mode| && d != c ==> s.t.cur[d] != e
    ensures CpusOk(Freed(s.t, c, e), s.mode[c := if s.t.cur[c] == e then Yield else Ret], s.lock)
  {
    hide EnvsOk, IdleOk, IdsOk;
    var t2 := Freed(s.t, c, e);
    var m := if s.t.cur[c] == e then Yield else Ret;
    OnceKeeps(s.t, t2, c);
    forall d: nat {:trigger CpuOk(t2, s.mode[c := m][d], d)} | d < |s.mode| ensures CpuOk(t2, s.mode[c := m][d], d) {
      assert CpuOk(s.t, s.mode[d], d) && (Holding(s.mode[d]) <==> s.lock == d);
    }
  }

  lemma ForkKeepsEnvs(t: Table, c: nat, dir: int)
    requires EnvsOk(t) && t.free != [] && c < |t.cur| && t.cur[c] != NONE
    requires dir >= 0 && forall e :: 0 <= e < NENV ==> t.envs[e].pgdir != dir
    ensures EnvsOk(Exofork(t, c, dir))
  {
    var t2 := Exofork(t, c, dir);
    CurrentStays(t, t2);
    assert forall f: nat :: f in t2.free <==> f in t.free && f != t.free[0];
  }

  lemma ForkKeeps(s: State, c: nat, dir: int)
    requires KernelOk(s) && Enabled(s, Fork(c, dir))
    ensures KernelOk(Apply(s, Fork(c, dir)))
  {
    hide EnvsOk, IdleOk, IdsOk, CpusOk;
    KernelTyped(s);
    FirstFree(s.t);
    ForkKeepsEnvs(s.t, c, dir);
    ForkKeepsCpus(s, c, dir);
    ForkKeepsIdle(s.t, s.gens, c, dir);
  }

  lemma FirstFree(t: Table)
    requires EnvsOk(t) && t.free != []
    ensures t.free[0] < NENV && t.envs[t.free[0]].status == Free
  {
    assert t.free[0] in t.free;
  }

  lemma ForkKeepsCpus(s: State, c: nat, dir: int)
    requires KernelOk(s) && InCall(s, c) && s.t.free != [] && s.t.envs[s.t.free[0]].status == Free
    ensures CpusOk(Exofork(s.t, c, dir), s.mode[c := Ret], s.lock)
  {
    hide EnvsOk, IdleOk, IdsOk;
    var t2 := Exofork(s.t, c, dir);
    OnceKeeps(s.t, t2, c);
    forall d: nat {:trigger CpuOk(t2, s.mode[c := Ret][d], d)} | d < |s.mode|
      ensures CpuOk(t2, s.mode[c := Ret][d], d)
    {
      assert CpuOk(s.t, s.mode[d], d) && (Holding(s.mode[d]) <==> s.lock == d);
    }
  }

  lemma ForkKeepsIdle(t: Table, gens: seq<nat>, c: nat, dir: int)
    requires IdleOk(t) && IdsOk(t, gens) && t.free != [] && t.envs[t.free[0]].status == Free
    requires c < |t.cur| && t.cur[c] != NONE && t.envs[t.cur[c]].status != Free
    ensures IdleOk(Exofork(t, c, dir)) && IdsOk(Exofork(t, c, dir), gens[t.free[0] := gens[t.free[0]] + 1])
  {
    hide IdAt, NextId;
    NextIdIs(t.free[0], gens[t.free[0]]);
  }

  /** A call may change its own environment, or one that does not run, in these ways. */
  ghost predicate Adjusts(s: State, c: nat, e: nat, x: Env)
    requires Typed(s)
  {
    && InCall(s, c) && e < NENV && !s.t.envs[e].idle
    && (s.t.cur[c] == e || s.t.envs[e].status == Runnable || s.t.envs[e].status == NotRunnable)
    && x.pgdir == s.t.envs[e].pgdir && x.id == s.t.envs[e].id && !x.idle
    && (x.status == NotRunnable || (x.status == Runnable && !x.recving))
  }

  lemma AdjustKeepsCpus(s: State, c: nat, e: nat, x: Env, m: Mode)
    requires KernelOk(s) && Adjusts(s, c, e, x) && (m == Ret || m == Yield)
    ensures CpusOk(SetEnv(s.t, e, x), s.mode[c := m], s.lock)
  {
    hide EnvsOk, IdleOk, IdsOk;
    var t2 := SetEnv(s.t, e, x);
    OnceKeeps(s.t, t2, c);
    forall d: nat {:trigger CpuOk(t2, s.mode[c := m][d], d)} | d < |s.mode| ensures CpuOk(t2, s.mode[c := m][d], d) {
      assert CpuOk(s.t, s.mode[d], d) && (Holding(s.mode[d]) <==> s.lock == d);
    }
  }

  lemma AdjustKeepsEnvs(t: Table, e: nat, x: Env)
    requires EnvsOk(t) && e < NENV && t.envs[e].status != Free
    requires x.pgdir == t.envs[e].pgdir && (x.status == NotRunnable || (x.status == Runnable && !x.recving))
    ensures EnvsOk(SetEnv(t, e, x))
  {
    CurrentStays(t, SetEnv(t, e, x));
    DirsKeep(t, SetEnv(t, e, x));
    hide DirsOk, Current;
  }

  lemma AdjustKeeps(s: State, c: nat, e: nat, x: Env, m: Mode)
    requires KernelOk(s) && Adjusts(s, c, e, x) && (m == Ret || m == Yield)
    ensures KernelOk(Go(s, SetEnv(s.t, e, x), c, m))
  {
    hide EnvsOk, IdleOk, IdsOk, CpusOk;
    KernelTyped(s);
    AdjustKeepsCpus(s, c, e, x, m);
    AdjustKeepsEnvs(s.t, e, x);
    AdjustKeepsIdle(s.t, s.gens, e, x);
  }

  lemma AdjustKeepsIdle(t: Table, gens: seq<nat>, e: nat, x: Env)
    requires IdleOk(t) && IdsOk(t, gens) && e < NENV && !t.envs[e].idle && t.envs[e].status != Free
    requires x.id == t.envs[e].id && !x.idle
    ensures IdleOk(SetEnv(t, e, x)) && IdsOk(SetEnv(t, e, x), gens)
  {
  }

  lemma StatusKeeps(s: State, c: nat, e: nat, status: Envs.Status)
    requires KernelOk(s) && Enabled(s, Step.Status(c, e, status))
    ensures KernelOk(Apply(s, Step.Status(c, e, status)))
  {
    NamedNotIdle(s, c, e);
    AdjustKeeps(s, c, e, s.t.envs[e].(status := status), Ret);
  }

  lemma RecvKeeps(s: State, c: nat, dstva: Va)
    requires KernelOk(s) && Enabled(s, Recv(c, dstva))
    ensures KernelOk(Apply(s, Recv(c, dstva)))
  {
    AdjustKeeps(s, c, s.t.cur[c], s.t.envs[s.t.cur[c]].(recving := true, dstva := dstva, status := NotRunnable), Yield);
  }

  lemma SendKeeps(s: State, c: nat, e: nat, value: int, perm: Mmu.Flags)
    requires KernelOk(s) && Enabled(s, SendTo(c, e, value, perm))
    ensures KernelOk(Apply(s, SendTo(c, e, value, perm)))
  {
    AdjustKeeps(s, c, e, Send(s.t, c, e, value, perm).envs[e], Ret);
  }

  /** env_run keeps the table. */
  lemma RunKeepsEnvs(t: Table, c: nat, e: nat)
    requires EnvsOk(t) && c < |t.cur| && e < NENV && t.envs[e].status != Free && !t.envs[e].recving
    requires t.cur[c] != NONE ==> t.envs[t.cur[c]].status != Dying && t.envs[t.cur[c]].status != Free
    ensures EnvsOk(RunEnv(t, c, e))
  {
    var t2 := RunEnv(t, c, e);
    DirsKeep(t, t2);
    forall f: nat | Current(t, f) && t.cur[c] != f ensures Current(t2, f) {
      var d: nat :| d < |t.cur| && t.cur[d] == f;
      assert t2.cur[d] == f;
    }
    assert Current(t2, e) by {
      assert t2.cur[c] == e;
    }
    hide DirsOk, Current;
  }

  lemma RunKeepsIdle(t: Table, gens: seq<nat>, c: nat, e: nat)
    requires IdleOk(t) && IdsOk(t, gens) && c < |t.cur| && e < NENV && (t.envs[e].idle ==> e == c)
    requires t.envs[e].status != Free
    ensures IdleOk(RunEnv(t, c, e)) && IdsOk(RunEnv(t, c, e), gens)
  {
  }

  /** env_run by the holder of the lock, on an environment that is ready, its own, or its idle one. */
  lemma RanKeeps(s: State, c: nat, e: nat)
    requires KernelOk(s) && c < |s.mode| && e < NENV && (s.mode[c] == Ret || s.mode[c] == Yield)
    requires s.t.envs[e].status == Runnable || s.t.envs[e].status == Running
    requires forall d: nat :: d < |s.mode| && d != c ==> s.t.cur[d] != e
    requires s.t.envs[e].idle ==> e == c
    ensures KernelOk(Ran(s, c, e))
  {
    hide CpusOk, EnvsOk, IdleOk, IdsOk;
    KernelTyped(s);
    ReadyIsLive(s, c, e);
    RunKeepsEnvs(s.t, c, e);
    RanKeepsCpus(s, c, e);
    RunKeepsIdle(s.t, s.gens, c, e);
  }

  /** The conditions of env_run. */
  lemma ReadyIsLive(s: State, c: nat, e: nat)
    requires KernelOk(s) && c < |s.mode| && (s.mode[c] == Ret || s.mode[c] == Yield) && e < NENV
    requires s.t.envs[e].status == Runnable || s.t.envs[e].status == Running
    ensures !s.t.envs[e].recving && (s.t.cur[c] != NONE ==> s.t.envs[s.t.cur[c]].status != Dying)
  {
    assert CpuOk(s.t, s.mode[c], c);
  }

  lemma RanKeepsCpus(s: State, c: nat, e: nat)
    requires KernelOk(s) && c < |s.mode| && e < NENV && (s.mode[c] == Ret || s.mode[c] == Yield)
    requires s.t.envs[e].status == Runnable || s.t.envs[e].status == Running
    requires forall d: nat :: d < |s.mode| && d != c ==> s.t.cur[d] != e
    ensures CpusOk(RunEnv(s.t, c, e), s.mode[c := Leaving], NONE)
  {
    hide IdleOk, IdsOk;
    assert s.t.envs[e].pgdir != NONE;
    hide EnvsOk;
    var t2 := RunEnv(s.t, c, e);
    OnceKeeps(s.t, t2, c);
    forall d: nat {:trigger CpuOk(t2, s.mode[c := Leaving][d], d)} | d < |s.mode|
      ensures CpuOk(t2, s.mode[c := Leaving][d], d)
    {
      assert CpuOk(s.t, s.mode[d], d) && (Holding(s.mode[d]) <==> s.lock == d);
    }
  }

  /** An environment that is RUNNABLE is curenv of no CPU but the holder of the lock. */
  lemma RunnableIsFree(s: State, c: nat, e: nat, d: nat)
    requires KernelOk(s) && c < |s.mode| && Holding(s.mode[c]) && d < |s.mode| && d != c
    requires e < NENV && s.t.envs[e].status == Runnable
    ensures s.t.cur[d] != e
  {
    assert CpuOk(s.t, s.mode[d], d);
  }

  /** sched_yield always finds an environment to run, unless only idle ones are left. */
  lemma ReschedRuns(s: State, c: nat, choice: Choice)
    requires KernelOk(s) && Enabled(s, Resched(c, choice))
    ensures choice != NoIdle
    ensures choice == Monitor <==>
      !Busy(s.t.envs) && (s.t.cur[c] == NONE || s.t.envs[s.t.cur[c]].status != Runnable)
    ensures choice.Run? ==> choice.e < NENV && (s.t.envs[choice.e].idle ==> choice.e == c)
    ensures choice.Run? ==>
      s.t.envs[choice.e].status == Runnable || (choice.e == c && s.t.envs[c].idle && s.t.envs[c].status == Running)
  {
  }

  lemma ReschedKeeps(s: State, c: nat, choice: Choice)
    requires KernelOk(s) && Enabled(s, Resched(c, choice))
    ensures KernelOk(Apply(s, Resched(c, choice)))
  {
    ReschedRuns(s, c, choice);
    if choice.Run? {
      forall d: nat | d < |s.mode| && d != c ensures s.t.cur[d] != choice.e {
        if s.t.envs[choice.e].status == Runnable {
          RunnableIsFree(s, c, choice.e, d);
        }
      }
      RanKeeps(s, c, choice.e);
    }
  }

  lemma ReturnKeeps(s: State, c: nat)
    requires KernelOk(s) && Enabled(s, Return(c))
    ensures KernelOk(Apply(s, Return(c)))
  {
    if s.t.cur[c] != NONE && s.t.envs[s.t.cur[c]].status == Running {
      RanKeeps(s, c, s.t.cur[c]);
    }
  }

  lemma StepKeeps(s: State, st: Step)
    requires KernelOk(s) && Enabled(s, st)
    ensures KernelOk(Apply(s, st))
  {
    match st
    case Acquire(c) => AcquireKeeps(s, c);
    case Trap(c) => MoveKeeps(s, c, Spin);
    case Leave(c) => LeaveKeeps(s, c);
    case ReadFrom(c) =>
    case ReadValue(c) =>
    case Reap(c) => ReapKeeps(s, c);
    case Handle(c) => MoveKeeps(s, c, Ret);
    case YieldCall(c) => MoveKeeps(s, c, Yield);
    case Destroy(c, e) => DestroyKeeps(s, c, e);
    case Fork(c, dir) => ForkKeeps(s, c, dir);
    case Status(c, e, status) => StatusKeeps(s, c, e, status);
    case Recv(c, dstva) => RecvKeeps(s, c, dstva);
    case SendTo(c, e, value, perm) => SendKeeps(s, c, e, value, perm);
    case Return(c) => ReturnKeeps(s, c);
    case Resched(c, choice) => ReschedKeeps(s, c, choice);
  }

  // ----- Whole runs -----

  /** i386_init before its call of sched_yield: the boot CPU has the lock, the others are starting, and
      `used` environments have been created, the first of them idle, at least one for each CPU. */
  ghost predicate Init(s: State, used: nat) {
    && Typed(s) && |s.t.cur| <= used <= NENV
    && s.lock == 0 && s.mode[0] == Yield && (forall c :: 0 < c < |s.mode| ==> s.mode[c] == Boot)
    && (forall c :: 0 <= c < |s.mode| ==> s.t.cur[c] == NONE && s.t.cr3[c] == KERNDIR)
    && (forall e: nat :: e < NENV ==> InitEnv(s, e, used))
    && (forall e: nat :: e < |s.t.cur| ==> s.t.envs[e].idle)
    && DirsOk(s.t)
    && |s.t.free| == NENV - used && (forall i :: 0 <= i < |s.t.free| ==> s.t.free[i] == used + i)
    && s.sent == [] && s.got == []
  }

  ghost predicate InitEnv(s: State, e: nat, used: nat)
    requires Typed(s) && e < NENV
  {
    var x := s.t.envs[e];
    && s.phase[e] == Quiet && s.gens[e] == (if e < used then 1 else 0) && x.id == IdAt(e, s.gens[e])
    && !x.recving && x.parent == 0 && (x.status == if e < used then Runnable else Free)
    && (x.idle ==> e < used) && (x.pgdir == NONE <==> used <= e)
  }

  ghost predicate Run(states: seq<State>, steps: seq<Step>) {
    && |states| == |steps| + 1
    && (exists used: nat :: Init(states[0], used))
    && forall k :: 0 <= k < |steps| ==> Next(states[k], steps[k], states[k + 1])
  }

  ghost predicate Next(s: State, st: Step, s2: State) {
    Typed(s) && Enabled(s, st) && s2 == Apply(s, st)
  }

  lemma InitOk(s: State, used: nat)
    requires Init(s, used)
    ensures KernelOk(s)
  {
    forall e: nat | e < NENV
      ensures s.t.envs[e].status == Free <==> e in s.t.free
    {
      assert InitEnv(s, e, used);
      if used <= e {
        assert s.t.free[e - used] == e;
      }
    }
    assert forall e: nat {:trigger s.t.envs[e]} :: e < NENV ==> InitEnv(s, e, used);
  }

  lemma {:induction false} RunKeeps(states: seq<State>, steps: seq<Step>, k: nat)
    requires Run(states, steps) && k < |states|
    ensures KernelOk(states[k])
  {
    if k == 0 {
      var used: nat :| Init(states[0], used);
      InitOk(states[0], used);
    } else {
      RunKeeps(states, steps, k - 1);
      assert Next(states[k - 1], steps[k - 1], states[k]);
      StepKeeps(states[k - 1], steps[k - 1]);
    }
  }

  // ----- What the invariant means -----

  /** In every state of every run: an environment is curenv of at most one CPU, and of exactly one if it
      is RUNNING or DYING; two CPUs are never both in the kernel; a CPU in user mode, or waiting for the lock, has an
      environment that is RUNNING or DYING, and cr3 holds its page directory, which no other
      environment has. */
  lemma OneCpuEach(states: seq<State>, steps: seq<Step>, k: nat)
    requires Run(states, steps) && k < |states|
    ensures Typed(states[k])
    ensures var s := states[k];
      && (forall c: nat, d: nat :: c < |s.mode| && d < |s.mode| && c != d ==>
            s.t.cur[c] == NONE || s.t.cur[c] != s.t.cur[d])
      && (forall c: nat, d: nat :: c < |s.mode| && d < |s.mode| && Holding(s.mode[c]) && Holding(s.mode[d]) ==> c == d)
      && (forall e: nat :: e < NENV && (s.t.envs[e].status == Running || s.t.envs[e].status == Dying) ==>
            Current(s.t, e))
      && (forall c: nat :: c < |s.mode| && (s.mode[c] == User || s.mode[c] == Spin) ==> RunsOwn(s.t, c))
  {
    RunKeeps(states, steps, k);
    var s := states[k];
    forall c: nat | c < |s.mode| && (s.mode[c] == User || s.mode[c] == Spin) ensures RunsOwn(s.t, c) {
      assert CpuOk(s.t, s.mode[c], c);
    }
  }

  ghost predicate RunsOwn(t: Table, c: nat)
    requires Shape(t) && c < |t.cur|
  {
    && t.cur[c] != NONE && (t.envs[t.cur[c]].status == Running || t.envs[t.cur[c]].status == Dying)
    && t.cr3[c] == t.envs[t.cur[c]].pgdir != NONE
    && forall e: nat :: e < NENV && e != t.cur[c] ==> t.envs[e].pgdir != t.cr3[c]
  }

  ghost predicate StaysDying(t: Table, t2: Table, e: nat) {
    && e < |t.envs| && e < |t2.envs| && |t.cur| == |t2.cur| && t2.envs[e] == t.envs[e]
    && forall c :: 0 <= c < |t.cur| && t.cur[c] == e ==> t2.cur[c] == e
  }

  lemma DyingStep(s: State, st: Step, e: nat)
    requires KernelOk(s) && Enabled(s, st) && e < NENV && s.t.envs[e].status == Dying
    requires !(st.Reap? && s.t.cur[st.c] == e)
    ensures StaysDying(s.t, Apply(s, st).t, e)
  {
    hide CpusOk, EnvsOk, IdleOk, IdsOk, Chooses, CpuOk, Ran;
    KernelTyped(s);
    if st.Resched? || st.Return? {
      DyingRun(s, st, e);
    } else if st.Fork? {
      FirstFree(s.t);
    } else if st.SendTo? {
      AskersWait(s, st.e);
    }
  }

  lemma AskersWait(s: State, e: nat)
    requires KernelOk(s) && e < NENV && s.t.envs[e].recving && s.t.envs[e].status != Free
    ensures s.t.envs[e].status == NotRunnable
  {
  }

  lemma DyingRun(s: State, st: Step, e: nat)
    requires KernelOk(s) && Enabled(s, st) && e < NENV && s.t.envs[e].status == Dying && (st.Resched? || st.Return?)
    ensures StaysDying(s.t, Apply(s, st).t, e)
  {
    var c := st.c;
    assert CpuOk(s.t, s.mode[c], c);
    if st.Resched? {
      ReschedRuns(s, c, st.choice);
    }
    hide CpusOk, EnvsOk, IdleOk, IdsOk, Chooses, CpuOk;
    if st.Resched? && st.choice.Run? {
      RanOther(s, c, st.choice.e, e);
    } else if st.Return? && s.t.cur[c] != NONE && s.t.envs[s.t.cur[c]].status == Running {
      RanOther(s, c, s.t.cur[c], e);
    }
    hide Ran;
  }

  lemma RanOther(s: State, c: nat, e: nat, other: nat)
    requires Typed(s) && c < |s.mode| && e < NENV && other < NENV && other != e && s.t.cur[c] != other
    ensures StaysDying(s.t, Ran(s, c, e).t, other)
  {
  }

  /** A DYING environment keeps its page directory and its status until the CPU it runs on has
      trapped and got the lock. */
  lemma DyingKept(states: seq<State>, steps: seq<Step>, k: nat, e: nat)
    requires Run(states, steps) && k < |steps| && e < NENV
    requires |states[k].t.envs| == NENV && states[k].t.envs[e].status == Dying
    ensures Typed(states[k]) && steps[k].c < |states[k].t.cur|
    ensures StaysDying(states[k].t, states[k + 1].t, e) <==> !(steps[k].Reap? && states[k].t.cur[steps[k].c] == e)
  {
    RunKeeps(states, steps, k);
    assert Next(states[k], steps[k], states[k + 1]);
    if !(steps[k].Reap? && states[k].t.cur[steps[k].c] == e) {
      DyingStep(states[k], steps[k], e);
    }
  }

  // ----- What becomes of an environment that is destroyed -----

  /** Slot `e` holds no environment, or one that only waits to be freed. */
  ghost predicate Gone(t: Table, e: nat) {
    e < |t.envs| && (t.envs[e].status == Free || t.envs[e].status == Dying)
  }

  predicate Takes(s: State, st: Step, e: nat) {
    st.Fork? && s.t.free != [] && s.t.free[0] == e
  }

  lemma DestroyGone(s: State, c: nat, e: nat)
    requires Typed(s) && Enabled(s, Destroy(c, e))
    ensures Gone(Apply(s, Destroy(c, e)).t, e)
  {
  }

  lemma FreeStep(s: State, st: Step, e: nat)
    requires KernelOk(s) && Enabled(s, st) && e < NENV && s.t.envs[e].status == Free && !Takes(s, st, e)
    ensures Gone(Apply(s, st).t, e)
  {
    hide CpusOk, EnvsOk, IdleOk, IdsOk, Chooses, CpuOk, Ran;
    KernelTyped(s);
    if st.Resched? {
      ReschedRuns(s, st.c, st.choice);
    }
    if st.Resched? && st.choice.Run? {
      RanOther(s, st.c, st.choice.e, e);
    } else if st.Return? && s.t.cur[st.c] != NONE && s.t.envs[s.t.cur[st.c]].status == Running {
      RanOther(s, st.c, s.t.cur[st.c], e);
    }
  }

  lemma GoneStep(s: State, st: Step, e: nat)
    requires KernelOk(s) && Enabled(s, st) && Gone(s.t, e) && !Takes(s, st, e)
    ensures Gone(Apply(s, st).t, e)
  {
    hide EnvsOk, IdleOk, IdsOk, CpusOk;
    KernelTyped(s);
    if s.t.envs[e].status == Free {
      FreeStep(s, st, e);
    } else if !(st.Reap? && s.t.cur[st.c] == e) {
      DyingStep(s, st, e);
    }
  }

  /** An environment that has been destroyed is free or a zombie, and no CPU chooses to run its slot, until the slot is
      taken again. */
  lemma {:induction false} DestroyedStays(states: seq<State>, steps: seq<Step>, i: nat, j: nat, e: nat)
    requires Run(states, steps) && i < j <= |steps| && steps[i].Destroy? && steps[i].e == e
    requires forall k :: i < k < j ==> !Takes(states[k], steps[k], e)
    ensures Gone(states[j].t, e)
    ensures j < |steps| && steps[j].Resched? ==> steps[j].choice != Choice.Run(e)
  {
    hide KernelOk, Enabled, Apply;
    RunKeeps(states, steps, j - 1);
    RunKeeps(states, steps, j);
    assert Next(states[j - 1], steps[j - 1], states[j]);
    if j - 1 > i {
      DestroyedStays(states, steps, i, j - 1, e);
      GoneStep(states[j - 1], steps[j - 1], e);
    } else {
      DestroyGone(states[i], steps[i].c, e);
    }
    if j < |steps| && steps[j].Resched? {
      assert Next(states[j], steps[j], states[j + 1]);
      NotChosen(states[j], steps[j].c, steps[j].choice, e);
    }
  }

  lemma NotChosen(s: State, c: nat, choice: Choice, e: nat)
    requires KernelOk(s) && Enabled(s, Resched(c, choice)) && Gone(s.t, e)
    ensures choice != Choice.Run(e)
  {
    ReschedRuns(s, c, choice);
  }

  // ----- When a CPU stops -----

  lemma StopsStep(s: State, st: Step, c: nat)
    requires KernelOk(s) && Enabled(s, st) && c < |s.mode| && s.mode[c] != Stopped
    requires c < |Apply(s, st).mode| && Apply(s, st).mode[c] == Stopped
    ensures st == Resched(c, Monitor) && !Busy(s.t.envs)
  {
    hide CpusOk, EnvsOk, IdleOk, IdsOk, Chooses, Busy;
    KernelTyped(s);
    if st.Resched? {
      ReschedRuns(s, st.c, st.choice);
    }
  }

  /** A CPU is in the kernel monitor only since a call of sched_yield at which no environment but the idle ones
      could run or was running. */
  lemma {:induction false} StoppedWasIdle(states: seq<State>, steps: seq<Step>, k: nat, c: nat) returns (i: nat)
    requires Run(states, steps) && k < |states| && c < |states[k].mode| && states[k].mode[c] == Stopped
    ensures i < k && steps[i] == Resched(c, Monitor) && !Busy(states[i].t.envs)
  {
    hide KernelOk, Enabled, Apply, Init;
    StartsGoing(states[0]);
    RunKeeps(states, steps, k - 1);
    assert Next(states[k - 1], steps[k - 1], states[k]);
    SameCpus(states[k - 1], steps[k - 1]);
    if states[k - 1].mode[c] == Stopped {
      i := StoppedWasIdle(states, steps, k - 1, c);
    } else {
      StopsStep(states[k - 1], steps[k - 1], c);
      i := k - 1;
    }
  }

  lemma StartsGoing(s: State)
    requires exists used: nat :: Init(s, used)
    ensures forall c: nat :: c < |s.mode| ==> s.mode[c] != Stopped
  {
  }

  lemma SameCpus(s: State, st: Step)
    requires Typed(s) && Enabled(s, st)
    ensures |Apply(s, st).mode| == |s.mode|
  {
  }

  // ----- Where a trap returns to -----

  /** CPU `c` is at the end of trap() with environment `e`, which may go on. */
  ghost predicate Returns(s: State, c: nat, e: int) {
    Typed(s) && c < |s.mode| && s.mode[c] == Ret && s.t.cur[c] == e && 0 <= e < NENV && s.t.envs[e].status == Running
  }

  lemma OthersWait(s: State, st: Step, c: nat, e: int)
    requires KernelOk(s) && Enabled(s, st) && Returns(s, c, e) && st.c != c
    ensures Returns(Apply(s, st), c, e)
  {
    assert (Holding(s.mode[c]) <==> s.lock == c) && (Holding(s.mode[st.c]) <==> s.lock == st.c);
    hide EnvsOk, IdleOk, IdsOk, CpusOk, Chooses;
  }

  /** A trap that neither yields nor ends its environment goes back to that environment, whatever the other CPUs
      do meanwhile. */
  lemma {:induction false} TrapGoesBack(states: seq<State>, steps: seq<Step>, i: nat, j: nat, c: nat)
    requires Run(states, steps) && i < j < |steps| && steps[i] == Handle(c) && steps[j] == Return(c)
    requires forall k :: i < k < j ==> steps[k].c != c
    ensures Typed(states[i]) && Typed(states[j + 1]) && c < |states[i].t.cur| && c < |states[j + 1].t.cur|
    ensures var e := states[i].t.cur[c];
      && states[j + 1].t.cur[c] == e != NONE && states[j + 1].t.envs[e].status == Running
      && states[j + 1].mode[c] == Leaving && states[j + 1].lock == NONE
  {
    hide KernelOk, Apply;
    RunKeeps(states, steps, i);
    RunKeeps(states, steps, j + 1);
    StaysAtEnd(states, steps, i, j, c);
    assert Next(states[i], steps[i], states[i + 1]) && Next(states[j], steps[j], states[j + 1]);
    Resumes(states[j], c, states[i].t.cur[c]);
  }

  lemma Resumes(s: State, c: nat, e: int)
    requires Returns(s, c, e) && Enabled(s, Return(c))
    ensures var s2 := Apply(s, Return(c));
      && Typed(s2) && c < |s2.t.cur| && s2.t.cur[c] == e && s2.t.envs[e].status == Running
      && s2.mode[c] == Leaving && s2.lock == NONE
  {
  }

  lemma {:induction false} StaysAtEnd(states: seq<State>, steps: seq<Step>, i: nat, j: nat, c: nat)
    requires Run(states, steps) && i < j <= |steps| && steps[i] == Handle(c)
    requires forall k :: i < k < j ==> steps[k].c != c
    ensures Typed(states[i]) && c < |states[i].t.cur| && Returns(states[j], c, states[i].t.cur[c])
  {
    hide KernelOk, Enabled, Apply;
    RunKeeps(states, steps, j - 1);
    assert Next(states[j - 1], steps[j - 1], states[j]);
    if j - 1 > i {
      StaysAtEnd(states, steps, i, j - 1, c);
      OthersWait(states[j - 1], steps[j - 1], c, states[i].t.cur[c]);
    } else {
      AtEndNow(states[i], c);
    }
  }

  lemma AtEndNow(s: State, c: nat)
    requires Typed(s) && Enabled(s, Handle(c))
    ensures c < |s.t.cur| && Returns(Apply(s, Handle(c)), c, s.t.cur[c])
  {
  }

  // ----- Calls that the source allows and that are not sound -----

  /** sys_env_set_status keeps the invariant exactly if its target is the caller, or neither runs nor
      is dying on another CPU, and is not made RUNNABLE while it waits for a message. */
  lemma StatusSafeIff(s: State, c: nat, e: nat, status: Envs.Status)
    requires KernelOk(s) && InCall(s, c) && May(s.t, c, e) && (status == Runnable || status == NotRunnable)
    ensures KernelOk(Go(s, SetStatus(s.t, e, status), c, Ret)) <==> StatusSafe(s.t, c, e, status)
  {
    if StatusSafe(s.t, c, e, status) {
      StatusKeeps(s, c, e, status);
    } else if e != s.t.cur[c] && Current(s.t, e) {
      OthersRun(s, c, e, SetStatus(s.t, e, status), Ret);
    }
  }

  /** An environment that another CPU runs must stay RUNNING or DYING. */
  lemma OthersRun(s: State, c: nat, e: nat, t2: Table, m: Mode)
    requires KernelOk(s) && InCall(s, c) && Current(s.t, e) && e < NENV && s.t.cur[c] != e
    requires Shape(t2) && |t2.cur| == |s.t.cur|
    requires (forall d :: 0 <= d < |s.t.cur| && d != c ==> t2.cur[d] == s.t.cur[d])
    requires t2.envs[e].status != Running && t2.envs[e].status != Dying
    ensures !KernelOk(Go(s, t2, c, m))
  {
    var d: nat :| d < |s.t.cur| && s.t.cur[d] == e;
    assert CpuOk(s.t, s.mode[d], d) && (Holding(s.mode[d]) <==> s.lock == d);
    assert !CpuOk(t2, s.mode[c := m][d], d);
  }

  /** env_destroy frees an environment that is DYING at once, although another CPU still runs it: the
      invariant is kept exactly if the environment was not DYING. */
  lemma DestroySafeIff(s: State, c: nat, e: nat)
    requires KernelOk(s) && InCall(s, c) && May(s.t, c, e)
    ensures KernelOk(Go(s, DestroyEnv(s.t, c, e), c, if s.t.cur[c] == e then Yield else Ret)) <==>
      s.t.envs[e].status != Dying
  {
    if s.t.envs[e].status != Dying {
      DestroyKeeps(s, c, e);
    } else {
      OthersRun(s, c, e, DestroyEnv(s.t, c, e), Ret);
    }
  }

  /** No run reaches the panic for want of an idle environment, and the assertion in trap() that
      curenv is not NULL holds. */
  lemma NoPanic(states: seq<State>, steps: seq<Step>, k: nat)
    requires Run(states, steps) && k < |steps|
    ensures steps[k].Resched? ==> steps[k].choice != NoIdle
    ensures Typed(states[k])
    ensures forall c: nat :: c < |states[k].mode| && states[k].mode[c] == Spin ==> states[k].t.cur[c] != NONE
  {
    RunKeeps(states, steps, k);
    assert Next(states[k], steps[k], states[k + 1]);
    if steps[k].Resched? {
      ReschedRuns(states[k], steps[k].c, steps[k].choice);
    }
    forall c: nat | c < |states[k].mode| && states[k].mode[c] == Spin ensures states[k].t.cur[c] != NONE {
      assert CpuOk(states[k].t, states[k].mode[c], c);
    }
  }

  /** A step that some CPU can take, unless one has stopped in the kernel monitor. */
  lemma SomeCpuSteps(s: State)
    requires KernelOk(s) && forall c: nat :: c < |s.mode| ==> s.mode[c] != Stopped
    ensures exists st :: Enabled(s, st)
  {
    var c: nat := if 0 <= s.lock < |s.mode| then s.lock else 0;
    assert CpuOk(s.t, s.mode[c], c) && (Holding(s.mode[c]) <==> s.lock == c);
    match s.mode[c]
    case Boot => assert Enabled(s, Acquire(c));
    case Spin => assert Enabled(s, Acquire(c));
    case User => assert Enabled(s, Trap(c));
    case Leaving => assert Enabled(s, Leave(c));
    case Entry => assert if s.t.envs[s.t.cur[c]].status == Dying then Enabled(s, Reap(c)) else Enabled(s, Handle(c));
    case Ret => assert Enabled(s, Return(c));
    case Yield =>
      var choice := ChoiceExists(s.t, c);
      assert Enabled(s, Resched(c, choice));
  }
}
