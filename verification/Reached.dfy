/** Runs of two CPUs that lead to the calls which StatusSafeIff and DestroySafeIff of MultiCpu rule out: the
    kernel allows them, and they break its invariant. */
module Reached {
  import opened Envs
  import opened Sched
  import opened MultiCpu

  /** Some run ends in `s`. */
  ghost predicate Reachable(s: State) {
    exists states: seq<State>, steps: seq<Step> :: MultiCpu.Run(states, steps) && states[|steps|] == s
  }

  lemma Reach(s: State, st: Step)
    requires Reachable(s) && Typed(s) && Enabled(s, st)
    ensures Reachable(Apply(s, st))
  {
    var states: seq<State>, steps: seq<Step> :| MultiCpu.Run(states, steps) && states[|steps|] == s;
    var states2, steps2 := states + [Apply(s, st)], steps + [st];
    assert states2[0] == states[0];
    forall k | 0 <= k < |steps2| ensures Next(states2[k], steps2[k], states2[k + 1]) {
      if k < |steps| {
        assert Next(states[k], steps[k], states[k + 1]);
      }
    }
    assert states2[|steps2|] == Apply(s, st);
  }

  /** Two CPUs with their idle environments 0 and 1, an environment 2, and its child 3 once it exists. */
  datatype Scene = Scene(
    m0: Mode, m1: Mode, lock: int, c0: int, c1: int, x1: Envs.Status, x2: Envs.Status, x3: Envs.Status, asks: bool)

  ghost predicate Shows(s: State, sc: Scene) {
    Reachable(s) && KernelOk(s) && Looks(s, sc)
  }

  ghost predicate Looks(s: State, sc: Scene) {
    && Typed(s) && s.mode == [sc.m0, sc.m1] && s.lock == sc.lock && s.t.cur == [sc.c0, sc.c1]
    && s.t.envs[0].status == Runnable && s.t.envs[0].idle && s.t.envs[1].status == sc.x1 && s.t.envs[1].idle
    && s.t.envs[2].status == sc.x2 && !s.t.envs[2].idle && s.t.envs[3].status == sc.x3 && !s.t.envs[3].idle
    && (forall e :: 4 <= e < NENV ==> s.t.envs[e].status == Free)
    && s.phase[2] == Quiet && (sc.x3 != Free ==> s.t.envs[3].parent == s.t.envs[2].id)
    && (if sc.x3 == Free
        then !sc.asks && s.t.free != [] && s.t.free[0] == 3 && forall e :: 0 <= e < NENV ==> s.t.envs[e].pgdir < 3
        else s.t.envs[3].recving == sc.asks && (!sc.asks ==> s.phase[3] == Quiet))
  }

  function StartState(): State {
    State(
      Table(seq(NENV, e requires 0 <= e < NENV =>
              Env(if e < 3 then Runnable else Free, e < 2, IdAt(e, if e < 3 then 1 else 0), 0,
                  if e < 3 then e else NONE, false, 0, 0, 0, {})),
            seq(NENV - 3, i => 3 + i), [NONE, NONE], [KERNDIR, KERNDIR]),
      [Yield, Boot], 0, seq(NENV, e => if e < 3 then 1 else 0), seq(NENV, e => Quiet), [], [])
  }

  lemma Starts() returns (s: State)
    ensures Shows(s, Scene(Yield, Boot, 0, NONE, NONE, Runnable, Runnable, Free, false))
  {
    hide Init, KernelOk, Reachable;
    s := StartState();
    StartInit();
    InitOk(s, 3);
    StartReachable();
  }

  lemma StartInit()
    ensures Init(StartState(), 3)
  {
    var s := StartState();
    assert forall e: nat {:trigger InitEnv(s, e, 3)} :: e < NENV ==> InitEnv(s, e, 3);
  }

  lemma StartReachable()
    ensures Reachable(StartState())
  {
    hide Init;
    StartInit();
    var states: seq<State>, steps: seq<Step> := [StartState()], [];
    assert Init(states[0], 3);
    assert MultiCpu.Run(states, steps) && states[|steps|] == StartState();
  }

  /** A step, with the invariant. */
  lemma Go1(s: State, st: Step)
    requires Reachable(s) && KernelOk(s) && Enabled(s, st)
    ensures Reachable(Apply(s, st)) && KernelOk(Apply(s, st)) && Typed(Apply(s, st))
  {
    Reach(s, st);
    StepKeeps(s, st);
  }

  /** sched_yield on CPU 0 runs environment 2. */
  lemma FirstRuns(s: State) returns (t: State)
    requires Shows(s, Scene(Yield, Boot, 0, NONE, NONE, Runnable, Runnable, Free, false))
    ensures Shows(t, Scene(Leaving, Boot, NONE, 2, NONE, Runnable, Running, Free, false))
  {
    hide KernelOk, Reachable;
    assert Nearest(s.t.envs, 0, 2);
    Go1(s, Resched(0, Choice.Run(2)));
    t := Apply(s, Resched(0, Choice.Run(2)));
  }

  /** CPU 0 goes to user mode, traps and takes the lock. */
  lemma Traps(s: State, sc: Scene) returns (t: State)
    requires Shows(s, sc) && sc.m0 == Leaving && sc.c0 == 2 && sc.lock == NONE && sc.x2 == Running
    ensures Shows(t, sc.(m0 := Entry, lock := 0))
  {
    hide KernelOk, Reachable;
    Go1(s, Leave(0));
    var s1 := Apply(s, Leave(0));
    Go1(s1, Trap(0));
    var s2 := Apply(s1, Trap(0));
    Go1(s2, Acquire(0));
    t := Apply(s2, Acquire(0));
  }

  lemma Returns(s: State, sc: Scene) returns (t: State)
    requires Shows(s, sc) && sc.m0 == Ret && sc.c0 == 2 && sc.x2 == Running
    ensures Shows(t, sc.(m0 := Leaving, lock := NONE))
  {
    hide KernelOk, Reachable;
    Go1(s, Return(0));
    t := Apply(s, Return(0));
  }

  lemma Forks(s: State) returns (t: State)
    requires Shows(s, Scene(Entry, Boot, 0, 2, NONE, Runnable, Running, Free, false))
    ensures Shows(t, Scene(Ret, Boot, 0, 2, NONE, Runnable, Running, NotRunnable, false))
  {
    hide KernelOk, Reachable;
    Go1(s, Fork(0, 1000));
    t := Apply(s, Fork(0, 1000));
  }

  lemma Starts3(s: State) returns (t: State)
    requires Shows(s, Scene(Entry, Boot, 0, 2, NONE, Runnable, Running, NotRunnable, false))
    ensures Shows(t, Scene(Ret, Boot, 0, 2, NONE, Runnable, Running, Runnable, false))
  {
    hide KernelOk, Reachable;
    Go1(s, Step.Status(0, 3, Runnable));
    t := Apply(s, Step.Status(0, 3, Runnable));
  }

  /** CPU 1 comes up and runs the child. */
  lemma SecondRuns(s: State) returns (t: State)
    requires Shows(s, Scene(Leaving, Boot, NONE, 2, NONE, Runnable, Running, Runnable, false))
    ensures Shows(t, Scene(Leaving, Leaving, NONE, 2, 3, Runnable, Running, Running, false))
  {
    hide KernelOk, Reachable;
    Go1(s, Acquire(1));
    var s1 := Apply(s, Acquire(1));
    assert Nearest(s1.t.envs, 0, 3);
    Go1(s1, Resched(1, Choice.Run(3)));
    t := Apply(s1, Resched(1, Choice.Run(3)));
  }

  /** Environment 2 is in a system call on CPU 0, and its child runs on CPU 1. */
  lemma ChildRuns() returns (s: State)
    ensures Shows(s, Scene(Entry, Leaving, 0, 2, 3, Runnable, Running, Running, false))
  {
    hide Shows;
    s := Starts();
    s := FirstRuns(s);
    s := Traps(s, Scene(Leaving, Boot, NONE, 2, NONE, Runnable, Running, Free, false));
    s := Forks(s);
    s := Returns(s, Scene(Ret, Boot, 0, 2, NONE, Runnable, Running, NotRunnable, false));
    s := Traps(s, Scene(Leaving, Boot, NONE, 2, NONE, Runnable, Running, NotRunnable, false));
    s := Starts3(s);
    s := Returns(s, Scene(Ret, Boot, 0, 2, NONE, Runnable, Running, Runnable, false));
    s := SecondRuns(s);
    s := Traps(s, Scene(Leaving, Leaving, NONE, 2, 3, Runnable, Running, Running, false));
  }

  lemma Kills(s: State) returns (t: State)
    requires Shows(s, Scene(Entry, Leaving, 0, 2, 3, Runnable, Running, Running, false))
    ensures Shows(t, Scene(Ret, Leaving, 0, 2, 3, Runnable, Running, Dying, false))
  {
    hide KernelOk, Reachable;
    Go1(s, Destroy(0, 3));
    t := Apply(s, Destroy(0, 3));
  }

  lemma ChildTraps(s: State) returns (t: State)
    requires Shows(s, Scene(Leaving, Leaving, NONE, 2, 3, Runnable, Running, Running, false))
    ensures Shows(t, Scene(Leaving, Spin, NONE, 2, 3, Runnable, Running, Running, false))
  {
    hide KernelOk, Reachable;
    Go1(s, Leave(1));
    var s1 := Apply(s, Leave(1));
    Go1(s1, Trap(1));
    t := Apply(s1, Trap(1));
  }

  /** The child blocks in sys_ipc_recv, and CPU 1 runs its idle environment. */
  lemma ChildAsks(s: State) returns (t: State)
    requires Shows(s, Scene(Leaving, Leaving, NONE, 2, 3, Runnable, Running, Running, false))
    ensures Shows(t, Scene(Leaving, Leaving, NONE, 2, 1, Running, Running, NotRunnable, true))
  {
    hide KernelOk, Reachable;
    var s1 := ChildTraps(s);
    Go1(s1, Acquire(1));
    t := AskedAndIdle(Apply(s1, Acquire(1)));
  }

  lemma AskedAndIdle(s: State) returns (t: State)
    requires Shows(s, Scene(Leaving, Entry, 1, 2, 3, Runnable, Running, Running, false))
    ensures Shows(t, Scene(Leaving, Leaving, NONE, 2, 1, Running, Running, NotRunnable, true))
  {
    hide KernelOk, Reachable;
    Go1(s, Recv(1, 0));
    t := IdleRuns(Apply(s, Recv(1, 0)));
  }

  lemma IdleRuns(s: State) returns (t: State)
    requires Shows(s, Scene(Leaving, Yield, 1, 2, 3, Runnable, Running, NotRunnable, true))
    ensures Shows(t, Scene(Leaving, Leaving, NONE, 2, 1, Running, Running, NotRunnable, true))
  {
    hide KernelOk, Reachable;
    assert NoneReady(s.t.envs, 3);
    assert !s.t.envs[2].idle && s.t.envs[2].status == Running;
    Go1(s, Resched(1, Choice.Run(1)));
    t := Apply(s, Resched(1, Choice.Run(1)));
  }

  /** The unsafe uses of sys_env_set_status are reached by runs: on an environment that another CPU runs, on one
      that is dying there, and to wake one that waits for a message. Each breaks the invariant. */
  lemma UnsafeStatusReached() returns (s: State, dying: State, asking: State)
    ensures Reachable(s) && KernelOk(s) && InCall(s, 0) && May(s.t, 0, 3) && s.t.envs[3].status == Running
    ensures !KernelOk(Go(s, SetStatus(s.t, 3, NotRunnable), 0, Ret))
    ensures !KernelOk(Go(s, SetStatus(s.t, 3, Runnable), 0, Ret))
    ensures Reachable(dying) && KernelOk(dying) && InCall(dying, 0) && May(dying.t, 0, 3)
    ensures dying.t.envs[3].status == Dying
    ensures !KernelOk(Go(dying, SetStatus(dying.t, 3, Runnable), 0, Ret))
    ensures Reachable(asking) && KernelOk(asking) && InCall(asking, 0) && May(asking.t, 0, 3)
    ensures asking.t.envs[3].recving
    ensures !KernelOk(Go(asking, SetStatus(asking.t, 3, Runnable), 0, Ret))
  {
    hide KernelOk, Reachable;
    s := ChildRuns();
    StatusSafeIff(s, 0, 3, NotRunnable);
    StatusSafeIff(s, 0, 3, Runnable);
    dying := ChildDies();
    StatusSafeIff(dying, 0, 3, Runnable);
    asking := ChildWaits();
    StatusSafeIff(asking, 0, 3, Runnable);
  }

  lemma ChildDies() returns (s: State)
    ensures Shows(s, Scene(Entry, Leaving, 0, 2, 3, Runnable, Running, Dying, false))
  {
    hide Shows;
    s := ChildRuns();
    s := Kills(s);
    s := Returns(s, Scene(Ret, Leaving, 0, 2, 3, Runnable, Running, Dying, false));
    s := Traps(s, Scene(Leaving, Leaving, NONE, 2, 3, Runnable, Running, Dying, false));
  }

  lemma ChildWaits() returns (s: State)
    ensures Shows(s, Scene(Entry, Leaving, 0, 2, 1, Running, Running, NotRunnable, true))
  {
    hide Shows;
    s := Starts();
    s := FirstRuns(s);
    s := Traps(s, Scene(Leaving, Boot, NONE, 2, NONE, Runnable, Running, Free, false));
    s := Forks(s);
    s := Returns(s, Scene(Ret, Boot, 0, 2, NONE, Runnable, Running, NotRunnable, false));
    s := Traps(s, Scene(Leaving, Boot, NONE, 2, NONE, Runnable, Running, NotRunnable, false));
    s := Starts3(s);
    s := Returns(s, Scene(Ret, Boot, 0, 2, NONE, Runnable, Running, Runnable, false));
    s := SecondRuns(s);
    s := ChildAsks(s);
    s := Traps(s, Scene(Leaving, Leaving, NONE, 2, 1, Running, Running, NotRunnable, true));
  }

  /** A second env_destroy of an environment that still runs elsewhere is reached by a run, and breaks the invariant. */
  lemma UnsafeDestroyReached() returns (s: State)
    ensures Reachable(s) && KernelOk(s) && InCall(s, 0) && May(s.t, 0, 3) && s.t.envs[3].status == Dying
    ensures !KernelOk(Go(s, DestroyEnv(s.t, 0, 3), 0, Ret))
  {
    hide KernelOk, Reachable;
    s := ChildDies();
    DestroySafeIff(s, 0, 3);
  }

  // ----- The harm -----

  /** The machine with sys_env_set_status and env_destroy as the source has them, on every target they accept. */
  ghost predicate RawEnabled(s: State, st: Step)
    requires Typed(s)
  {
    && st.c < |s.mode|
    && match st
       case Destroy(c, e) => InCall(s, c) && May(s.t, c, e)
       case Status(c, e, status) => InCall(s, c) && May(s.t, c, e) && (status == Runnable || status == NotRunnable)
       case _ => Enabled(s, st)
  }

  ghost function RawApply(s: State, st: Step): State
    requires Typed(s) && RawEnabled(s, st)
  {
    match st
    case Destroy(c, e) => Go(s, DestroyEnv(s.t, c, e), c, if s.t.cur[c] == e then Yield else Ret)
    case Status(c, e, status) => Go(s, SetStatus(s.t, e, status), c, Ret)
    case _ => Apply(s, st)
  }

  ghost predicate RawRun(states: seq<State>, steps: seq<Step>) {
    && |states| == |steps| + 1
    && (exists used: nat :: Init(states[0], used))
    && forall k :: 0 <= k < |steps| ==> RawNext(states[k], steps[k], states[k + 1])
  }

  ghost predicate RawNext(s: State, st: Step, s2: State) {
    Typed(s) && RawEnabled(s, st) && s2 == RawApply(s, st)
  }

  ghost predicate RawReachable(s: State) {
    exists states: seq<State>, steps: seq<Step> :: RawRun(states, steps) && states[|steps|] == s
  }

  lemma RawReach(s: State, st: Step)
    requires RawReachable(s) && Typed(s) && RawEnabled(s, st)
    ensures RawReachable(RawApply(s, st))
  {
    var states: seq<State>, steps: seq<Step> :| RawRun(states, steps) && states[|steps|] == s;
    var states2, steps2 := states + [RawApply(s, st)], steps + [st];
    assert states2[0] == states[0];
    forall k | 0 <= k < |steps2| ensures RawNext(states2[k], steps2[k], states2[k + 1]) {
      if k < |steps| {
        assert RawNext(states[k], steps[k], states[k + 1]);
      }
    }
    assert states2[|steps2|] == RawApply(s, st);
  }

  /** A run is a raw run. */
  lemma ReachableRaw(s: State)
    requires Reachable(s)
    ensures RawReachable(s)
  {
    var states: seq<State>, steps: seq<Step> :| MultiCpu.Run(states, steps) && states[|steps|] == s;
    forall k | 0 <= k < |steps| ensures RawNext(states[k], steps[k], states[k + 1]) {
      assert Next(states[k], steps[k], states[k + 1]);
    }
  }

  ghost predicate RawShows(s: State, sc: Scene) {
    RawReachable(s) && Looks(s, sc)
  }

  /** sys_env_set_status makes the running child RUNNABLE. */
  lemma WakesRunning(s: State) returns (t: State)
    requires RawShows(s, Scene(Entry, Leaving, 0, 2, 3, Runnable, Running, Running, false))
    ensures RawShows(t, Scene(Leaving, Leaving, NONE, 2, 3, Runnable, Running, Runnable, false))
  {
    hide RawReachable;
    RawReach(s, Step.Status(0, 3, Runnable));
    var s1 := RawApply(s, Step.Status(0, 3, Runnable));
    RawReach(s1, Return(0));
    t := RawApply(s1, Return(0));
  }

  /** Environment 2 yields, and CPU 0 runs the child too. */
  lemma YieldsTo3(s: State) returns (t: State)
    requires RawShows(s, Scene(Entry, Leaving, 0, 2, 3, Runnable, Running, Runnable, false))
    ensures RawShows(t, Scene(Leaving, Leaving, NONE, 3, 3, Runnable, Runnable, Running, false))
  {
    hide RawReachable;
    RawReach(s, YieldCall(0));
    var s1 := RawApply(s, YieldCall(0));
    assert Nearest(s1.t.envs, 2, 3);
    RawReach(s1, Resched(0, Choice.Run(3)));
    t := RawApply(s1, Resched(0, Choice.Run(3)));
  }

  lemma TrapsRaw(s: State, sc: Scene) returns (t: State)
    requires RawShows(s, sc) && sc.m0 == Leaving && sc.c0 == 2 && sc.lock == NONE
    ensures RawShows(t, sc.(m0 := Entry, lock := 0))
  {
    hide RawReachable;
    RawReach(s, Leave(0));
    var s1 := RawApply(s, Leave(0));
    RawReach(s1, Trap(0));
    var s2 := RawApply(s1, Trap(0));
    RawReach(s2, Acquire(0));
    t := RawApply(s2, Acquire(0));
  }

  /** A second sys_env_set_status(child, ENV_RUNNABLE) by the parent puts two CPUs into user mode with one
      environment. */
  lemma OneEnvOnTwoCpus() returns (s: State)
    ensures RawReachable(s) && s.mode == [User, User] && s.t.cur == [3, 3] && Typed(s) && s.t.cr3[0] == s.t.cr3[1]
  {
    hide RawReachable, Looks;
    s := ChildRuns();
    ReachableRaw(s);
    s := WakesRunning(s);
    s := TrapsRaw(s, Scene(Leaving, Leaving, NONE, 2, 3, Runnable, Running, Runnable, false));
    s := YieldsTo3(s);
    s := BothLeave(s);
  }

  lemma BothLeave(s: State) returns (t: State)
    requires RawShows(s, Scene(Leaving, Leaving, NONE, 3, 3, Runnable, Runnable, Running, false))
    ensures RawReachable(t) && t.mode == [User, User] && t.t.cur == [3, 3] && Typed(t) && t.t.cr3[0] == t.t.cr3[1]
  {
    hide RawReachable;
    RawReach(s, Leave(0));
    var s1 := RawApply(s, Leave(0));
    RawReach(s1, Leave(1));
    t := RawApply(s1, Leave(1));
  }

  /** A second env_destroy of the child, which is still running, frees the page directory that CPU 1 is using in user
      mode: no environment has that directory any more, so it can be handed out again. */
  lemma UserOnFreedDirectory() returns (s: State)
    ensures RawReachable(s) && Typed(s) && |s.mode| == 2 && s.mode[1] == User && s.t.cur[1] == 3
    ensures s.t.envs[3].status == Free
    ensures s.t.cr3[1] != KERNDIR && forall e :: 0 <= e < NENV ==> s.t.envs[e].pgdir != s.t.cr3[1]
  {
    hide RawReachable, Reachable, IdleOk, IdsOk, Looks;
    var s0 := ChildDies();
    s := DestroyedTwice(s0);
  }

  lemma DestroyedTwice(s0: State) returns (s: State)
    requires Shows(s0, Scene(Entry, Leaving, 0, 2, 3, Runnable, Running, Dying, false))
    ensures RawReachable(s) && Typed(s) && |s.mode| == 2 && s.mode[1] == User && s.t.cur[1] == 3
    ensures s.t.envs[3].status == Free
    ensures s.t.cr3[1] != KERNDIR && forall e :: 0 <= e < NENV ==> s.t.envs[e].pgdir != s.t.cr3[1]
  {
    hide RawReachable, Reachable, IdleOk, IdsOk;
    ReachableRaw(s0);
    assert CpuOk(s0.t, s0.mode[1], 1);
    RawReach(s0, Leave(1));
    var s1 := RawApply(s0, Leave(1));
    RawReach(s1, Destroy(0, 3));
    s := RawApply(s1, Destroy(0, 3));
  }
}
