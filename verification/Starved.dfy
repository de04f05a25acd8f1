/** A family of runs of one CPU in which a ready environment is never chosen, however long the run: two slots below
    it take turns, each environment forking its successor and then destroying itself, so that
    sched_yield is always called with curenv NULL. */
module Starved {
  import opened Envs
  import opened Sched
  import opened MultiCpu
  import opened Fairness

  /** The slot of the environment that waits. */
  const HIGH := 3

  /** How often sched_yield has been called. */
  function Rescheds(steps: seq<Step>): nat {
    if steps == [] then 0 else Rescheds(steps[..|steps| - 1]) + if IsResched(steps[|steps| - 1], 0) then 1 else 0
  }

  ghost predicate Waiting(s: State) {
    |s.t.envs| == NENV && Ready(s.t.envs[HIGH])
  }

  /** A run with `n` calls of sched_yield in which slot HIGH is always ready and never chosen. */
  ghost predicate StarvingRun(states: seq<State>, steps: seq<Step>, n: nat) {
    && MultiCpu.Run(states, steps) && Rescheds(steps) == n
    && (forall k :: 0 <= k < |states| ==> Waiting(states[k]))
    && (forall k :: 0 <= k < |steps| ==> steps[k] != Resched(0, Choice.Run(HIGH)))
  }

  /** Such a run ends in `s`. */
  ghost predicate Starving(s: State, n: nat) {
    exists states: seq<State>, steps: seq<Step> :: StarvingRun(states, steps, n) && states[|steps|] == s
  }

  lemma Extend(s: State, n: nat, st: Step)
    requires Starving(s, n) && KernelOk(s) && Enabled(s, st) && Waiting(Apply(s, st))
    requires st != Resched(0, Choice.Run(HIGH))
    ensures Starving(Apply(s, st), n + if IsResched(st, 0) then 1 else 0)
    ensures KernelOk(Apply(s, st)) && Typed(Apply(s, st))
  {
    StepKeeps(s, st);
    KernelTyped(Apply(s, st));
    ExtendRun(s, n, st, Apply(s, st));
  }

  lemma ExtendRun(s: State, n: nat, st: Step, t: State)
    requires Starving(s, n) && Next(s, st, t) && Waiting(t) && st != Resched(0, Choice.Run(HIGH))
    ensures Starving(t, n + if IsResched(st, 0) then 1 else 0)
  {
    hide Next, Waiting, Init;
    var states: seq<State>, steps: seq<Step> :| StarvingRun(states, steps, n) && states[|steps|] == s;
    var states2, steps2 := states + [t], steps + [st];
    assert states2[0] == states[0] && steps2[..|steps2| - 1] == steps;
    forall k | 0 <= k < |steps2| ensures Next(states2[k], steps2[k], states2[k + 1]) {
      if k < |steps| {
        assert Next(states[k], steps[k], states[k + 1]);
      }
    }
    assert StarvingRun(states2, steps2, n + if IsResched(st, 0) then 1 else 0);
    assert states2[|steps2|] == t;
  }

  /** CPU 0 in mode `m` with environment `a` (or none), and slot `b` in status `x`; when that is free it is the
      next to be taken, and 100 + b is no page directory. */
  ghost predicate Shows(s: State, n: nat, m: Mode, lock: int, cur: int,
                        a: nat, xa: Envs.Status, b: nat, x: Envs.Status) {
    && Starving(s, n) && KernelOk(s) && Typed(s) && Waiting(s)
    && s.mode == [m] && s.lock == lock && s.t.cur == [cur] && {a, b} == {1, 2}
    && s.t.envs[0].idle && (s.t.envs[0].status == Runnable) && s.t.envs[0].pgdir < 100 && s.t.envs[HIGH].pgdir < 100
    && s.t.envs[a].status == xa && s.t.envs[b].status == x && !s.t.envs[a].idle && !s.t.envs[b].idle
    && (forall e :: 4 <= e < NENV ==> s.t.envs[e].status == Free && s.t.envs[e].pgdir == NONE)
    && (x == Free ==> s.t.free != [] && s.t.free[0] == b && s.t.envs[a].pgdir != 100 + b && s.t.envs[b].pgdir == NONE)
    && (xa == Free ==> s.t.free != [] && s.t.free[0] == a && s.t.envs[a].pgdir == NONE && s.t.envs[b].pgdir != 100 + a)
    && (xa == Runnable ==> s.t.envs[a].pgdir != 100 + b && !s.t.envs[a].recving)
    && (x == NotRunnable || x == Runnable ==> s.t.envs[b].pgdir != 100 + a && !s.t.envs[b].recving)
    && (x == NotRunnable ==> xa == Running && s.t.envs[b].parent == s.t.envs[a].id)
  }

  function StartState(): State {
    State(
      Table(seq(NENV, e requires 0 <= e < NENV =>
              Env(if e < 4 then Runnable else Free, e == 0, IdAt(e, if e < 4 then 1 else 0), 0,
                  if e < 4 then e else NONE, false, 0, 0, 0, {})),
            seq(NENV - 4, i => 4 + i), [NONE], [KERNDIR]),
      [Yield], 0, seq(NENV, e => if e < 4 then 1 else 0), seq(NENV, e => Quiet), [], [])
  }

  lemma Starts() returns (s: State)
    ensures Shows(s, 0, Yield, 0, NONE, 2, Runnable, 1, Runnable)
  {
    hide Init, KernelOk;
    s := StartState();
    StartInit();
    InitOk(s, 4);
    var states: seq<State>, steps: seq<Step> := [s], [];
    assert states[0] == s && Init(states[0], 4);
    assert StarvingRun(states, steps, 0) && states[|steps|] == s;
  }

  lemma StartInit()
    ensures Init(StartState(), 4)
  {
    var s := StartState();
    assert forall e: nat {:trigger InitEnv(s, e, 4)} :: e < NENV ==> InitEnv(s, e, 4);
  }

  /** sched_yield without an environment takes the lower slot, which is `b`. */
  lemma Chosen(s: State, n: nat, a: nat, xa: Envs.Status, b: nat) returns (t: State)
    requires Shows(s, n, Yield, 0, NONE, a, xa, b, Runnable) && (xa == Free || (xa == Runnable && b < a))
    ensures Shows(t, n + 1, Leaving, NONE, b, b, Running, a, xa)
  {
    hide KernelOk, Starving;
    assert Nearest(s.t.envs, 0, b);
    Extend(s, n, Resched(0, Choice.Run(b)));
    t := Apply(s, Resched(0, Choice.Run(b)));
  }

  lemma Traps(s: State, n: nat, a: nat, b: nat, x: Envs.Status) returns (t: State)
    requires Shows(s, n, Leaving, NONE, a, a, Running, b, x)
    ensures Shows(t, n, Entry, 0, a, a, Running, b, x)
  {
    hide KernelOk, Starving;
    Extend(s, n, Leave(0));
    var s1 := Apply(s, Leave(0));
    Extend(s1, n, Trap(0));
    var s2 := Apply(s1, Trap(0));
    Extend(s2, n, Acquire(0));
    t := Apply(s2, Acquire(0));
  }

  lemma Returns(s: State, n: nat, a: nat, b: nat, x: Envs.Status) returns (t: State)
    requires Shows(s, n, Ret, 0, a, a, Running, b, x)
    ensures Shows(t, n, Leaving, NONE, a, a, Running, b, x)
  {
    hide KernelOk, Starving;
    Extend(s, n, Return(0));
    t := Apply(s, Return(0));
  }

  /** The running environment forks the slot that is free. */
  lemma Forks(s: State, n: nat, a: nat, b: nat) returns (t: State)
    requires Shows(s, n, Entry, 0, a, a, Running, b, Free)
    ensures Shows(t, n, Ret, 0, a, a, Running, b, NotRunnable)
  {
    hide KernelOk, Starving;
    Extend(s, n, Fork(0, 100 + b));
    t := Apply(s, Fork(0, 100 + b));
  }

  lemma Wakes(s: State, n: nat, a: nat, b: nat) returns (t: State)
    requires Shows(s, n, Entry, 0, a, a, Running, b, NotRunnable)
    ensures Shows(t, n, Ret, 0, a, a, Running, b, Runnable)
  {
    hide KernelOk, Starving;
    Extend(s, n, Step.Status(0, b, Runnable));
    t := Apply(s, Step.Status(0, b, Runnable));
  }

  /** It destroys itself. */
  lemma Dies(s: State, n: nat, a: nat, b: nat) returns (t: State)
    requires Shows(s, n, Entry, 0, a, a, Running, b, Runnable)
    ensures Shows(t, n, Yield, 0, NONE, a, Free, b, Runnable)
  {
    hide KernelOk, Starving;
    Extend(s, n, Destroy(0, a));
    t := Apply(s, Destroy(0, a));
  }

  /** One round: the running environment is replaced by its child in the other slot. */
  lemma Round(s: State, n: nat, a: nat, b: nat) returns (t: State)
    requires Shows(s, n, Leaving, NONE, a, a, Running, b, Free)
    ensures Shows(t, n + 1, Leaving, NONE, b, b, Running, a, Free)
  {
    hide Shows;
    t := Traps(s, n, a, b, Free);
    t := Forks(t, n, a, b);
    t := Returns(t, n, a, b, NotRunnable);
    t := Traps(t, n, a, b, NotRunnable);
    t := Wakes(t, n, a, b);
    t := Returns(t, n, a, b, Runnable);
    t := Traps(t, n, a, b, Runnable);
    t := Dies(t, n, a, b);
    t := Chosen(t, n, a, Free, b);
  }

  lemma {:induction false} Rounds(n: nat) returns (s: State, a: nat, b: nat)
    requires n >= 2
    ensures Shows(s, n, Leaving, NONE, a, a, Running, b, Free)
  {
    hide Shows;
    if n == 2 {
      s := Starts();
      s := Chosen(s, 0, 2, Runnable, 1);
      s := Traps(s, 1, 1, 2, Runnable);
      s := Dies(s, 1, 1, 2);
      s := Chosen(s, 1, 1, Free, 2);
      a, b := 2, 1;
    } else {
      s, b, a := Rounds(n - 1);
      s := Round(s, n - 1, b, a);
    }
  }

  /** For every number of calls of sched_yield there is a run with as many in which an environment is ready from the
      first state to the last and is never chosen. */
  lemma StarvesForever(n: nat)
    requires n >= 2
    ensures exists states: seq<State>, steps: seq<Step> :: StarvingRun(states, steps, n)
  {
    var s, a, b := Rounds(n);
    var states: seq<State>, steps: seq<Step> :| StarvingRun(states, steps, n) && states[|steps|] == s;
  }
}
