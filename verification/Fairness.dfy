/** How long an environment can wait for a CPU, over the runs of MultiCpu: at most NENV calls of sched_yield that
    are made with an environment, and for ever if they are made with none. */
module Fairness {
  import opened Envs
  import opened Sched
  import opened MultiCpu

  predicate IsResched(st: Step, c: nat) {
    st.Resched? && st.c == c
  }

  /** curenv of a CPU changes to another environment only in sched_yield. */
  lemma CurStep(s: State, st: Step, c: nat)
    requires KernelOk(s) && Enabled(s, st) && c < |s.t.cur| && !IsResched(st, c)
    ensures c < |Apply(s, st).t.cur| && (Apply(s, st).t.cur[c] == s.t.cur[c] || Apply(s, st).t.cur[c] == NONE)
  {
    hide EnvsOk, IdleOk, IdsOk, CpusOk, Chooses, StatusSafe, May;
    KernelTyped(s);
    if st.Resched? {
      ReschedRuns(s, st.c, st.choice);
    }
  }

  lemma CurAfter(s: State, c: nat, choice: Choice)
    requires KernelOk(s) && Enabled(s, Resched(c, choice)) && choice.Run?
    ensures c < |Apply(s, Resched(c, choice)).t.cur| && Apply(s, Resched(c, choice)).t.cur[c] == choice.e
  {
    hide EnvsOk, IdleOk, IdsOk, CpusOk, Chooses;
    KernelTyped(s);
    ReschedRuns(s, c, choice);
  }

  /** Until its next call of sched_yield a CPU has the environment that the last call chose, or none. */
  lemma {:induction false} CurUntil(states: seq<State>, steps: seq<Step>, c: nat, i: nat, j: nat)
    requires MultiCpu.Run(states, steps) && i < j <= |steps| && IsResched(steps[i], c) && steps[i].choice.Run?
    requires forall k :: i < k < j ==> !IsResched(steps[k], c)
    ensures c < |states[j].t.cur| && (states[j].t.cur[c] == steps[i].choice.e || states[j].t.cur[c] == NONE)
  {
    hide KernelOk, Enabled, Apply;
    RunKeeps(states, steps, j - 1);
    assert Next(states[j - 1], steps[j - 1], states[j]);
    if j - 1 > i {
      CurUntil(states, steps, c, i, j - 1);
      CurStep(states[j - 1], steps[j - 1], c);
    } else {
      CurAfter(states[i], c, steps[i].choice);
    }
  }

  /** The steps `ks` are successive calls of sched_yield on CPU `c`, all of them made with an environment
      and while `e` is ready. */
  ghost predicate CallsOn(states: seq<State>, steps: seq<Step>, c: nat, ks: seq<nat>, e: nat) {
    && |states| == |steps| + 1 && e < NENV
    && (forall i :: 0 <= i < |ks| ==> ks[i] < |steps| && IsResched(steps[ks[i]], c) && ReadyAt(states[ks[i]], c, e))
    && (forall i :: 0 < i < |ks| ==> ks[i - 1] < ks[i] && forall k :: ks[i - 1] < k < ks[i] ==> !IsResched(steps[k], c))
  }

  ghost predicate ReadyAt(s: State, c: nat, e: nat) {
    |s.t.envs| == NENV && e < NENV && Ready(s.t.envs[e]) && c < |s.t.cur| && s.t.cur[c] != NONE
  }

  /** Bounded fairness over runs: an environment that is RUNNABLE at NENV successive calls of sched_yield on a
      CPU, none of them made with curenv NULL, is chosen by one of them. */
  lemma WaitIsBounded(states: seq<State>, steps: seq<Step>, c: nat, ks: seq<nat>, e: nat)
    requires MultiCpu.Run(states, steps) && CallsOn(states, steps, c, ks, e) && |ks| == NENV
    ensures exists i :: 0 <= i < |ks| && steps[ks[i]] == Resched(c, Choice.Run(e))
  {
    var calls := seq(NENV, i requires 0 <= i < NENV =>
      Call(states[ks[i]].t, c, if steps[ks[i]].Resched? then steps[ks[i]].choice else Monitor));
    forall i | 0 <= i < NENV ensures Waits(calls[i], e) {
      assert Next(states[ks[i]], steps[ks[i]], states[ks[i] + 1]);
    }
    forall i | 0 < i < NENV ensures calls[i - 1].r == Choice.Run(calls[i].t.cur[c]) {
      Passed(calls[i - 1], e);
      assert IsResched(steps[ks[i - 1]], c);
      CurUntil(states, steps, c, ks[i - 1], ks[i]);
    }
    ChosenInTime(calls, e);
  }

  /** Over every run in which a CPU calls sched_yield with curenv NULL only, while a lower environment is ready, a
      higher one is never chosen on that CPU. */
  lemma NullStarves(states: seq<State>, steps: seq<Step>, c: nat, high: nat)
    requires MultiCpu.Run(states, steps) && high < NENV
    requires forall k :: 0 <= k < |steps| && IsResched(steps[k], c) ==>
      |states[k].t.envs| == NENV && c < |states[k].t.cur| && states[k].t.cur[c] == NONE &&
      Ready(states[k].t.envs[high]) && exists low :: 0 < low < high && Ready(states[k].t.envs[low])
    ensures forall k :: 0 <= k < |steps| ==> steps[k] != Resched(c, Choice.Run(high))
  {
    forall k | 0 <= k < |steps| ensures steps[k] != Resched(c, Choice.Run(high)) {
      assert Next(states[k], steps[k], states[k + 1]);
      if IsResched(steps[k], c) {
        var low :| 0 < low < high && Ready(states[k].t.envs[low]);
        NullStartsOver(states[k].t, c, low, high, steps[k].choice);
      }
    }
  }
}
