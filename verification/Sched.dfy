/** sched_yield (kern/sched.c): which environment a CPU runs next, and how long one can wait. */
module Sched {
  import opened Envs

  /** What sched_yield ends in: env_run, the kernel monitor, or the panic for want of an idle environment. */
  datatype Choice = Run(e: nat) | Monitor | NoIdle

  /** An environment the scan may choose. */
  predicate Ready(x: Env) {
    !x.idle && x.status == Runnable
  }

  /** ENVX(curenv->env_id), or 0 if curenv is NULL. */
  function Last(t: Table, c: nat): nat
    requires Shape(t) && c < |t.cur|
  {
    if t.cur[c] == NONE then 0 else t.cur[c]
  }

  /** How many slots after `last` slot `e` lies, counting from 1 to NENV. */
  function Distance(last: nat, e: nat): (d: nat)
    requires last < NENV && e < NENV
    ensures 1 <= d <= NENV && (last + d) % NENV == e
  {
    if last < e then e - last else e + NENV - last
  }

  /** Slot `e` is the first after `last`, going round, whose environment may be chosen. */
  ghost predicate Nearest(envs: seq<Env>, last: nat, e: nat) {
    && |envs| == NENV && last < NENV && e < NENV && e != last && Ready(envs[e])
    && forall f: nat :: f < NENV && f != last && Ready(envs[f]) ==> Distance(last, e) <= Distance(last, f)
  }

  ghost predicate NoneReady(envs: seq<Env>, last: nat) {
    |envs| == NENV && forall f: nat :: f < NENV && f != last ==> !Ready(envs[f])
  }

  ghost predicate Busy(envs: seq<Env>) {
    exists e :: 0 <= e < |envs| && !envs[e].idle && (envs[e].status == Runnable || envs[e].status == Running)
  }

  /** The choice `r` is the one sched_yield makes on CPU `c`. */
  ghost predicate Chooses(t: Table, c: nat, r: Choice)
    requires Shape(t) && c < |t.cur|
  {
    var last := Last(t, c);
    || (r.Run? && Nearest(t.envs, last, r.e))
    || (r.Run? && NoneReady(t.envs, last) && r.e == t.cur[c] && t.envs[r.e].status == Runnable)
    || (NoneReady(t.envs, last) && (t.cur[c] == NONE || t.envs[last].status != Runnable) && Fallback(t, c, r))
  }

  /** Nothing to run but the CPU's own idle environment. */
  ghost predicate Fallback(t: Table, c: nat, r: Choice)
    requires Shape(t) && c < |t.cur|
  {
    var idle := t.envs[c].status == Runnable || t.envs[c].status == Running;
    r == if !Busy(t.envs) then Monitor else if idle then Run(c) else NoIdle
  }

  /** The choice is determined. */
  lemma ChoiceUnique(t: Table, c: nat, r: Choice, q: Choice)
    requires Shape(t) && c < |t.cur| && Chooses(t, c, r) && Chooses(t, c, q)
    ensures r == q
  {
    if r.Run? && q.Run? && Nearest(t.envs, Last(t, c), r.e) && Nearest(t.envs, Last(t, c), q.e) {
      assert Distance(Last(t, c), r.e) == Distance(Last(t, c), q.e);
    }
  }

  lemma {:induction false} NearestExists(envs: seq<Env>, last: nat, d: nat)
    requires |envs| == NENV && last < NENV && d <= NENV
    ensures (exists e: nat :: Nearest(envs, last, e)) ||
            forall f: nat :: f < NENV && f != last && Ready(envs[f]) ==> Distance(last, f) > d
  {
    if d > 0 {
      NearestExists(envs, last, d - 1);
      var f: nat := (last + d) % NENV;
      assert Distance(last, f) == d;
      if f != last && Ready(envs[f]) && !exists e: nat :: Nearest(envs, last, e) {
        assert Nearest(envs, last, f);
      }
    }
  }

  /** sched_yield always makes a choice. */
  lemma ChoiceExists(t: Table, c: nat) returns (r: Choice)
    requires Shape(t) && c < |t.cur|
    ensures Chooses(t, c, r)
  {
    var last := Last(t, c);
    NearestExists(t.envs, last, NENV);
    if e: nat :| Nearest(t.envs, last, e) {
      r := Run(e);
    } else if t.cur[c] != NONE && t.envs[last].status == Runnable {
      r := Run(last);
    } else if !Busy(t.envs) {
      r := Monitor;
    } else {
      r := if t.envs[c].status == Runnable || t.envs[c].status == Running then Run(c) else NoIdle;
    }
  }

  // ----- Fairness -----

  /** One call of sched_yield on a CPU: what it saw and what it chose. */
  datatype Call = Call(t: Table, c: nat, r: Choice)

  /** Successive calls on one CPU: curenv at a call is the environment the call before it chose, and
      `e` is waiting at each of them. Between two calls anything may happen to the other environments. */
  ghost predicate Calls(calls: seq<Call>, e: nat) {
    && e < NENV
    && (forall k :: 0 <= k < |calls| ==> Waits(calls[k], e))
    && (forall k :: 0 < k < |calls| ==> calls[k - 1].r == Run(calls[k].t.cur[calls[k].c]))
  }

  ghost predicate Waits(call: Call, e: nat) {
    && Shape(call.t) && call.c < |call.t.cur| && call.t.cur[call.c] != NONE && Chooses(call.t, call.c, call.r)
    && e < NENV && Ready(call.t.envs[e])
  }

  /** A call that passes over a waiting environment chooses a slot nearer to where it stands. */
  lemma Passed(call: Call, e: nat)
    requires Waits(call, e)
    ensures call.r.Run?
    ensures call.r.e == e || (call.r.e < NENV && Distance(call.r.e, e) < Distance(Last(call.t, call.c), e))
  {
    var last := Last(call.t, call.c);
    if e == last {
      if !Nearest(call.t.envs, last, call.r.e) {
        assert call.r == Run(e);
      }
    } else {
      assert !NoneReady(call.t.envs, last);
      assert Nearest(call.t.envs, last, call.r.e);
      assert Distance(last, call.r.e) <= Distance(last, e);
    }
  }

  /** Bounded fairness: an environment that is RUNNABLE at NENV successive calls, none of them made with
      curenv NULL, is chosen by one of them. */
  lemma {:induction false} ChosenInTime(calls: seq<Call>, e: nat)
    requires Calls(calls, e) && |calls| == NENV
    ensures exists k :: 0 <= k < |calls| && calls[k].r == Run(e)
  {
    if forall k :: 0 <= k < |calls| ==> calls[k].r != Run(e) {
      Closer(calls, e, NENV - 1);
      Passed(calls[NENV - 1], e);
    }
  }

  lemma {:induction false} Closer(calls: seq<Call>, e: nat, k: nat)
    requires Calls(calls, e) && k < |calls| && forall j :: 0 <= j < |calls| ==> calls[j].r != Run(e)
    ensures Distance(Last(calls[k].t, calls[k].c), e) + k <= NENV
  {
    if k > 0 {
      Closer(calls, e, k - 1);
      Passed(calls[k - 1], e);
    }
  }

  /** A call made with curenv NULL starts again from slot 0: with two environments ready it always
      chooses the lower, so that the other is never chosen however often it is called. */
  lemma NullStartsOver(t: Table, c: nat, low: nat, high: nat, r: Choice)
    requires Shape(t) && c < |t.cur| && t.cur[c] == NONE && Chooses(t, c, r)
    requires 0 < low < high < NENV && Ready(t.envs[low]) && Ready(t.envs[high])
    ensures r.Run? && 0 < r.e <= low && r != Run(high)
  {
    assert !NoneReady(t.envs, 0);
    assert Nearest(t.envs, 0, r.e);
    assert Distance(0, r.e) <= Distance(0, low);
  }
}
