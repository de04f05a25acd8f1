/** The spin lock of kern/spinlock.c with its debug owner, under every interleaving of single reads,
    writes and exchanges of any number of CPUs. */
module Spinlock {
  const NULL := -1

  /** The next memory access of a CPU. Out: none, it is outside the lock. ReadLocked, ReadCpu: holding() called by
      spin_lock. Xchg: the loop. SetCpu, SetPcs: the debug record. In: inside the lock. MustLocked, MustCpu:
      holding() called by spin_unlock. ClearPcs, ClearCpu, Release: the rest of spin_unlock. */
  datatype Pc =
    | Out | ReadLocked | ReadCpu | Xchg | SetCpu | SetPcs
    | In | MustLocked | MustCpu | ClearPcs | ClearCpu | Release | Panic

  datatype State = State(locked: bool, cpu: int, pcs: int, pc: seq<Pc>)

  function Init(n: nat): State {
    State(false, NULL, NULL, seq(n, i => Out))
  }

  /** CPU `c` makes its next step, where `cpuFirst` gives the order of the two stores that end spin_unlock. */
  function Step(s: State, c: nat, cpuFirst: bool): (t: State)
    requires c < |s.pc|
    ensures |t.pc| == |s.pc| && forall d :: 0 <= d < |s.pc| && d != c ==> t.pc[d] == s.pc[d]
  {
    match s.pc[c]
    case Out => At(s, c, ReadLocked)
    case ReadLocked => At(s, c, if s.locked then ReadCpu else Xchg)
    case ReadCpu => At(s, c, if s.cpu == c then Panic else Xchg)
    case Xchg => State(true, s.cpu, s.pcs, s.pc[c := if s.locked then Xchg else SetCpu])
    case SetCpu => State(s.locked, c, s.pcs, s.pc[c := SetPcs])
    case SetPcs => State(s.locked, s.cpu, c, s.pc[c := In])
    case In => At(s, c, MustLocked)
    case MustLocked => At(s, c, if s.locked then MustCpu else Panic)
    case MustCpu => At(s, c, if s.cpu == c then ClearPcs else Panic)
    case ClearPcs => State(s.locked, s.cpu, NULL, s.pc[c := if cpuFirst then ClearCpu else Release])
    case ClearCpu => State(s.locked, NULL, s.pcs, s.pc[c := if cpuFirst then Release else Out])
    case Release => State(false, s.cpu, s.pcs, s.pc[c := if cpuFirst then Out else ClearCpu])
    case Panic => s
  }

  function At(s: State, c: nat, pc: Pc): State
    requires c < |s.pc|
  {
    State(s.locked, s.cpu, s.pcs, s.pc[c := pc])
  }

  /** `order` names only the first `n` CPUs. */
  predicate Among(order: seq<nat>, n: nat) {
    forall i :: 0 <= i < |order| ==> order[i] < n
  }

  /** The state after the CPUs of `order` have each made a step, one after the other. */
  function Exec(s: State, order: seq<nat>, cpuFirst: bool): (t: State)
    requires Among(order, |s.pc|)
    ensures |t.pc| == |s.pc|
  {
    if order == [] then s
    else
      Step(Exec(s, order[..|order| - 1], cpuFirst), order[|order| - 1], cpuFirst)
  }

  /** The CPU has taken the lock and not yet given it back. */
  predicate Holder(pc: Pc) {
    pc.SetCpu? || Named(pc) || pc.Release?
  }

  /** lk->cpu points to the CPU. */
  predicate Named(pc: Pc) {
    pc.SetPcs? || pc.In? || pc.MustLocked? || pc.MustCpu? || pc.ClearPcs? || pc.ClearCpu?
  }

  /** lk->pcs records the call of the CPU. */
  predicate Traced(pc: Pc) {
    pc.In? || pc.MustLocked? || pc.MustCpu? || pc.ClearPcs?
  }

  /** The lock is taken exactly while it has a holder, and it has at most one. */
  ghost predicate LockInv(s: State) {
    && (forall c: nat, d: nat :: c < d < |s.pc| && Holder(s.pc[c]) ==> !Holder(s.pc[d]))
    && (s.locked <==> exists c: nat :: c < |s.pc| && Holder(s.pc[c]))
  }

  /** The debug fields name the holder between its stores to them. */
  ghost predicate DebugInv(s: State) {
    && (forall c: nat :: c < |s.pc| ==> s.pc[c] != Panic)
    && (forall c: nat :: c < |s.pc| ==> (s.cpu == c <==> Named(s.pc[c])))
    && (forall c: nat :: c < |s.pc| ==> (s.pcs == c <==> Traced(s.pc[c])))
    && NULL <= s.cpu < |s.pc| && NULL <= s.pcs < |s.pc|
  }

  lemma StepKeepsLock(s: State, c: nat)
    requires LockInv(s) && DebugInv(s) && c < |s.pc|
    ensures LockInv(Step(s, c, true))
  {
    var t := Step(s, c, true);
    if Holder(t.pc[c]) {
      assert t.locked;
    } else if d: nat :| d < |s.pc| && Holder(s.pc[d]) && d != c {
      assert Holder(t.pc[d]);
    }
  }

  lemma StepKeepsDebug(s: State, c: nat)
    requires LockInv(s) && DebugInv(s) && c < |s.pc|
    ensures DebugInv(Step(s, c, true))
  {
    var t := Step(s, c, true);
    assert Holder(s.pc[c]) ==> forall d: nat :: d < |s.pc| && d != c ==> !Holder(s.pc[d]);
    assert Holder(s.pc[c]) ==> s.locked;
    hide LockInv;
  }

  lemma {:induction false} ExecKeeps(n: nat, order: seq<nat>)
    requires Among(order, n)
    ensures LockInv(Exec(Init(n), order, true)) && DebugInv(Exec(Init(n), order, true))
  {
    if order != [] {
      ExecKeeps(n, order[..|order| - 1]);
      StepKeepsLock(Exec(Init(n), order[..|order| - 1], true), order[|order| - 1]);
      StepKeepsDebug(Exec(Init(n), order[..|order| - 1], true), order[|order| - 1]);
    }
  }

  /** Under every interleaving: at most one CPU is inside the lock; a lk->cpu that is not NULL names the holder, and
      so does a recorded call chain; no call of holding() by another CPU returns true; and nothing panics. */
  lemma Exclusive(n: nat, order: seq<nat>)
    requires Among(order, n)
    ensures var s := Exec(Init(n), order, true);
      && (forall c: nat, d: nat :: c < n && d < n && Holder(s.pc[c]) && Holder(s.pc[d]) ==> c == d)
      && (s.locked <==> exists c: nat :: c < n && Holder(s.pc[c]))
      && (s.cpu != NULL ==> 0 <= s.cpu < n && Holder(s.pc[s.cpu]) && s.locked)
      && (s.pcs != NULL ==> s.pcs == s.cpu)
      && (forall c: nat :: c < n && s.locked && s.cpu == c ==> Holder(s.pc[c]))
      && (forall c: nat :: c < n ==> s.pc[c] != Panic)
  {
    ExecKeeps(n, order);
    var s := Exec(Init(n), order, true);
    assert s.pcs != NULL ==> Traced(s.pc[s.pcs]) && Named(s.pc[s.pcs]);
  }

  lemma ExecAppend(s: State, order: seq<nat>, c: nat, cpuFirst: bool)
    requires c < |s.pc| && Among(order, |s.pc|)
    ensures Among(order + [c], |s.pc|) && Exec(s, order + [c], cpuFirst) == Step(Exec(s, order, cpuFirst), c, cpuFirst)
  {
    assert (order + [c])[..|order|] == order;
  }

  // ----- The order of the two stores matters -----

  ghost predicate Solo(s: State, cpuFirst: bool) {
    && |s.pc| == 1 && s.pc[0] != Panic
    && (s.locked <==> Holder(s.pc[0]) && (s.pc[0] == ClearCpu ==> cpuFirst))
    && (s.cpu == 0 <==> Named(s.pc[0]) || (s.pc[0] == Release && !cpuFirst))
  }

  lemma {:induction false} SoloKeeps(order: seq<nat>, cpuFirst: bool)
    requires Among(order, 1)
    ensures Solo(Exec(Init(1), order, cpuFirst), cpuFirst)
  {
    if order != [] {
      SoloKeeps(order[..|order| - 1], cpuFirst);
    }
  }

  /** One more step of CPU `c`. */
  lemma Advance(n: nat, order: seq<nat>, c: nat) returns (order2: seq<nat>)
    requires c < n && Among(order, n)
    ensures Among(order2, n) && Exec(Init(n), order2, false) == Step(Exec(Init(n), order, false), c, false)
  {
    order2 := order + [c];
    ExecAppend(Init(n), order, c, false);
  }

  /** CPU 0 takes the lock, and releases it down to the store of lk->cpu that is still to come. */
  lemma FirstReleases(n: nat) returns (order: seq<nat>)
    requires n >= 2
    ensures Among(order, n) && Exec(Init(n), order, false) == State(false, 0, NULL, Init(n).pc[0 := ClearCpu])
  {
    order := [];
    order := Advance(n, order, 0);
    order := Advance(n, order, 0);
    order := Advance(n, order, 0);
    order := Advance(n, order, 0);
    order := Advance(n, order, 0);
    assert Exec(Init(n), order, false) == State(true, 0, 0, Init(n).pc[0 := In]);
    order := Advance(n, order, 0);
    order := Advance(n, order, 0);
    order := Advance(n, order, 0);
    order := Advance(n, order, 0);
    order := Advance(n, order, 0);
  }

  /** CPU 1 then takes the lock, CPU 0 clears lk->cpu, and CPU 1 panics when it releases the lock it holds. */
  lemma LatePanic(n: nat) returns (order: seq<nat>)
    requires n >= 2
    ensures Among(order, n) && Exec(Init(n), order, false).pc[1] == Panic
  {
    order := FirstReleases(n);
    order := Advance(n, order, 1);
    order := Advance(n, order, 1);
    order := Advance(n, order, 1);
    order := Advance(n, order, 1);
    assert Exec(Init(n), order, false) == State(true, 1, NULL, Init(n).pc[0 := ClearCpu][1 := SetPcs]);
    order := Advance(n, order, 0);
    assert Exec(Init(n), order, false) == State(true, NULL, NULL, Init(n).pc[1 := SetPcs]);
    order := Advance(n, order, 1);
    order := Advance(n, order, 1);
    order := Advance(n, order, 1);
    order := Advance(n, order, 1);
  }

  ghost predicate NeverPanics(n: nat, cpuFirst: bool) {
    forall order :: Among(order, n) ==> forall c: nat :: c < n ==> Exec(Init(n), order, cpuFirst).pc[c] != Panic
  }

  /** The lock never panics exactly if spin_unlock clears lk->cpu before lk->locked, or there is only one CPU. */
  lemma OrderMatters(n: nat, cpuFirst: bool)
    ensures NeverPanics(n, cpuFirst) <==> cpuFirst || n < 2
  {
    if cpuFirst {
      forall order | Among(order, n)
        ensures forall c: nat :: c < n ==> Exec(Init(n), order, cpuFirst).pc[c] != Panic
      {
        Exclusive(n, order);
      }
    } else if n == 1 {
      forall order | Among(order, n)
        ensures forall c: nat :: c < n ==> Exec(Init(n), order, cpuFirst).pc[c] != Panic
      {
        SoloKeeps(order, cpuFirst);
      }
    } else if n >= 2 {
      var order := LatePanic(n);
    }
  }
}
