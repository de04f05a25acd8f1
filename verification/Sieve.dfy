/** The prime sieve of user/primes.c: a chain of environments joined by ipc_send and ipc_recv, as a
    machine whose processes step in any order. */
module Sieve {
  /** A process of the chain. Fresh: at `top`, before its first value. Got: before its fork. Wait: at the
      ipc_recv of the loop. Test: before `i % p`. Sending: in ipc_send. `asking` says that the process is blocked
      in sys_ipc_recv, so that a send to it succeeds. */
  datatype Stage =
    | Fresh(asking: bool)
    | Got(p: int)
    | Wait(p: int, asking: bool)
    | Test(p: int, i: int)
    | Sending(p: int, i: int)

  /** `next` is the generator's `i`; `room` is how many processes can be created in all. */
  datatype State = State(next: int, stages: seq<Stage>, room: nat)

  /** A step of the generator, or of stage `k`. */
  datatype Step = First | Generate | Ask(k: nat) | Fork(k: nat) | Filter(k: nat) | Send(k: nat)

  predicate Asking(st: Stage) {
    (st.Fresh? || st.Wait?) && st.asking
  }

  predicate Enabled(s: State, step: Step) {
    match step
    case First => s.stages == [] && s.room > 0
    case Generate => s.stages != [] && Asking(s.stages[0])
    case Ask(k) => k < |s.stages| && (s.stages[k].Fresh? || s.stages[k].Wait?) && !s.stages[k].asking
    case Fork(k) => k < |s.stages| && s.stages[k].Got? && |s.stages| < s.room
    case Filter(k) => k < |s.stages| && s.stages[k].Test? && s.stages[k].p != 0
    case Send(k) => k + 1 < |s.stages| && s.stages[k].Sending? && Asking(s.stages[k + 1])
  }

  /** A process that asks receives `v`. */
  function Deliver(st: Stage, v: int): Stage {
    match st
    case Fresh(_) => Got(v)
    case Wait(p, _) => Test(p, v)
    case _ => st
  }

  function SetStage(s: State, k: nat, st: Stage): State
    requires k < |s.stages|
  {
    State(s.next, s.stages[k := st], s.room)
  }

  function Apply(s: State, step: Step): State
    requires Enabled(s, step)
  {
    match step
    case First => State(s.next, [Fresh(false)], s.room)
    case Generate => State(s.next + 1, s.stages[0 := Deliver(s.stages[0], s.next)], s.room)
    case Ask(k) => SetStage(s, k, if s.stages[k].Fresh? then Fresh(true) else Wait(s.stages[k].p, true))
    case Fork(k) => State(s.next, s.stages[k := Wait(s.stages[k].p, false)] + [Fresh(false)], s.room)
    case Filter(k) =>
      var p, i := s.stages[k].p, s.stages[k].i;
      SetStage(s, k, if i % p != 0 then Sending(p, i) else Wait(p, false))
    case Send(k) => SetStage(SetStage(s, k, Wait(s.stages[k].p, false)), k + 1, Deliver(s.stages[k + 1], s.stages[k].i))
  }

  // ----- The invariant -----

  /** Stage `k` and the stages after it have seen every value below this bound that reaches them. */
  function Bound(s: State, k: nat): int
    requires k <= |s.stages|
  {
    if k == 0 then s.next else if Holds(s.stages[k - 1]) then s.stages[k - 1].i else Bound(s, k - 1)
  }

  predicate Holds(st: Stage) {
    st.Test? || st.Sending?
  }

  function PrimeOf(st: Stage): int {
    if st.Fresh? then 1 else st.p
  }

  /** The value passes the filters of the first `k` stages. */
  ghost predicate Passes(s: State, k: nat, v: int)
    requires k <= |s.stages|
  {
    v >= 2 && forall j: nat :: j < k ==> PrimeOf(s.stages[j]) != 0 && v % PrimeOf(s.stages[j]) != 0
  }

  /** No value in [lo, hi) passes the filters of the first `k` stages. */
  ghost predicate NonePass(s: State, k: nat, lo: int, hi: int)
    requires k <= |s.stages|
  {
    forall v :: lo <= v < hi ==> !Passes(s, k, v)
  }

  /** `p` is the least value that reaches stage `k`. */
  ghost predicate Leads(s: State, k: nat, p: int)
    requires k <= |s.stages|
  {
    Passes(s, k, p) && NonePass(s, k, 2, p) && p < Bound(s, k)
  }

  ghost predicate StageOk(s: State, k: nat)
    requires k < |s.stages|
  {
    match s.stages[k]
    case Fresh(_) => NonePass(s, k, 2, Bound(s, k))
    case Got(p) => Leads(s, k, p) && NonePass(s, k, p + 1, Bound(s, k))
    case Wait(p, _) => Leads(s, k, p)
    case Test(p, i) => Leads(s, k, p) && p < i < Bound(s, k) && Passes(s, k, i) && NonePass(s, k, i + 1, Bound(s, k))
    case Sending(p, i) =>
      Leads(s, k, p) && p < i < Bound(s, k) && Passes(s, k, i) && NonePass(s, k, i + 1, Bound(s, k)) && i % p != 0
  }

  ghost predicate Inv(s: State) {
    && s.next >= 2
    && (s.stages == [] ==> s.next == 2)
    && (forall k: nat :: k < |s.stages| ==> StageOk(s, k))
    && (forall k: nat :: k < |s.stages| ==> ((s.stages[k].Fresh? || s.stages[k].Got?) <==> k + 1 == |s.stages|))
  }

  /** Bounds agree from stage `k0` on if they agree there and the stages after it are the same. */
  lemma {:induction false} BoundSame(s: State, t: State, k0: nat, k: nat)
    requires k0 <= k <= |s.stages| && k <= |t.stages| && Bound(s, k0) == Bound(t, k0)
    requires forall j :: k0 <= j < k ==> t.stages[j] == s.stages[j] || (!Holds(t.stages[j]) && !Holds(s.stages[j]))
    ensures Bound(s, k) == Bound(t, k)
  {
    if k > k0 {
      BoundSame(s, t, k0, k - 1);
    }
  }

  /** A stage that is as it was, behind the same filters and below the same bound, is still as it should be. */
  lemma StageSame(s: State, t: State, k: nat)
    requires k < |s.stages| && k < |t.stages| && t.stages[k] == s.stages[k] && StageOk(s, k)
    requires forall j: nat :: j < k ==> PrimeOf(t.stages[j]) == PrimeOf(s.stages[j])
    requires Bound(s, k) == Bound(t, k)
    ensures StageOk(t, k)
  {
    PassesSame(s, t, k);
  }

  lemma PassesSame(s: State, t: State, k: nat)
    requires k <= |s.stages| && k <= |t.stages|
    requires forall j: nat :: j < k ==> PrimeOf(t.stages[j]) == PrimeOf(s.stages[j])
    ensures forall v :: Passes(s, k, v) <==> Passes(t, k, v)
  {
  }

  /** A process that asks, and receives the value at its bound, is as it should be under the bound that follows. */
  lemma DeliverOk(s: State, t: State, k: nat, v: int)
    requires k < |s.stages| && k < |t.stages| && StageOk(s, k) && Asking(s.stages[k])
    requires t.stages[k] == Deliver(s.stages[k], v)
    requires forall j: nat :: j < k ==> PrimeOf(t.stages[j]) == PrimeOf(s.stages[j])
    requires Bound(s, k) == v < Bound(t, k) && Passes(t, k, v) && NonePass(t, k, v + 1, Bound(t, k))
    ensures StageOk(t, k)
  {
    PassesSame(s, t, k);
  }

  lemma FewerPass(s: State, k: nat, lo: int, hi: int)
    requires k < |s.stages| && NonePass(s, k, lo, hi)
    ensures NonePass(s, k + 1, lo, hi)
  {
    assert forall v {:trigger Passes(s, k + 1, v)} :: Passes(s, k + 1, v) ==> Passes(s, k, v);
  }

  lemma GenerateKeeps(s: State)
    requires Inv(s) && Enabled(s, Generate)
    ensures Inv(Apply(s, Generate))
  {
    var t := Apply(s, Generate);
    assert StageOk(s, 0);
    DeliverOk(s, t, 0, s.next);
    forall k: nat | 0 < k < |s.stages| ensures StageOk(t, k) {
      assert StageOk(s, k);
      BoundSame(s, t, 1, k);
      StageSame(s, t, k);
    }
  }

  lemma LocalKeeps(s: State, k: nat, st: Stage)
    requires Inv(s) && k < |s.stages| && PrimeOf(st) == PrimeOf(s.stages[k]) && StageOk(SetStage(s, k, st), k)
    requires Bound(SetStage(s, k, st), k + 1) == Bound(s, k + 1)
    requires (st.Fresh? || st.Got?) <==> k + 1 == |s.stages|
    ensures Inv(SetStage(s, k, st))
  {
    var t := SetStage(s, k, st);
    forall j: nat | j < |s.stages| && j != k ensures StageOk(t, j) {
      assert StageOk(s, j);
      BoundSame(s, t, if j < k then 0 else k + 1, j);
      StageSame(s, t, j);
    }
  }

  lemma AskKeeps(s: State, k: nat)
    requires Inv(s) && Enabled(s, Ask(k))
    ensures Inv(Apply(s, Ask(k)))
  {
    var t := Apply(s, Ask(k));
    assert StageOk(s, k);
    BoundSame(s, t, 0, k);
    PassesSame(s, t, k);
    LocalKeeps(s, k, t.stages[k]);
  }

  lemma FilterKeeps(s: State, k: nat)
    requires Inv(s) && Enabled(s, Filter(k))
    ensures Inv(Apply(s, Filter(k)))
  {
    var t := Apply(s, Filter(k));
    var p, i := s.stages[k].p, s.stages[k].i;
    assert StageOk(s, k);
    BoundSame(s, t, 0, k);
    PassesSame(s, t, k);
    if i % p != 0 {
      LocalKeeps(s, k, t.stages[k]);
    } else {
      // The value is dropped, and every later stage has now seen the values up to the bound of this one.
      forall j: nat | j < |s.stages| ensures StageOk(t, j) {
        assert StageOk(s, j);
        if j < k {
          BoundSame(s, t, 0, j);
          StageSame(s, t, j);
        } else if j > k {
          DropKeeps(s, t, k, j);
        }
      }
    }
  }

  /** Stage `k` drops its value: the bound of a later stage rises, past values that do not reach it. */
  lemma {:induction false} DropKeeps(s: State, t: State, k: nat, j: nat)
    requires Inv(s) && Enabled(s, Filter(k)) && t == Apply(s, Filter(k)) && k < j < |s.stages| && !Holds(t.stages[k])
    ensures StageOk(t, j) && Bound(s, j) <= Bound(t, j) && NonePass(s, j, Bound(s, j), Bound(t, j))
  {
    PassesSame(s, t, j);
    assert StageOk(s, j);
    if j == k + 1 {
      BoundSame(s, t, 0, k);
      assert StageOk(s, k);
      var p, i := s.stages[k].p, s.stages[k].i;
      FewerPass(s, k, i + 1, Bound(s, k));
      assert PrimeOf(s.stages[k]) == p && !Passes(s, j, i);
    } else {
      DropKeeps(s, t, k, j - 1);
      assert StageOk(s, j - 1);
      FewerPass(s, j - 1, Bound(s, j - 1), Bound(t, j - 1));
    }
    HigherBound(s, t, j);
  }

  /** A higher bound is as good if no value between reaches the stage. */
  lemma HigherBound(s: State, t: State, j: nat)
    requires j < |s.stages| && j < |t.stages| && StageOk(s, j) && t.stages[j] == s.stages[j]
    requires forall i: nat :: i < j ==> PrimeOf(t.stages[i]) == PrimeOf(s.stages[i])
    requires Bound(s, j) <= Bound(t, j) && NonePass(s, j, Bound(s, j), Bound(t, j))
    ensures StageOk(t, j)
  {
    PassesSame(s, t, j);
  }

  lemma ForkKeeps(s: State, k: nat)
    requires Inv(s) && Enabled(s, Fork(k))
    ensures Inv(Apply(s, Fork(k)))
  {
    var t := Apply(s, Fork(k));
    var p := s.stages[k].p;
    assert StageOk(s, k);
    forall j: nat | j < |t.stages| ensures StageOk(t, j) {
      if j < k {
        assert StageOk(s, j);
        BoundSame(s, t, 0, j);
        StageSame(s, t, j);
      } else {
        BoundSame(s, t, 0, k);
        PassesSame(s, t, k);
        assert forall v :: Passes(t, k + 1, v) ==> Passes(t, k, v) && v % p != 0;
      }
    }
  }

  lemma SendKeeps(s: State, k: nat)
    requires Inv(s) && Enabled(s, Send(k))
    ensures Inv(Apply(s, Send(k)))
  {
    var t := Apply(s, Send(k));
    var i := s.stages[k].i;
    assert StageOk(s, k) && StageOk(s, k + 1);
    BoundSame(s, t, 0, k);
    PassesSame(s, t, k);
    assert StageOk(t, k);
    assert Bound(s, k + 1) == i && Bound(t, k + 1) == Bound(t, k);
    PassesSame(s, t, k + 1);
    assert PrimeOf(t.stages[k]) == s.stages[k].p != 0;
    assert Passes(t, k, i) && Passes(t, k + 1, i);
    FewerPass(t, k, i + 1, Bound(t, k));
    DeliverOk(s, t, k + 1, i);
    forall j: nat | j < |t.stages| && j != k && j != k + 1 ensures StageOk(t, j) {
      assert StageOk(s, j);
      BoundSame(s, t, if j < k then 0 else k + 2, j);
      StageSame(s, t, j);
    }
  }

  lemma StepKeeps(s: State, step: Step)
    requires Inv(s) && Enabled(s, step)
    ensures Inv(Apply(s, step))
  {
    match step
    case First =>
    case Generate => GenerateKeeps(s);
    case Ask(k) => AskKeeps(s, k);
    case Fork(k) => ForkKeeps(s, k);
    case Filter(k) => FilterKeeps(s, k);
    case Send(k) => SendKeeps(s, k);
  }

  // ----- Runs -----

  ghost predicate Run(states: seq<State>, steps: seq<Step>) {
    && |states| == |steps| + 1
    && states[0].next == 2 && states[0].stages == []
    && forall n :: 0 <= n < |steps| ==> Enabled(states[n], steps[n]) && states[n + 1] == Apply(states[n], steps[n])
  }

  lemma {:induction false} RunKeeps(states: seq<State>, steps: seq<Step>, n: nat)
    requires Run(states, steps) && n < |states|
    ensures Inv(states[n])
  {
    if n > 0 {
      RunKeeps(states, steps, n - 1);
      StepKeeps(states[n - 1], steps[n - 1]);
    }
  }

  predicate IsPrime(n: int) {
    n >= 2 && forall d :: 2 <= d < n ==> n % d != 0
  }

  /** How many primes lie below `n`. */
  function PrimesBelow(n: nat): nat {
    if n == 0 then 0 else PrimesBelow(n - 1) + if IsPrime(n - 1) then 1 else 0
  }

  lemma {:induction false} NoPrimesBetween(a: nat, b: nat)
    requires a <= b && forall q :: a <= q < b ==> !IsPrime(q)
    ensures PrimesBelow(b) == PrimesBelow(a)
    decreases b
  {
    if a < b {
      NoPrimesBetween(a, b - 1);
    }
  }

  lemma DividesThrough(v: int, d: int, p: int)
    requires p >= 1 && d >= 1 && v % d == 0 && d % p == 0
    ensures v % p == 0
  {
    var x, y := v / d, d / p;
    assert v == x * d && d == y * p;
    assert v == (x * y) * p;
    MultipleMod(x * y, p);
  }

  lemma MultipleMod(k: int, p: int)
    requires p >= 1
    ensures (k * p) % p == 0
  {
    var r := (k * p) % p;
    var z := (k * p) / p - k;
    assert z * p == -r;
    assert z >= 1 ==> z * p >= p;
    assert z <= -1 ==> (-z) * p >= p;
  }

  /** The least value that passes the filters is prime. */
  lemma LeastIsPrime(s: State, k: nat, p: int)
    requires k <= |s.stages| && Passes(s, k, p) && NonePass(s, k, 2, p)
    requires forall j: nat :: j < k ==> PrimeOf(s.stages[j]) >= 2
    ensures IsPrime(p)
  {
    forall d | 2 <= d < p ensures p % d != 0 {
      assert !Passes(s, k, d);
      var j: nat :| j < k && d % PrimeOf(s.stages[j]) == 0;
      if p % d == 0 {
        DividesThrough(p, d, PrimeOf(s.stages[j]));
      }
    }
  }

  /** Stage `k` has received its prime. */
  predicate Started(s: State, k: nat) {
    k < |s.stages| && !s.stages[k].Fresh?
  }

  lemma StartedLeads(s: State, k: nat)
    requires Inv(s) && Started(s, k)
    ensures Leads(s, k, PrimeOf(s.stages[k]))
    ensures forall j: nat :: j <= k ==> Started(s, j) && PrimeOf(s.stages[j]) >= 2
  {
    assert StageOk(s, k);
    forall j: nat | j <= k ensures Started(s, j) && PrimeOf(s.stages[j]) >= 2 {
      assert StageOk(s, j);
    }
  }

  /** Primes of earlier stages are smaller. */
  lemma PrimesIncrease(s: State, j: nat, k: nat)
    requires Inv(s) && Started(s, k) && j < k
    ensures PrimeOf(s.stages[j]) < PrimeOf(s.stages[k])
  {
    StartedLeads(s, k);
    StartedLeads(s, j);
    var p, q := PrimeOf(s.stages[j]), PrimeOf(s.stages[k]);
    assert Passes(s, k, q) ==> Passes(s, j, q);
    assert p != q by {
      assert q % p != 0;
      MultipleMod(1, p);
    }
  }

  /** Whatever passes the filters of the first k stages and is prime is none of their primes, and a prime that does
      not pass is one of them. */
  lemma PrimePasses(s: State, k: nat, q: int)
    requires k <= |s.stages| && IsPrime(q) && forall j: nat :: j < k ==> PrimeOf(s.stages[j]) >= 2
    ensures Passes(s, k, q) <==> forall j: nat :: j < k ==> PrimeOf(s.stages[j]) != q
  {
    forall j: nat | j < k ensures q % PrimeOf(s.stages[j]) == 0 <==> PrimeOf(s.stages[j]) == q {
      var p := PrimeOf(s.stages[j]);
      if p == q {
        MultipleMod(1, p);
      } else if p > q {
        assert q % p == q;
      }
    }
  }

  /** No prime lies between the primes of two neighbours. */
  lemma NoneBetween(s: State, k: nat, x: int)
    requires Inv(s) && Started(s, k) && k > 0 && PrimeOf(s.stages[k - 1]) < x < PrimeOf(s.stages[k])
    ensures !IsPrime(x)
  {
    StartedLeads(s, k);
    if IsPrime(x) {
      assert !Passes(s, k, x);
      PrimePasses(s, k, x);
      var j: nat :| j < k && PrimeOf(s.stages[j]) == x;
      if j < k - 1 {
        PrimesIncrease(s, j, k - 1);
      }
    }
  }

  /** Stage `k` holds the k-th prime, counting from 0: it is prime, and exactly k primes are smaller. */
  lemma {:induction false} HoldsKthPrime(s: State, k: nat)
    requires Inv(s) && Started(s, k)
    ensures IsPrime(PrimeOf(s.stages[k])) && PrimesBelow(PrimeOf(s.stages[k])) == k
  {
    StartedLeads(s, k);
    var q := PrimeOf(s.stages[k]);
    LeastIsPrime(s, k, q);
    if k == 0 {
      assert q == 2 by {
        assert q > 2 ==> Passes(s, 0, 2);
      }
      NoPrimesBetween(0, q);
    } else {
      HoldsKthPrime(s, k - 1);
      var p := PrimeOf(s.stages[k - 1]);
      PrimesIncrease(s, k - 1, k);
      forall x | p + 1 <= x < q ensures !IsPrime(x) {
        NoneBetween(s, k, x);
      }
      hide IsPrime, Inv, Leads;
      NoPrimesBetween(p + 1, q);
    }
  }

  /** The sieve is correct: in every state of every run, stage k holds the k-th prime, the value it is testing
      or sending is divisible by none of the primes before it, and values nearer the generator are larger. */
  lemma SieveCorrect(states: seq<State>, steps: seq<Step>, n: nat, k: nat)
    requires Run(states, steps) && n < |states| && Started(states[n], k)
    ensures var s := states[n];
      var p := PrimeOf(s.stages[k]);
      && IsPrime(p) && PrimesBelow(p) == k
      && (Holds(s.stages[k]) ==> p < s.stages[k].i < s.next)
      && (Holds(s.stages[k]) ==>
            forall j: nat :: j < k ==> PrimeOf(s.stages[j]) != 0 && s.stages[k].i % PrimeOf(s.stages[j]) != 0)
      && (forall j: nat :: j < k && Holds(s.stages[j]) && Holds(s.stages[k]) ==> s.stages[k].i < s.stages[j].i)
  {
    RunKeeps(states, steps, n);
    var s := states[n];
    HoldsKthPrime(s, k);
    assert StageOk(s, k);
    BoundBelow(s, 0, k);
    forall j: nat | j < k && Holds(s.stages[j]) && Holds(s.stages[k]) ensures s.stages[k].i < s.stages[j].i {
      BoundBelow(s, j + 1, k);
    }
  }

  /** Bounds fall along the chain. */
  lemma {:induction false} BoundBelow(s: State, j: nat, k: nat)
    requires Inv(s) && j <= k <= |s.stages|
    ensures Bound(s, k) <= Bound(s, j)
  {
    if j < k {
      BoundBelow(s, j, k - 1);
      assert StageOk(s, k - 1);
    }
  }

  /** Nothing but want of environments stops the sieve: the first process, or the one the last must fork, cannot
      be made. */
  predicate OutOfRoom(s: State) {
    |s.stages| >= s.room && (s.stages == [] || s.stages[|s.stages| - 1].Got?)
  }

  /** Some process can always step, unless the next to be made finds no environment left. */
  lemma SomeoneSteps(s: State)
    requires Inv(s)
    ensures (exists step :: Enabled(s, step)) || OutOfRoom(s)
  {
    if s.stages == [] {
      assert s.room > 0 ==> Enabled(s, First);
    } else {
      LastFree(s, |s.stages| - 1);
    }
  }

  /** From stage `k` down to the generator: someone can step if stage `k` asks for a value or can step. */
  lemma {:induction false} LastFree(s: State, k: nat)
    requires Inv(s) && k < |s.stages| && (k + 1 < |s.stages| ==> Asking(s.stages[k + 1]))
    ensures (exists step :: Enabled(s, step)) || OutOfRoom(s)
  {
    assert StageOk(s, k);
    match s.stages[k]
    case Got(_) => assert |s.stages| < s.room ==> Enabled(s, Fork(k));
    case Test(_, _) => assert Enabled(s, Filter(k));
    case Sending(_, _) => assert Enabled(s, Send(k));
    case _ =>
      if !Asking(s.stages[k]) {
        assert Enabled(s, Ask(k));
      } else if k == 0 {
        assert Enabled(s, Generate);
      } else {
        LastFree(s, k - 1);
      }
  }

  // ----- What each stage receives over a run -----

  /** The values delivered to stage `k` in the first `n` steps of a run. */
  function Received(states: seq<State>, steps: seq<Step>, n: nat, k: nat): seq<int>
    requires n <= |steps| && |states| == |steps| + 1
  {
    if n == 0 then []
    else
      var s := states[n - 1];
      Received(states, steps, n - 1, k) +
      if k == 0 && steps[n - 1] == Generate then [s.next]
      else if k > 0 && steps[n - 1] == Send(k - 1) && k - 1 < |s.stages| && s.stages[k - 1].Sending?
      then [s.stages[k - 1].i]
      else []
  }

  /** `vs` lists, in increasing order, exactly the values below the bound of stage `k` that pass the filters
      before it. */
  ghost predicate Complete(s: State, k: nat, vs: seq<int>) {
    if k < |s.stages| then
      && (forall i, j :: 0 <= i < j < |vs| ==> vs[i] < vs[j])
      && (forall v :: v in vs <==> v < Bound(s, k) && Passes(s, k, v))
    else vs == []
  }

  /** The bound of stage `k` rises, if at all, past values that do not reach it. */
  ghost predicate Rises(s: State, t: State, k: nat)
    requires k <= |s.stages| && k <= |t.stages|
  {
    Bound(s, k) <= Bound(t, k) && NonePass(s, k, Bound(s, k), Bound(t, k))
  }

  /** So it does at a step that delivers nothing to that stage. */
  lemma {:induction false} BoundRises(s: State, step: Step, k: nat)
    requires Inv(s) && Enabled(s, step) && k < |s.stages| && step != (if k == 0 then Generate else Send(k - 1))
    ensures k < |Apply(s, step).stages| && Rises(s, Apply(s, step), k)
  {
    if k > 0 {
      if step == Filter(k - 1) && s.stages[k - 1].i % s.stages[k - 1].p == 0 {
        DropKeeps(s, Apply(s, step), k - 1, k);
      } else if step == (if k == 1 then Generate else Send(k - 2)) {
        RisesAtDelivery(s, step, k - 1);
      } else {
        BoundRises(s, step, k - 1);
        RisesThrough(s, step, k - 1);
      }
    }
  }

  /** A value delivered to stage `k` raises the bound of the next one past nothing but itself, if it was the first. */
  lemma RisesAtDelivery(s: State, step: Step, k: nat)
    requires Inv(s) && Enabled(s, step) && k + 1 < |s.stages| && step == (if k == 0 then Generate else Send(k - 1))
    ensures Rises(s, Apply(s, step), k + 1)
  {
    assert StageOk(s, k);
    BoundAtDelivery(s, step, k);
  }

  /** A stage that takes no part passes the rise on, or holds it up. */
  lemma RisesThrough(s: State, step: Step, k: nat)
    requires Inv(s) && Enabled(s, step) && k + 1 < |s.stages| && Rises(s, Apply(s, step), k)
    requires step != Send(k) && step != (if k == 0 then Generate else Send(k - 1))
    requires step == Filter(k) ==> s.stages[k].i % s.stages[k].p != 0
    ensures Rises(s, Apply(s, step), k + 1)
  {
    if !Holds(s.stages[k]) {
      FewerPass(s, k, Bound(s, k), Bound(Apply(s, step), k));
    }
  }

  /** The value delivered to a stage is its bound. */
  lemma BoundAtDelivery(s: State, step: Step, k: nat)
    requires Inv(s) && Enabled(s, step) && k < |s.stages| && step == if k == 0 then Generate else Send(k - 1)
    ensures var v := if k == 0 then s.next else s.stages[k - 1].i;
      Bound(s, k) == v < Bound(Apply(s, step), k) && Passes(s, k, v) && NonePass(s, k, v + 1, Bound(Apply(s, step), k))
  {
    var t := Apply(s, step);
    assert StageOk(s, k);
    if k > 0 {
      assert StageOk(s, k - 1);
      BoundSame(s, t, 0, k - 1);
      assert PrimeOf(s.stages[k - 1]) == s.stages[k - 1].p != 0;
      FewerPass(s, k - 1, s.stages[k - 1].i + 1, Bound(s, k - 1));
    }
  }

  /** The filters before a stage that exists do not change. */
  lemma FiltersStay(s: State, step: Step, k: nat)
    requires Inv(s) && Enabled(s, step) && k < |s.stages|
    ensures k < |Apply(s, step).stages| && forall v :: Passes(Apply(s, step), k, v) <==> Passes(s, k, v)
  {
    PassesSame(s, Apply(s, step), k);
  }

  lemma StepCompletes(s: State, step: Step, k: nat, vs: seq<int>)
    requires Inv(s) && Enabled(s, step) && Complete(s, k, vs)
    ensures Complete(Apply(s, step), k, vs +
      if k == 0 && step == Generate then [s.next]
      else if k > 0 && step == Send(k - 1) && k - 1 < |s.stages| && s.stages[k - 1].Sending? then [s.stages[k - 1].i]
      else [])
  {
    var t := Apply(s, step);
    if k < |s.stages| {
      FiltersStay(s, step, k);
      if step == (if k == 0 then Generate else Send(k - 1)) {
        BoundAtDelivery(s, step, k);
        var v := Bound(s, k);
        assert forall x :: x in vs + [v] <==> x in vs || x == v;
        assert forall i :: 0 <= i < |vs| ==> vs[i] in vs;
      } else {
        BoundRises(s, step, k);
        assert vs + [] == vs;
      }
    } else {
      StepKeeps(s, step);
      if k < |t.stages| {
        assert StageOk(t, k);
      }
    }
  }

  /** Over every run: the values a stage has received are increasing, and they are exactly the integers below
      its bound, from 2 on, that none of the primes before it divides. Nothing is lost, repeated or overtaken. */
  lemma {:induction false} ReceivesInOrder(states: seq<State>, steps: seq<Step>, n: nat, k: nat)
    requires Run(states, steps) && n <= |steps|
    ensures Complete(states[n], k, Received(states, steps, n, k))
  {
    if n > 0 {
      ReceivesInOrder(states, steps, n - 1, k);
      RunKeeps(states, steps, n - 1);
      StepCompletes(states[n - 1], steps[n - 1], k, Received(states, steps, n - 1, k));
    }
  }
}
