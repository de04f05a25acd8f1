/** IPC (sys_ipc_try_send and sys_ipc_recv in kern/syscall.c, ipc_send and ipc_recv in lib/ipc.c) over
    the runs of MultiCpu: every value sent arrives once, unchanged and in order. */
module Messages {
  import Mmu
  import opened Envs
  import opened Sched
  import opened MultiCpu

  /** The messages of a log for the `gen`-th environment of slot `slot`, in order. */
  function To(log: seq<Msg>, slot: nat, gen: nat): seq<Msg> {
    if log == [] then []
    else
      var m := log[|log| - 1];
      To(log[..|log| - 1], slot, gen) + if m.slot == slot && m.gen == gen then [m] else []
  }

  /** The messages of a log that come from `from`, in order. */
  function From(log: seq<Msg>, from: int): seq<Msg> {
    if log == [] then []
    else
      var m := log[|log| - 1];
      From(log[..|log| - 1], from) + if m.from == from then [m] else []
  }

  ghost predicate Prefix(a: seq<Msg>, b: seq<Msg>) {
    |a| <= |b| && b[..|a|] == a
  }

  lemma ToAppend(log: seq<Msg>, m: Msg, slot: nat, gen: nat)
    ensures To(log + [m], slot, gen) == To(log, slot, gen) + if m.slot == slot && m.gen == gen then [m] else []
  {
    assert (log + [m])[..|log|] == log;
  }

  lemma {:induction false} FromPrefix(a: seq<Msg>, b: seq<Msg>, from: int)
    requires Prefix(a, b)
    ensures Prefix(From(a, from), From(b, from))
  {
    if |a| < |b| {
      FromPrefix(a, b[..|b| - 1], from);
    } else {
      assert a == b;
    }
  }

  /** The message in the IPC fields of slot `e` that its program has not yet read. */
  function Waiting(s: State, e: nat): seq<Msg>
    requires e < |s.t.envs| && e < |s.phase| && e < |s.gens|
  {
    if s.phase[e] == Unread || s.phase[e].HaveFrom?
    then [Msg(s.t.envs[e].from, e, s.gens[e], s.t.envs[e].value)]
    else []
  }

  ghost predicate MailAt(s: State, e: nat)
    requires Typed(s) && e < NENV
  {
    && (forall g: nat :: Prefix(To(s.got, e, g), To(s.sent, e, g)))
    && (forall g: nat :: g > s.gens[e] ==> To(s.sent, e, g) == [])
    && (s.t.envs[e].status != Free ==>
          && (s.t.envs[e].recving <==> s.phase[e] == Asking)
          && (s.phase[e].HaveFrom? ==> s.phase[e].from == s.t.envs[e].from)
          && To(s.sent, e, s.gens[e]) == To(s.got, e, s.gens[e]) + Waiting(s, e))
  }

  ghost predicate MailOk(s: State) {
    Typed(s) && forall e: nat :: e < NENV ==> MailAt(s, e)
  }

  // ----- Each step keeps the invariant -----

  /** The mail of slot `e` is the same in both states, or the slot has been freed. */
  ghost predicate SameMail(s: State, s2: State, e: nat)
    requires Typed(s) && Typed(s2) && e < NENV
  {
    var x, x2 := s.t.envs[e], s2.t.envs[e];
    && s2.gens[e] == s.gens[e]
    && (x2.status != Free ==>
          && x.status != Free && x2.recving == x.recving && x2.from == x.from && x2.value == x.value
          && s2.phase[e] == s.phase[e])
  }

  lemma SameMailKeeps(s: State, s2: State, e: nat)
    requires Typed(s) && Typed(s2) && e < NENV && MailAt(s, e) && SameMail(s, s2, e)
    requires s2.sent == s.sent && s2.got == s.got
    ensures MailAt(s2, e)
  {
  }

  predicate Quietly(st: Step) {
    !st.Fork? && !st.Recv? && !st.SendTo? && !st.ReadFrom? && !st.ReadValue?
  }

  lemma RanSameMail(s: State, c: nat, e2: nat, e: nat)
    requires Typed(s) && c < |s.mode| && e2 < NENV && e < NENV && s.t.envs[e2].status != Free
    ensures Typed(Ran(s, c, e2)) && SameMail(s, Ran(s, c, e2), e)
    ensures Ran(s, c, e2).sent == s.sent && Ran(s, c, e2).got == s.got
  {
  }

  lemma QuietStep(s: State, st: Step, e: nat)
    requires KernelOk(s) && Enabled(s, st) && Quietly(st) && e < NENV
    ensures Typed(Apply(s, st)) && SameMail(s, Apply(s, st), e)
    ensures Apply(s, st).sent == s.sent && Apply(s, st).got == s.got
  {
    hide CpusOk, EnvsOk, IdleOk, IdsOk, Chooses, Ran, Exofork, Forked, Delivered, Received;
    KernelTyped(s);
    var c := st.c;
    if st.Resched? {
      ReschedRuns(s, c, st.choice);
    }
    if st.Resched? && st.choice.Run? {
      RanSameMail(s, c, st.choice.e, e);
    } else if st.Return? && s.t.cur[c] != NONE && s.t.envs[s.t.cur[c]].status == Running {
      RanSameMail(s, c, s.t.cur[c], e);
    }
  }

  lemma QuietStepKeeps(s: State, st: Step)
    requires KernelOk(s) && MailOk(s) && Enabled(s, st) && Quietly(st)
    ensures MailOk(Apply(s, st))
  {
    QuietStep(s, st, 0);
    hide KernelOk, Enabled;
    forall e: nat | e < NENV ensures MailAt(Apply(s, st), e) {
      assert MailAt(s, e);
      QuietStep(s, st, e);
      SameMailKeeps(s, Apply(s, st), e);
    }
  }

  lemma ForkMail(s: State, c: nat, dir: int)
    requires KernelOk(s) && MailOk(s) && Enabled(s, Fork(c, dir))
    ensures MailOk(Apply(s, Fork(c, dir)))
  {
    var s2 := Apply(s, Fork(c, dir));
    forall e: nat | e < NENV ensures MailAt(s2, e) {
      assert MailAt(s, e);
      if e != s.t.free[0] {
        SameMailKeeps(s, s2, e);
      } else {
        assert Prefix(To(s.got, e, s2.gens[e]), To(s.sent, e, s2.gens[e]));
      }
    }
  }

  lemma RecvMail(s: State, c: nat, dstva: Va)
    requires KernelOk(s) && MailOk(s) && Enabled(s, Recv(c, dstva))
    ensures MailOk(Apply(s, Recv(c, dstva)))
  {
    var s2 := Apply(s, Recv(c, dstva));
    forall e: nat | e < NENV ensures MailAt(s2, e) {
      assert MailAt(s, e);
      if e != s.t.cur[c] {
        SameMailKeeps(s, s2, e);
      }
    }
  }

  lemma ReadFromMail(s: State, c: nat)
    requires KernelOk(s) && MailOk(s) && Enabled(s, ReadFrom(c))
    ensures MailOk(Apply(s, ReadFrom(c)))
  {
    var s2 := Apply(s, ReadFrom(c));
    forall e: nat | e < NENV ensures MailAt(s2, e) {
      assert MailAt(s, e);
    }
  }

  /** A message is logged as sent and waits in slot `m.slot`. */
  lemma SentMailAt(s: State, s2: State, e: nat, m: Msg)
    requires Typed(s) && Typed(s2) && e < NENV && MailAt(s, e) && m.slot < NENV
    requires s2.got == s.got && s2.sent == s.sent + [m] && s2.gens == s.gens && m.gen == s.gens[m.slot]
    requires if e != m.slot then SameMail(s, s2, e)
             else && s.t.envs[e].status != Free && Waiting(s, e) == [] && Waiting(s2, e) == [m]
                  && s2.phase[e] == Unread && !s2.t.envs[e].recving
    ensures MailAt(s2, e)
  {
    forall g: nat
      ensures To(s2.sent, e, g) == To(s.sent, e, g) + if e == m.slot && g == m.gen then [m] else []
      ensures Prefix(To(s2.got, e, g), To(s2.sent, e, g))
    {
      ToAppend(s.sent, m, e, g);
      assert Prefix(To(s.got, e, g), To(s.sent, e, g));
    }
    hide To, Prefix;
  }

  /** The waiting message of slot `m.slot` is logged as received. */
  lemma GotMailAt(s: State, s2: State, e: nat, m: Msg)
    requires Typed(s) && Typed(s2) && e < NENV && MailAt(s, e) && m.slot < NENV
    requires s2.sent == s.sent && s2.got == s.got + [m] && s2.gens == s.gens && m.gen == s.gens[m.slot]
    requires if e != m.slot then SameMail(s, s2, e)
             else s.t.envs[e].status != Free && Waiting(s, e) == [m] && s2.phase[e] == Quiet && !s2.t.envs[e].recving
    ensures MailAt(s2, e)
  {
    forall g: nat
      ensures To(s2.got, e, g) == To(s.got, e, g) + if e == m.slot && g == m.gen then [m] else []
      ensures Prefix(To(s2.got, e, g), To(s2.sent, e, g))
    {
      ToAppend(s.got, m, e, g);
      if e == m.slot && g == m.gen {
        assert To(s2.got, e, g) == To(s2.sent, e, g);
      } else {
        assert Prefix(To(s.got, e, g), To(s.sent, e, g));
      }
    }
    hide To, Prefix;
  }

  lemma SendMail(s: State, c: nat, e0: nat, value: int, perm: Mmu.Flags)
    requires KernelOk(s) && MailOk(s) && Enabled(s, SendTo(c, e0, value, perm))
    ensures MailOk(Apply(s, SendTo(c, e0, value, perm)))
  {
    var s2 := Apply(s, SendTo(c, e0, value, perm));
    var m := Msg(s.t.envs[s.t.cur[c]].id, e0, s.gens[e0], value);
    hide To;
    assert MailAt(s, e0);
    forall e: nat | e < NENV ensures MailAt(s2, e) {
      assert MailAt(s, e);
      SentMailAt(s, s2, e, m);
    }
  }

  lemma ReadValueMail(s: State, c: nat)
    requires KernelOk(s) && MailOk(s) && Enabled(s, ReadValue(c))
    ensures MailOk(Apply(s, ReadValue(c)))
  {
    var s2 := Apply(s, ReadValue(c));
    var e0: nat := s.t.cur[c];
    hide To;
    assert CpuOk(s.t, s.mode[c], c);
    assert MailAt(s, e0);
    var m := Msg(s.phase[e0].from, e0, s.gens[e0], s.t.envs[e0].value);
    forall e: nat | e < NENV ensures MailAt(s2, e) {
      assert MailAt(s, e);
      GotMailAt(s, s2, e, m);
    }
  }

  lemma StepKeepsMail(s: State, st: Step)
    requires KernelOk(s) && MailOk(s) && Enabled(s, st)
    ensures MailOk(Apply(s, st))
  {
    hide KernelOk, MailOk, Enabled, Apply;
    match st
    case Fork(c, dir) => ForkMail(s, c, dir);
    case Recv(c, dstva) => RecvMail(s, c, dstva);
    case SendTo(c, e, value, perm) => SendMail(s, c, e, value, perm);
    case ReadFrom(c) => ReadFromMail(s, c);
    case ReadValue(c) => ReadValueMail(s, c);
    case _ => QuietStepKeeps(s, st);
  }

  lemma {:induction false} RunKeepsMail(states: seq<State>, steps: seq<Step>, k: nat)
    requires MultiCpu.Run(states, steps) && k < |states|
    ensures KernelOk(states[k]) && MailOk(states[k])
  {
    RunKeeps(states, steps, k);
    if k == 0 {
      var used: nat :| Init(states[0], used);
      InitMail(states[0], used);
    } else {
      RunKeepsMail(states, steps, k - 1);
      assert Next(states[k - 1], steps[k - 1], states[k]);
      hide MailOk, KernelOk;
      StepKeepsMail(states[k - 1], steps[k - 1]);
    }
  }

  lemma InitMail(s: State, used: nat)
    requires Init(s, used)
    ensures MailOk(s)
  {
    assert forall e: nat {:trigger MailAt(s, e)} :: e < NENV ==> InitEnv(s, e, used);
  }

  // ----- Delivery -----

  /** In every state of every run, what an environment has received from one sender is a prefix of what
      that sender has sent it; an environment that lives and has no message waiting has
      received everything sent to it. */
  lemma DeliveredInOrder(states: seq<State>, steps: seq<Step>, k: nat, slot: nat, gen: nat, from: int)
    requires MultiCpu.Run(states, steps) && k < |states| && slot < NENV
    ensures Typed(states[k])
    ensures var s := states[k];
      && Prefix(From(To(s.got, slot, gen), from), From(To(s.sent, slot, gen), from))
      && (s.t.envs[slot].status != Free ==>
            To(s.sent, slot, s.gens[slot]) == To(s.got, slot, s.gens[slot]) + Waiting(s, slot))
  {
    RunKeepsMail(states, steps, k);
    assert MailAt(states[k], slot);
    FromPrefix(To(states[k].got, slot, gen), To(states[k].sent, slot, gen), from);
  }

  /** A message that waits is not overwritten: until its receiver has read it or is freed, every step
      leaves the IPC fields as they are. */
  lemma NotOverwritten(states: seq<State>, steps: seq<Step>, k: nat, e: nat)
    requires MultiCpu.Run(states, steps) && k < |steps| && e < NENV
    requires Typed(states[k]) && states[k].t.envs[e].status != Free && Waiting(states[k], e) != []
    ensures Typed(states[k + 1])
    ensures var s, s2 := states[k], states[k + 1];
      || Waiting(s2, e) == Waiting(s, e)
      || s2.t.envs[e].status == Free
      || (steps[k] == ReadValue(steps[k].c) && s.t.cur[steps[k].c] == e && s2.got == s.got + Waiting(s, e))
  {
    RunKeepsMail(states, steps, k);
    RunKeepsMail(states, steps, k + 1);
    assert Next(states[k], steps[k], states[k + 1]);
    assert MailAt(states[k], e);
    if Quietly(steps[k]) {
      QuietStep(states[k], steps[k], e);
    } else {
      LoudStep(states[k], steps[k], e);
    }
  }

  lemma LoudStep(s: State, st: Step, e: nat)
    requires KernelOk(s) && Enabled(s, st) && !Quietly(st) && e < NENV && MailAt(s, e)
    requires s.t.envs[e].status != Free && Waiting(s, e) != []
    ensures var s2 := Apply(s, st);
      Typed(s2) &&
      (Waiting(s2, e) == Waiting(s, e) ||
       (st == ReadValue(st.c) && s.t.cur[st.c] == e && s2.got == s.got + Waiting(s, e)))
  {
    hide CpusOk, EnvsOk, IdleOk, IdsOk, To, Prefix, StatusSafe, May;
    KernelTyped(s);
    match st
    case Fork(c, dir) =>
      FirstFree(s.t);
      ForkElsewhere(s, c, dir, e);
    case SendTo(c, e2, value, perm) =>
      assert Waiting(Delivered(s, c, e2, value, perm), e) == Waiting(s, e);
    case Recv(c, dstva) =>
      assert Waiting(Apply(s, st), e) == Waiting(s, e);
    case ReadFrom(c) =>
    case ReadValue(c) =>
  }

  lemma ForkElsewhere(s: State, c: nat, dir: int, e: nat)
    requires Typed(s) && c < |s.mode| && s.t.cur[c] != NONE && s.t.free != [] && e < NENV && e != s.t.free[0]
    ensures Typed(Forked(s, c, dir)) && Waiting(Forked(s, c, dir), e) == Waiting(s, e)
  {
  }

  // ----- Who has a message can run -----

  /** A successful sys_ipc_try_send wakes its receiver, with the message in place. */
  lemma SendWakes(states: seq<State>, steps: seq<Step>, k: nat)
    requires MultiCpu.Run(states, steps) && k < |steps| && steps[k].SendTo?
    ensures Typed(states[k]) && Typed(states[k + 1]) && steps[k].e < NENV && steps[k].c < |states[k].t.cur|
    ensures var s, s2, e := states[k], states[k + 1], steps[k].e;
      && s.t.cur[steps[k].c] != NONE && s.t.envs[e].status == NotRunnable
      && s2.t.envs[e].status == Runnable && !s2.t.envs[e].recving
      && Waiting(s2, e) == [Msg(s.t.envs[s.t.cur[steps[k].c]].id, e, s.gens[e], steps[k].value)]
  {
    RunKeeps(states, steps, k);
    RunKeeps(states, steps, k + 1);
    assert Next(states[k], steps[k], states[k + 1]);
    AskersWait(states[k], steps[k].e);
  }

  /** Environment `e` has a message that it has not read, but is not runnable. */
  ghost predicate HeldUp(s: State, e: nat) {
    Typed(s) && e < NENV && s.t.envs[e].status == NotRunnable && Waiting(s, e) != []
  }

  /** Only sys_env_set_status brings that about. */
  lemma HeldUpStep(s: State, st: Step, e: nat)
    requires KernelOk(s) && MailOk(s) && Enabled(s, st) && HeldUp(Apply(s, st), e)
    ensures
      || HeldUp(s, e)
      || (st == Step.Status(st.c, e, NotRunnable) && s.t.envs[e].status != Free && Waiting(s, e) != [])
  {
    hide CpusOk, EnvsOk, IdleOk, IdsOk, Chooses, StatusSafe, To, Prefix;
    KernelTyped(s);
    assert MailAt(s, e);
    if st.Resched? {
      ReschedRuns(s, st.c, st.choice);
    }
    if st.Fork? {
      FirstFree(s.t);
    }
    if st.ReadFrom? || st.ReadValue? {
      UserRuns(s, st.c);
    }
  }

  lemma UserRuns(s: State, c: nat)
    requires KernelOk(s) && c < |s.mode| && s.mode[c] == User && s.t.cur[c] != NONE
    ensures s.t.envs[s.t.cur[c]].status == Running || s.t.envs[s.t.cur[c]].status == Dying
  {
    assert CpuOk(s.t, s.mode[c], c);
  }

  /** Over all runs: a live environment with a message waiting can be scheduled, runs or is being ended, unless
      a call of sys_env_set_status has stopped it since the message came. */
  lemma {:induction false} MessageWakes(states: seq<State>, steps: seq<Step>, j: nat, e: nat) returns (i: nat)
    requires MultiCpu.Run(states, steps) && j < |states| && HeldUp(states[j], e)
    ensures i < j && steps[i] == Step.Status(steps[i].c, e, NotRunnable)
    ensures forall k :: i <= k <= j ==>
      Typed(states[k]) && states[k].t.envs[e].status != Free && Waiting(states[k], e) != []
    ensures forall k :: i < k <= j ==> HeldUp(states[k], e)
  {
    hide MailOk, KernelOk, Enabled, Apply;
    if j == 0 {
      var used: nat :| Init(states[0], used);
      NobodyWaits(states[0], used, e);
    } else {
      RunKeepsMail(states, steps, j - 1);
      assert Next(states[j - 1], steps[j - 1], states[j]);
      HeldUpStep(states[j - 1], steps[j - 1], e);
      if HeldUp(states[j - 1], e) {
        i := MessageWakes(states, steps, j - 1, e);
      } else {
        i := j - 1;
      }
    }
  }

  lemma NobodyWaits(s: State, used: nat, e: nat)
    requires Init(s, used) && e < NENV
    ensures Waiting(s, e) == []
  {
    assert InitEnv(s, e, used);
  }
}
