/** Permissions under copy-on-write fork: what user programs may do to a page depends on W and COW alone, and
    every other permission bit is the one the page was given. */
module CowRights {
  import opened Mmu
  import opened CowFork

  /** The permission bits that fork and page faults must leave as they are. */
  function Bits(flags: Flags): Flags {
    flags - {W, COW}
  }

  /** User programs may access every mapped page. */
  ghost predicate UserSlots(s: State) {
    forall e: nat, p: nat :: Maps(s, e, p) ==> {P, U} <= At(s, e, p).flags
  }

  /** No page is both writable and copy-on-write. */
  ghost predicate ClearSlots(s: State) {
    forall e: nat, p: nat :: Maps(s, e, p) ==> W !in At(s, e, p).flags || COW !in At(s, e, p).flags
  }

  /** The bits `flags` are those of page `p` of `e`. */
  ghost predicate BitsOf(s: State, e: nat, p: nat, flags: Flags) {
    Maps(s, e, p) && Bits(flags) == Bits(At(s, e, p).flags)
  }

  /** The permissions that a program inside duppage or pgfault is about to give. */
  ghost predicate ForkPerm(s: State, e: nat)
    requires e in s.procs
  {
    var k := s.procs[e].fork;
    k.Dup? || k.Window? ==>
      && {P, U} <= k.perm && COW in k.perm && W !in k.perm
      && (k.pn != PFTEMP ==> BitsOf(s, e, k.pn, k.perm))
  }

  ghost predicate FaultPerm(s: State, e: nat)
    requires e in s.procs
  {
    var k := s.procs[e].fault;
    k.Alloc? || k.Copy? ==> {P, U} <= k.perm && W in k.perm && COW !in k.perm && BitsOf(s, e, k.pn, k.perm)
  }

  ghost predicate PermsOk(s: State) {
    forall e :: e in s.procs ==> ForkPerm(s, e) && FaultPerm(s, e)
  }

  // ----- One step -----

  /** A page stays mapped with the same other bits, unless its owner maps a new one there or ends. */
  lemma BitsKept(s: State, st: Step, e: nat, p: nat)
    requires Inv(s) && PermsOk(s) && Enabled(s, st) && Maps(s, e, p) && p != PFTEMP
    requires !(st.PageAlloc? && st.e == e && st.pn == p) && st != Exit(e)
    ensures Maps(Apply(s, st), e, p) && Bits(At(Apply(s, st), e, p).flags) == Bits(At(s, e, p).flags)
  {
    hide Exclusive, FramesOk, TablesExist, FaultOk, Free, CanMap, Exhausted;
    SlotEffects(s, st);
    if st.e in s.procs {
      assert ForkOk(s, st.e) && ForkPerm(s, st.e) && FaultPerm(s, st.e);
    }
  }

  /** What a step writes into a slot is for user programs, too, and is not both writable and copy-on-write. */
  lemma SlotsStep(s: State, st: Step, e: nat, p: nat)
    requires Inv(s) && PermsOk(s) && UserSlots(s) && Enabled(s, st) && Maps(Apply(s, st), e, p)
    ensures {P, U} <= At(Apply(s, st), e, p).flags
    ensures ClearSlots(s) ==> W !in At(Apply(s, st), e, p).flags || COW !in At(Apply(s, st), e, p).flags
  {
    hide Exclusive, FramesOk, TablesExist, FaultOk, Free, CanMap, Exhausted;
    SlotEffects(s, st);
    if st.e in s.procs {
      assert ForkOk(s, st.e) && ForkPerm(s, st.e) && FaultPerm(s, st.e);
    }
  }

  lemma ForkPermStep(s: State, st: Step, e: nat)
    requires Inv(s) && PermsOk(s) && UserSlots(s) && Enabled(s, st) && e in Apply(s, st).procs
    ensures ForkPerm(Apply(s, st), e)
  {
    hide Exclusive, FramesOk, TablesExist, FaultOk, Free, CanMap, Exhausted;
    if e in s.procs {
      assert ForkOk(s, e) && ForkPerm(s, e);
      var k := s.procs[e].fork;
      if (k.Dup? || k.Window?) && k.pn != PFTEMP && st != Exit(e) {
        BitsKept(s, st, e, k.pn);
      }
      if st == ForkScan(e) {
        SlotEffects(s, st);
      }
    }
  }

  lemma FaultPermStep(s: State, st: Step, e: nat)
    requires Inv(s) && PermsOk(s) && UserSlots(s) && Enabled(s, st) && e in Apply(s, st).procs
    ensures FaultPerm(Apply(s, st), e)
  {
    hide Exclusive, TablesExist, ForkOk, Free, CanMap, Exhausted;
    if e in s.procs {
      assert FaultOk(s, e) && FaultPerm(s, e);
      var k := s.procs[e].fault;
      if (k.Alloc? || k.Copy?) && st != Exit(e) {
        BitsKept(s, st, e, k.pn);
      }
      if st.FaultEnter? && st.e == e {
        SlotEffects(s, st);
      }
    }
  }

  lemma RightsStep(s: State, st: Step)
    requires Inv(s) && PermsOk(s) && UserSlots(s) && Enabled(s, st)
    ensures PermsOk(Apply(s, st)) && UserSlots(Apply(s, st)) && (ClearSlots(s) ==> ClearSlots(Apply(s, st)))
  {
    var t := Apply(s, st);
    hide Inv, PermsOk, Enabled, Apply;
    forall e | e in t.procs ensures ForkPerm(t, e) && FaultPerm(t, e) {
      ForkPermStep(s, st, e);
      FaultPermStep(s, st, e);
    }
    forall e: nat, p: nat | Maps(t, e, p)
      ensures {P, U} <= At(t, e, p).flags
      ensures ClearSlots(s) ==> W !in At(t, e, p).flags || COW !in At(t, e, p).flags
    {
      SlotsStep(s, st, e, p);
    }
  }

  // ----- Whole runs -----

  lemma {:induction false} RunKeepsRights(states: seq<State>, steps: seq<Step>, k: nat)
    requires Run(states, steps) && Boot(states[0]) && UserSlots(states[0]) && k <= |steps|
    ensures Inv(states[k]) && PermsOk(states[k]) && UserSlots(states[k])
    ensures ClearSlots(states[0]) ==> ClearSlots(states[k])
  {
    InitInv(states[0]);
    RunKeeps(states, steps, k);
    if k > 0 {
      hide Inv, Boot, PermsOk, UserSlots, ClearSlots, Enabled, Apply;
      RunKeepsRights(states, steps, k - 1);
      RightsStep(states[k - 1], steps[k - 1]);
    }
  }

  /** In every run from boot: if all pages are for user programs at first, then all pages ever mapped are, those
      of children and the scratch page of pgfault included; and if none is both writable and copy-on-write at
      first, none ever is. */
  lemma UserAlways(states: seq<State>, steps: seq<Step>, k: nat, e: nat, p: nat)
    requires Run(states, steps) && Boot(states[0]) && UserSlots(states[0]) && k <= |steps| && Maps(states[k], e, p)
    ensures {P, U} <= At(states[k], e, p).flags
    ensures ClearSlots(states[0]) ==> !({W, COW} <= At(states[k], e, p).flags)
  {
    RunKeepsRights(states, steps, k);
  }

  /** Inside fork(): page `p`, which had `flags` when it was scanned, is still mapped with the same other bits,
      and if the child has it, then with those, read-only and copy-on-write. */
  ghost predicate Handed(s: State, e: nat, c: nat, p: nat, flags: Flags) {
    && Scanned(s, e, c, p, true) && BitsOf(s, e, p, flags)
    && (Maps(s, c, p) ==> BitsOf(s, c, p, flags) && COW in At(s, c, p).flags && W !in At(s, c, p).flags)
  }

  lemma HandedKeeps(s: State, st: Step, e: nat, c: nat, p: nat, flags: Flags)
    requires Inv(s) && PermsOk(s) && Enabled(s, st) && Handed(s, e, c, p, flags) && p != PFTEMP
    requires st != ForkEnd(e) && st != Exit(e)
    ensures Handed(Apply(s, st), e, c, p, flags)
  {
    ScannedKeeps(s, st, e, c, p, true);
    BitsKept(s, st, e, p);
    if Maps(Apply(s, st), c, p) {
      ChildHanded(s, st, e, c, p, flags);
    }
    hide Inv, PermsOk, Enabled, Apply, Scanned;
  }

  /** The child's entry appears in duppage's first sys_page_map, and stays. */
  lemma ChildHanded(s: State, st: Step, e: nat, c: nat, p: nat, flags: Flags)
    requires Inv(s) && PermsOk(s) && Enabled(s, st) && Handed(s, e, c, p, flags) && p != PFTEMP
    requires st != ForkEnd(e) && st != Exit(e) && Maps(Apply(s, st), c, p)
    ensures BitsOf(Apply(s, st), c, p, flags)
    ensures COW in At(Apply(s, st), c, p).flags && W !in At(Apply(s, st), c, p).flags
  {
    hide Exclusive, FramesOk, TablesExist, Free, CanMap, Exhausted;
    SlotEffects(s, st);
    assert ForkOk(s, e) && ForkPerm(s, e);
    if st.e in s.procs {
      assert ForkOk(s, st.e) && FaultOk(s, st.e);
    }
  }

  lemma HandedStarts(s: State, e: nat)
    requires Inv(s) && Enabled(s, ForkScan(e)) && Copyable(s, e, s.procs[e].fork.pn)
    ensures var p := s.procs[e].fork.pn;
      Handed(Apply(s, ForkScan(e)), e, s.procs[e].fork.child, p, At(s, e, p).flags)
  {
    ScanStarts(s, e);
    assert ForkOk(s, e);
    SlotEffects(s, ForkScan(e));
  }

  /** When fork returns, parent and child have every copied page, PFTEMP aside, with all permission bits it had
      when it was scanned, but for W and COW: the child has it copy-on-write and read-only, and so, as long as
      the frame is shared, the parent may not write it either. */
  lemma ForkPermissions(states: seq<State>, steps: seq<Step>, e: nat, i: nat, j: nat)
    requires Run(states, steps) && Boot(states[0]) && UserSlots(states[0])
    requires i < j < |steps| && steps[i] == ForkScan(e) && steps[j] == ForkEnd(e)
    requires forall k :: i < k < j ==> steps[k] != ForkEnd(e) && steps[k] != Exit(e)
    requires Copyable(states[i], e, states[i].procs[e].fork.pn) && states[i].procs[e].fork.pn != PFTEMP
    ensures var t, c, p := states[j + 1], states[i].procs[e].fork.child, states[i].procs[e].fork.pn;
      && Maps(t, e, p) && Maps(t, c, p)
      && At(t, e, p).flags - {W, COW} == At(states[i], e, p).flags - {W, COW}
      && At(t, c, p).flags == At(states[i], e, p).flags - {W} + {COW}
      && (At(t, e, p).frame == At(t, c, p).frame ==> W !in At(t, e, p).flags)
  {
    var c, p := states[i].procs[e].fork.child, states[i].procs[e].fork.pn;
    var flags := At(states[i], e, p).flags;
    RunKeepsRights(states, steps, i);
    HandedStarts(states[i], e);
    var k := i + 1;
    while k < j
      invariant i < k <= j && Handed(states[k], e, c, p, flags)
    {
      RunKeepsRights(states, steps, k);
      HandedKeeps(states[k], steps[k], e, c, p, flags);
      k := k + 1;
    }
    RunKeepsRights(states, steps, j);
    HandedEnds(states[j], e, c, p, flags);
  }

  lemma SharedFlags(x: Flags, flags: Flags)
    requires Bits(x) == Bits(flags) && COW in x && W !in x
    ensures x == flags - {W} + {COW}
  {
    forall bit ensures bit in x <==> bit in flags - {W} + {COW} {
      assert bit in Bits(x) <==> bit in Bits(flags);
    }
  }

  lemma HandedEnds(s: State, e: nat, c: nat, p: nat, flags: Flags)
    requires Inv(s) && Enabled(s, ForkEnd(e)) && Handed(s, e, c, p, flags) && p != PFTEMP && p <= USTACK
    ensures var t := Apply(s, ForkEnd(e));
      && Maps(t, e, p) && Maps(t, c, p) && Bits(At(t, e, p).flags) == Bits(flags)
      && At(t, c, p).flags == flags - {W} + {COW}
      && (At(t, e, p).frame == At(t, c, p).frame ==> W !in At(t, e, p).flags)
  {
    var t := Apply(s, ForkEnd(e));
    ScanEnds(s, e, c, p, true);
    SlotEffects(s, ForkEnd(e));
    assert ForkOk(s, e);
    ForkEndKeeps(s, e);
    SharedFlags(At(t, c, p).flags, flags);
    if At(t, e, p).frame == At(t, c, p).frame && W in At(t, e, p).flags {
      WritableIsPrivate(t, e, p, c, p);
    }
  }
}
