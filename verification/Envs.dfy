/** Environments: struct Env, its ids and the changes the kernel makes to the table of environments
    and to the per-CPU variables (kern/env.c, kern/syscall.c, inc/env.h). */
module Envs {
  import opened CInt
  import Mmu

  /** Number of slots in envs[]. */
  const NENV := 1024
  /** 1 << ENVGENSHIFT, the step from one generation of a slot to the next. */
  const GEN := 4096
  /** 2^19 - 1, the number of ids a slot goes through before one returns. */
  const PERIOD := 0x7ffff
  /** PADDR(kern_pgdir), as a value of cr3. */
  const KERNDIR := -1
  const NONE := -1

  /** A virtual address, 32 bits wide. */
  type Va = n: nat | n < 0x1_0000_0000

  datatype Status = Free | Dying | Runnable | Running | NotRunnable

  /** The fields of struct Env that the kernel or the program reads back; `pgdir` is the frame of the page
      directory, or NONE; `recving` to `perm` are the IPC fields. */
  datatype Env = Env(status: Status, idle: bool, id: int, parent: int, pgdir: int, recving: bool, dstva: Va,
                     from: int, value: int, perm: Mmu.Flags)

  /** envs[], env_free_list as the slots it runs through, and curenv and cr3 of each CPU. */
  datatype Table = Table(envs: seq<Env>, free: seq<nat>, cur: seq<int>, cr3: seq<int>)

  ghost predicate Shape(t: Table) {
    && |t.envs| == NENV && 0 < |t.cur| <= NENV && |t.cr3| == |t.cur|
    && (forall c :: 0 <= c < |t.cur| ==> NONE <= t.cur[c] < NENV)
    && (forall i :: 0 <= i < |t.free| ==> t.free[i] < NENV)
  }

  // ----- Environment ids -----

  /** env_alloc: the id of the next environment in slot `e`, from the id of the last one. */
  function NextId(id: int, e: nat): int {
    var sum := Int32(id + GEN);
    var generation := sum - sum % NENV;
    (if generation <= 0 then GEN else generation) + e
  }

  /** The id of the `n`-th environment that slot `e` has held; 0 before the first. */
  function IdAt(e: nat, n: nat): int {
    if n == 0 then 0 else ((n - 1) % PERIOD + 1) * GEN + e
  }

  /** The id after generation `g` of slot `e`. */
  lemma NextGeneration(g: nat, e: nat)
    requires 0 < g <= PERIOD && e < NENV
    ensures NextId(g * GEN + e, e) == if g < PERIOD then (g + 1) * GEN + e else GEN + e
  {
    if g < PERIOD {
      ModIs((g + 1) * GEN + e, NENV, (g + 1) * 4, e);
    }
  }

  lemma NextIdIs(e: nat, n: nat)
    requires e < NENV
    ensures NextId(IdAt(e, n), e) == IdAt(e, n + 1)
  {
    if n > 0 {
      var q, k := (n - 1) / PERIOD, (n - 1) % PERIOD;
      assert n == q * PERIOD + k + 1;
      NextGeneration(k + 1, e);
      if k + 1 < PERIOD {
        ModIs(n, PERIOD, q, k + 1);
      } else {
        ModIs(n, PERIOD, q + 1, 0);
      }
    }
  }

  lemma ModIs(x: int, m: nat, q: int, r: nat)
    requires r < m && x == q * m + r
    ensures x % m == r && x / m == q
  {
    var d, r2 := x / m - q, x % m;
    assert d * m == (x / m) * m - q * m == r - r2;
    assert d >= 1 ==> d * m >= m;
    assert d <= -1 ==> (-d) * m >= m;
  }

  /** Ids are positive, fit an int32_t, and carry their slot in their low bits. */
  lemma IdSound(e: nat, n: nat)
    requires e < NENV && n > 0
    ensures 0 < IdAt(e, n) < 0x8000_0000 && IdAt(e, n) % NENV == e
  {
    var k := (n - 1) % PERIOD;
    ModIs(IdAt(e, n), NENV, (k + 1) * 4, e);
  }

  /** Two environments have the same id exactly if they use the same slot a whole number of periods apart. */
  lemma SameIdIff(e1: nat, n1: nat, e2: nat, n2: nat)
    requires e1 < NENV && e2 < NENV && 0 < n1 <= n2
    ensures IdAt(e1, n1) == IdAt(e2, n2) <==> e1 == e2 && (n2 - n1) % PERIOD == 0
  {
    IdSound(e1, n1);
    IdSound(e2, n2);
    var k1, k2 := (n1 - 1) % PERIOD, (n2 - 1) % PERIOD;
    var q1, q2 := (n1 - 1) / PERIOD, (n2 - 1) / PERIOD;
    assert n2 - n1 == (q2 - q1) * PERIOD + (k2 - k1);
    if k1 <= k2 {
      ModIs(n2 - n1, PERIOD, q2 - q1, k2 - k1);
    } else {
      assert (q2 - q1 - 1) * PERIOD == (q2 - q1) * PERIOD - PERIOD;
      ModIs(n2 - n1, PERIOD, q2 - q1 - 1, k2 - k1 + PERIOD);
    }
  }

  /** envid2env, for the environment current on CPU `c`: a slot, or NONE for -E_BAD_ENV. */
  function Envid2env(t: Table, c: nat, envid: int, checkperm: bool): int
    requires Shape(t) && c < |t.cur| && t.cur[c] != NONE
  {
    if envid == 0 then t.cur[c]
    else
      var e := envid % NENV;
      if t.envs[e].status == Free || t.envs[e].id != envid then NONE
      else if checkperm && e != t.cur[c] && t.envs[e].parent != t.envs[t.cur[c]].id then NONE
      else e
  }

  /** Slot `e` has held `gens[e]` environments, and their ids are as IdAt says. */
  ghost predicate IdsOk(t: Table, gens: seq<nat>) {
    && Shape(t) && |gens| == NENV
    && forall e :: 0 <= e < NENV ==> t.envs[e].id == IdAt(e, gens[e]) && (t.envs[e].status == Free || gens[e] > 0)
  }

  /** The handle of the `n`-th environment of slot `e` names slot `e` exactly while an environment lives
      there whose number differs from `n` by a multiple of the period: until it is freed, and then
      never before the slot has been allocated PERIOD more times. It never names another slot. */
  lemma HandleNames(t: Table, gens: seq<nat>, c: nat, e: nat, n: nat)
    requires IdsOk(t, gens) && c < |t.cur| && t.cur[c] != NONE && e < NENV && 0 < n <= gens[e]
    ensures Envid2env(t, c, IdAt(e, n), false) ==
            if t.envs[e].status != Free && (gens[e] - n) % PERIOD == 0 then e else NONE
    ensures n < gens[e] < n + PERIOD ==> Envid2env(t, c, IdAt(e, n), false) == NONE
    ensures n == gens[e] && t.envs[e].status != Free ==> Envid2env(t, c, IdAt(e, n), false) == e
  {
    IdSound(e, n);
    SameIdIff(e, n, e, gens[e]);
  }

  /** With the permission test: the handle names slot `e` exactly if it does without, and the environment there is the
      caller or a child of the caller. */
  lemma HandleChecked(t: Table, gens: seq<nat>, c: nat, e: nat, n: nat)
    requires IdsOk(t, gens) && c < |t.cur| && t.cur[c] != NONE && e < NENV && 0 < n <= gens[e]
    ensures Envid2env(t, c, IdAt(e, n), true) == e <==>
      && Envid2env(t, c, IdAt(e, n), false) == e
      && (e == t.cur[c] || t.envs[e].parent == t.envs[t.cur[c]].id)
    ensures Envid2env(t, c, IdAt(e, n), true) == e || Envid2env(t, c, IdAt(e, n), true) == NONE
  {
    IdSound(e, n);
    HandleNames(t, gens, c, e, n);
  }

  /** Which environments the caller may change: itself, and its own children. */
  ghost predicate May(t: Table, c: nat, e: nat)
    requires Shape(t) && c < |t.cur| && t.cur[c] != NONE
  {
    e < NENV && t.envs[e].status != Free && (e == t.cur[c] || t.envs[e].parent == t.envs[t.cur[c]].id)
  }

  /** Those are the slots that some id names under the permission test. */
  lemma MayIff(t: Table, gens: seq<nat>, c: nat, e: nat)
    requires IdsOk(t, gens) && c < |t.cur| && t.cur[c] != NONE && t.envs[t.cur[c]].status != Free
    ensures May(t, c, e) <==> exists envid :: Envid2env(t, c, envid, true) == e
  {
    if May(t, c, e) {
      IdSound(e, gens[e]);
      HandleNames(t, gens, c, e, gens[e]);
      assert Envid2env(t, c, t.envs[e].id, true) == e;
    }
  }

  /** Once slot `e` is free, no handle names it. */
  lemma FreeUnnamed(t: Table, c: nat, e: nat, envid: int, checkperm: bool)
    requires Shape(t) && c < |t.cur| && t.cur[c] != NONE && e < NENV && t.envs[e].status == Free && envid != 0
    ensures Envid2env(t, c, envid, checkperm) != e
    ensures envid % NENV == e ==> Envid2env(t, c, envid, checkperm) == NONE
  {
  }

  // ----- What the kernel does to the table -----

  /** No slot but `e` has changed. */
  ghost predicate OnlySlot(t: Table, t2: Table, e: int) {
    |t2.envs| == |t.envs| && forall f :: 0 <= f < |t.envs| && f != e ==> t2.envs[f] == t.envs[f]
  }

  /** Neither the free list nor what any CPU runs has changed. */
  ghost predicate ListsKept(t: Table, t2: Table) {
    t2.free == t.free && t2.cur == t.cur && t2.cr3 == t.cr3
  }

  function SetEnv(t: Table, e: nat, x: Env): Table
    requires e < |t.envs|
  {
    Table(t.envs[e := x], t.free, t.cur, t.cr3)
  }

  function SetStatus(t: Table, e: nat, status: Status): Table
    requires e < |t.envs|
  {
    SetEnv(t, e, t.envs[e].(status := status))
  }

  function SetCur(t: Table, c: nat, e: int): Table
    requires c < |t.cur|
  {
    Table(t.envs, t.free, t.cur[c := e], t.cr3)
  }

  function SetCr3(t: Table, c: nat, dir: int): Table
    requires c < |t.cr3|
  {
    Table(t.envs, t.free, t.cur, t.cr3[c := dir])
  }

  /** env_alloc with page directory `dir`; the first free slot is taken. */
  function AllocEnv(t: Table, parent: int, dir: int): Table
    requires Shape(t) && t.free != []
  {
    var e := t.free[0];
    var x := t.envs[e];
    Table(t.envs[e := Env(Runnable, false, NextId(x.id, e), parent, dir, false, x.dstva, x.from, x.value, x.perm)],
          t.free[1..], t.cur, t.cr3)
  }

  /** env_free, called on CPU `c`. */
  function FreeEnv(t: Table, c: nat, e: nat): Table
    requires Shape(t) && c < |t.cur| && e < NENV
  {
    var cr3 := if t.cur[c] == e then t.cr3[c := KERNDIR] else t.cr3;
    Table(t.envs[e := t.envs[e].(status := Free, pgdir := NONE)], [e] + t.free, t.cur, cr3)
  }

  /** env_destroy, called on CPU `c`; the call to sched_yield that ends it is left to the caller. */
  function DestroyEnv(t: Table, c: nat, e: nat): Table
    requires Shape(t) && c < |t.cur| && e < NENV
  {
    if t.envs[e].status == Running && t.cur[c] != e then SetStatus(t, e, Dying)
    else if t.cur[c] == e then SetCur(FreeEnv(t, c, e), c, NONE)
    else FreeEnv(t, c, e)
  }

  /** env_run up to its call of unlock_kernel. */
  function RunEnv(t: Table, c: nat, e: nat): Table
    requires Shape(t) && c < |t.cur| && e < NENV
  {
    var prev := t.cur[c];
    var t1 := if prev != NONE && t.envs[prev].status == Running then SetStatus(t, prev, Runnable) else t;
    SetStatus(SetCur(t1, c, e), e, Running)
  }

  /** sys_exofork on CPU `c`. */
  function Exofork(t: Table, c: nat, dir: int): Table
    requires Shape(t) && t.free != [] && c < |t.cur| && t.cur[c] != NONE
  {
    SetStatus(AllocEnv(t, t.envs[t.cur[c]].id, dir), t.free[0], NotRunnable)
  }

  /** sys_ipc_recv on CPU `c`, up to its call of sched_yield. */
  function Receive(t: Table, c: nat, dstva: Va): Table
    requires Shape(t) && c < |t.cur| && t.cur[c] != NONE
  {
    var e := t.cur[c];
    SetEnv(t, e, t.envs[e].(recving := true, dstva := dstva, status := NotRunnable))
  }

  /** The part of sys_ipc_try_send after its tests. */
  function Send(t: Table, c: nat, e: nat, value: int, perm: Mmu.Flags): Table
    requires Shape(t) && c < |t.cur| && t.cur[c] != NONE && e < NENV
  {
    var from := t.envs[t.cur[c]].id;
    SetEnv(t, e, t.envs[e].(perm := perm, recving := false, from := from, value := value, status := Runnable))
  }
}
