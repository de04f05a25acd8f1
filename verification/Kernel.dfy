/** The environment calls as the kernel makes them, on envs[], the links of env_free_list and the
    per-CPU variables (kern/env.c, kern/sched.c, kern/syscall.c). Each is proved to be the step of Envs
    and Sched that MultiCpu and Messages reason about. */
module Kernel {
  import opened Envs
  import opened Sched
  import opened Lists
  import Mmu
  import opened PageTables
  import opened PmapSteps
  import KernelMap
  import opened Pmap

  datatype Result = Ok(e: int) | BadEnv | NoFreeEnv | NoMem | Inval | IpcNotRecv | Panic

  const PGSIZE := Mmu.PGSIZE
  /** 0xeec00000. */
  const UTOP := UTOP_PDX * 0x40_0000

  class EnvTable {
    const envs: array<Env>
    const link: array<int>
    const cur: array<int>
    const cr3: array<int>
    var freeList: int
    ghost var free: seq<nat>

    ghost function T(): Table
      reads this, envs, cur, cr3
    {
      Table(envs[..], free, cur[..], cr3[..])
    }

    ghost predicate Arrays()
      reads this, cur
    {
      && envs.Length == link.Length == NENV && 0 < cur.Length <= NENV && cr3.Length == cur.Length
      && link != cur && link != cr3 && cur != cr3
      && forall c :: 0 <= c < cur.Length ==> NONE <= cur[c] < NENV
    }

    ghost predicate Valid()
      reads this, envs, link, cur, cr3
    {
      && Arrays() && Envs.Shape(T()) && List(link[..], freeList, free)
      && Distinct(free)
      && (forall e: nat :: e in free ==> e < NENV && envs[e].status == Free)
    }

    constructor (ncpu: nat, garbage: Env)
      requires 0 < ncpu <= NENV
      ensures Arrays() && fresh(envs) && fresh(link) && fresh(cur) && fresh(cr3) && cur.Length == ncpu
      ensures freeList == NONE && cur[..] == seq(ncpu, i => NONE) && cr3[..] == seq(ncpu, i => KERNDIR)
    {
      envs := new Env[NENV](i => garbage);
      link := new int[NENV](i => NONE);
      cur := new int[ncpu](i => NONE);
      cr3 := new int[ncpu](i => KERNDIR);
      freeList := NONE;
      free := [];
    }

    /** env_init: every slot is free, with id 0, and the list runs through them in order. */
    method EnvInit()
      requires Arrays() && freeList == NONE
      modifies this, envs, link
      ensures Valid() && free == seq(NENV, i requires 0 <= i < NENV => i)
      ensures cur[..] == old(cur[..]) && cr3[..] == old(cr3[..])
      ensures forall e :: 0 <= e < NENV ==> envs[e].status == Free && envs[e].id == 0
    {
      hide List;
      free := [];
      ListEmpty(link[..]);
      var i := NENV - 1;
      while i >= 0
        invariant -1 <= i < NENV && Arrays()
        invariant free == seq(NENV - 1 - i, k requires 0 <= k < NENV - 1 - i => i + 1 + k)
        invariant List(link[..], freeList, free)
        invariant forall e :: i < e < NENV ==> envs[e].status == Free && envs[e].id == 0
      {
        Pushed(link[..], freeList, free, i);
        link[i] := freeList;
        envs[i] := envs[i].(id := 0, status := Free);
        freeList := i;
        free := [i] + free;
        i := i - 1;
      }
    }

    /** envid2env. */
    method FindEnv(c: nat, envid: int, checkperm: bool) returns (e: int)
      requires Valid() && c < cur.Length && cur[c] != NONE
      ensures e == Envid2env(T(), c, envid, checkperm)
      ensures envid == 0 ==> e == cur[c]
      ensures envid != 0 ==> var x := envs[envid % NENV];
        && (e == NONE || e == envid % NENV)
        && (e != NONE <==>
              && x.status != Free && x.id == envid
              && (checkperm ==> envid % NENV == cur[c] || x.parent == envs[cur[c]].id))
    {
      if envid == 0 {
        return cur[c];
      }
      e := envid % NENV;
      if envs[e].status == Free || envs[e].id != envid {
        return NONE;
      }
      if checkperm && e != cur[c] && envs[e].parent != envs[cur[c]].id {
        return NONE;
      }
    }

    /** env_alloc; `dir` is the page directory that env_setup_vm made, or NONE if it failed. */
    method EnvAlloc(parent: int, dir: int) returns (r: Result)
      requires Valid()
      modifies this, envs
      ensures Valid()
      ensures r == if old(free) == [] then NoFreeEnv else if dir == NONE then NoMem else Ok(old(free)[0])
      ensures T() == if r.Ok? then AllocEnv(old(T()), parent, dir) else old(T())
      ensures r.Ok? ==>
        && var x, y := old(envs[free[0]]), envs[r.e];
        && y.status == Runnable && !y.idle && !y.recving && y.parent == parent && y.pgdir == dir
        && y.id == NextId(x.id, r.e) && y.dstva == x.dstva && y.from == x.from && y.value == x.value && y.perm == x.perm
        && OnlySlot(old(T()), T(), r.e) && free == old(free)[1..] && cur[..] == old(cur[..]) && cr3[..] == old(cr3[..])
    {
      if freeList == NONE {
        return NoFreeEnv;
      }
      if dir == NONE {
        return NoMem;
      }
      var e := freeList;
      assert e in free;
      envs[e] := envs[e].(pgdir := dir);
      envs[e] := envs[e].(id := NextId(envs[e].id, e));
      envs[e] := envs[e].(parent := parent, idle := false, status := Runnable);
      envs[e] := envs[e].(recving := false);
      freeList := link[e];
      free := free[1..];
      return Ok(e);
    }

    /** env_free, after it has emptied the address space. */
    method EnvFree(c: nat, e: nat)
      requires Valid() && c < cur.Length && e < NENV && envs[e].status != Free
      modifies this, envs, link, cr3
      ensures Valid() && T() == FreeEnv(old(T()), c, e)
      ensures FreedOn(old(T()), T(), c, e)
    {
      Pushed(link[..], freeList, free, e);
      hide List, FreedOn;
      FreeEnvIs(T(), c, e);
      ghost var t := T();
      if cur[c] == e {
        cr3[c] := KERNDIR;
      }
      envs[e] := envs[e].(pgdir := NONE);
      envs[e] := envs[e].(status := Free);
      assert envs[..] == FreeEnv(t, c, e).envs;
      link[e] := freeList;
      freeList := e;
      free := [e] + free;
    }

    /** env_run; the lock is released between the changes to the table and lcr3. */
    method EnvRun(c: nat, e: nat)
      requires Valid() && c < cur.Length && e < NENV && envs[e].status != Free
      requires cur[c] != NONE ==> envs[cur[c]].status != Free
      modifies envs, cur, cr3
      ensures Valid() && T() == SetCr3(RunEnv(old(T()), c, e), c, old(envs[e].pgdir))
      ensures RanOn(old(T()), T(), c, e)
    {
      hide List, Distinct, RanOn;
      RunEnvIs(T(), c, e);
      if cur[c] != NONE && envs[cur[c]].status == Running {
        envs[cur[c]] := envs[cur[c]].(status := Runnable);
      }
      cur[c] := e;
      envs[e] := envs[e].(status := Running);
      cr3[c] := envs[e].pgdir;
    }

    /** The scan has come round. */
    lemma AllPassed(es: seq<Env>, last: nat)
      requires |es| == NENV && last < NENV
      requires forall f: nat :: f < NENV && f != last && Ready(es[f]) ==> Distance(last, last) <= Distance(last, f)
      ensures NoneReady(es, last)
    {
    }

    lemma FirstFound(es: seq<Env>, last: nat, e: nat)
      requires |es| == NENV && last < NENV && e < NENV && e != last && Ready(es[e])
      requires forall f: nat :: f < NENV && f != last && Ready(es[f]) ==> Distance(last, e) <= Distance(last, f)
      ensures Nearest(es, last, e)
    {
    }

    /** The scan of sched_yield, slot by slot; it ends where it began if nobody is ready. */
    method FindReady(lastId: nat) returns (id: nat)
      requires Valid() && lastId < NENV
      ensures if id == lastId then NoneReady(T().envs, lastId) else Nearest(T().envs, lastId, id)
    {
      hide List, Distinct, Nearest, NoneReady;
      id := (lastId + 1) % NENV;
      while id != lastId
        invariant id < NENV
        invariant forall f: nat :: f < NENV && f != lastId && Ready(envs[f]) ==>
          Distance(lastId, id) <= Distance(lastId, f)
        decreases NENV - Distance(lastId, id)
      {
        if !envs[id].idle && envs[id].status == Runnable {
          break;
        }
        id := (id + 1) % NENV;
      }
      if id == lastId {
        AllPassed(envs[..], lastId);
      } else {
        FirstFound(envs[..], lastId, id);
      }
    }

    /** sched_yield up to its call of env_run. */
    method PickNext(c: nat) returns (r: Choice)
      requires Valid() && c < cur.Length
      ensures Chooses(T(), c, r)
    {
      hide List, Distinct, Nearest, NoneReady, Busy;
      var lastId := if cur[c] != NONE then cur[c] else 0;
      var id := FindReady(lastId);
      var e: int := if id != lastId then id else NONE;
      if id == lastId && envs[lastId].status == Runnable {
        e := cur[c];
      }
      if e != NONE {
        return Choice.Run(e);
      }
      var busy := FindBusy();
      if !busy {
        return Monitor;
      }
      return if envs[c].status == Runnable || envs[c].status == Running then Choice.Run(c) else NoIdle;
    }

    /** The loop of sched_yield that looks for anything left to run. */
    method FindBusy() returns (busy: bool)
      requires Valid()
      ensures busy <==> Busy(T().envs)
    {
      hide List, Distinct;
      var i := 0;
      while i < NENV
        invariant 0 <= i <= NENV
        invariant forall j :: 0 <= j < i ==> envs[j].idle || (envs[j].status != Runnable && envs[j].status != Running)
      {
        if !envs[i].idle && (envs[i].status == Runnable || envs[i].status == Running) {
          break;
        }
        i := i + 1;
      }
      assert i < NENV ==> !envs[..][i].idle && (envs[..][i].status == Runnable || envs[..][i].status == Running);
      return i < NENV;
    }

    /** sched_yield. */
    method SchedYield(c: nat) returns (r: Choice)
      requires Valid() && c < cur.Length && (cur[c] != NONE ==> envs[cur[c]].status != Free)
      modifies envs, cur, cr3
      ensures Valid() && Chooses(old(T()), c, r)
      ensures r.Run? ==> r.e < NENV && T() == SetCr3(RunEnv(old(T()), c, r.e), c, old(envs[r.e].pgdir))
      ensures !r.Run? ==> T() == old(T())
    {
      r := PickNext(c);
      if r.Run? {
        EnvRun(c, r.e);
      }
    }

    /** env_destroy up to its call of sched_yield: an environment that another CPU runs becomes a zombie, and
        any other is freed, and its slot the first to be taken again. */
    method EnvDestroy(c: nat, e: nat)
      requires Valid() && c < cur.Length && e < NENV && envs[e].status != Free
      modifies this, envs, link, cur, cr3
      ensures Valid() && T() == DestroyEnv(old(T()), c, e)
      ensures Destroyed(old(T()), T(), c, e)
    {
      if envs[e].status == Running && cur[c] != e {
        envs[e] := envs[e].(status := Dying);
        return;
      }
      EnvFree(c, e);
      if cur[c] == e {
        cur[c] := NONE;
      }
    }

    /** sys_env_destroy up to sched_yield. */
    method SysEnvDestroy(c: nat, envid: int) returns (r: Result)
      requires Valid() && c < cur.Length && cur[c] != NONE && envs[cur[c]].status != Free
      modifies this, envs, link, cur, cr3
      ensures Valid()
      ensures var e := Envid2env(old(T()), c, envid, true);
        r == (if e == NONE then BadEnv else Ok(e)) && T() == if e == NONE then old(T()) else DestroyEnv(old(T()), c, e)
      ensures r.Ok? ==> Destroyed(old(T()), T(), c, r.e)
      ensures r.Ok? && envs[r.e].status == Free && envid != 0 ==>
        forall d: nat, checkperm :: d < cur.Length && cur[d] != NONE ==> Envid2env(T(), d, envid, checkperm) == NONE
    {
      var e := FindEnv(c, envid, true);
      if e == NONE {
        return BadEnv;
      }
      EnvDestroy(c, e);
      return Ok(e);
    }

    /** sys_exofork. */
    method SysExofork(c: nat, dir: int) returns (r: Result)
      requires Valid() && c < cur.Length && cur[c] != NONE
      modifies this, envs
      ensures Valid()
      ensures r == if old(free) == [] then NoFreeEnv else if dir == NONE then NoMem else Ok(old(free)[0])
      ensures T() == if r.Ok? then Exofork(old(T()), c, dir) else old(T())
      ensures r.Ok? ==>
        && var x, y := old(envs[free[0]]), envs[r.e];
        && y.status == NotRunnable && !y.idle && !y.recving && y.parent == old(envs[cur[c]].id) && y.pgdir == dir
        && y.id == NextId(x.id, r.e) && OnlySlot(old(T()), T(), r.e)
        && free == old(free)[1..] && cur[..] == old(cur[..]) && cr3[..] == old(cr3[..])
    {
      r := EnvAlloc(envs[cur[c]].id, dir);
      if r.Ok? {
        envs[r.e] := envs[r.e].(status := NotRunnable);
      }
    }

    /** sys_env_set_status; the error for a bad status is +E_INVAL in the source. */
    method SysEnvSetStatus(c: nat, envid: int, status: Status) returns (r: Result)
      requires Valid() && c < cur.Length && cur[c] != NONE && envs[cur[c]].status != Free
      modifies envs
      ensures Valid()
      ensures var e := Envid2env(old(T()), c, envid, true);
        var fine := status == Runnable || status == NotRunnable;
        && r == (if !fine then Inval else if e == NONE then BadEnv else Ok(e))
        && T() == if fine && e != NONE then SetStatus(old(T()), e, status) else old(T())
      ensures r.Ok? ==> envs[r.e] == old(envs[r.e]).(status := status) && OnlySlot(old(T()), T(), r.e)
      ensures r.Ok? ==> ListsKept(old(T()), T())
    {
      if status != Runnable && status != NotRunnable {
        return Inval;
      }
      var e := FindEnv(c, envid, true);
      if e == NONE {
        return BadEnv;
      }
      envs[e] := envs[e].(status := status);
      return Ok(e);
    }

    /** sys_ipc_recv up to sched_yield: it asks for a page at `dstva` if that is below UTOP. */
    method SysIpcRecv(c: nat, dstva: Va) returns (r: Result)
      requires Valid() && c < cur.Length && cur[c] != NONE && envs[cur[c]].status != Free
      modifies envs
      ensures Valid() && r == if dstva < 0xeec0_0000 && dstva % 4096 != 0 then Inval else Ok(cur[c])
      ensures T() == if r.Ok? then Receive(old(T()), c, dstva) else old(T())
      ensures r.Ok? ==>
        && var x, y := old(envs[cur[c]]), envs[r.e];
        && y.recving && y.dstva == dstva && y.status == NotRunnable
        && y.idle == x.idle && y.id == x.id && y.parent == x.parent && y.pgdir == x.pgdir
        && y.from == x.from && y.value == x.value && y.perm == x.perm
        && OnlySlot(old(T()), T(), r.e) && ListsKept(old(T()), T())
    {
      if dstva < UTOP && dstva % PGSIZE != 0 {
        return Inval;
      }
      envs[cur[c]] := envs[cur[c]].(recving := true);
      envs[cur[c]] := envs[cur[c]].(dstva := dstva);
      envs[cur[c]] := envs[cur[c]].(status := NotRunnable);
      return Ok(cur[c]);
    }

    /** Each environment that lives has an address space in `mem`. */
    ghost predicate Spaced(mem: PhysMem)
      reads this, envs, mem
    {
      forall e :: 0 <= e < envs.Length && envs[e].status != Free ==> e in mem.dirs
    }

    /** trap() once it has the lock: a zombie is freed; true if the trap goes on. */
    method TrapEntry(c: nat) returns (alive: bool)
      requires Valid() && c < cur.Length && cur[c] != NONE && envs[cur[c]].status != Free
      modifies this, envs, link, cur, cr3
      ensures Valid() && alive == (old(envs[cur[c]].status) != Dying)
      ensures T() == if alive then old(T()) else SetCur(FreeEnv(old(T()), c, old(cur[c])), c, NONE)
      ensures !alive ==>
        && var e := old(cur[c]);
        && envs[e] == old(envs[e]).(status := Free, pgdir := NONE) && OnlySlot(old(T()), T(), e)
        && free == [e] + old(free) && cur[c] == NONE && cr3[c] == KERNDIR
        && forall d :: 0 <= d < cur.Length && d != c ==> cur[d] == old(cur[d]) && cr3[d] == old(cr3[d])
    {
      if envs[cur[c]].status == Dying {
        EnvFree(c, cur[c]);
        cur[c] := NONE;
        return false;
      }
      return true;
    }

    /** The frame that `e` has where it has asked for a page. */
    ghost function DestFrame(mem: PhysMem, e: nat): nat
      requires e < envs.Length
      reads this, envs, mem, mem.phys
    {
      PteOf(mem.M(), e, envs[e].dstva / PGSIZE).frame
    }

    /** sys_ipc_try_send, of a page too if `srcva` is below UTOP, whatever address the receiver has given. An error
        or a panic changes neither the environments nor any address space; otherwise the receiver gets the value,
        and the page in its place, and is woken. The books of memory then fit exactly if the page is there already
        or its count is not full, and it is not page 0. Where a mapped page was sent to another environment at an
        address from UTOP on, none fit unless it was there already. */
    method SysIpcTrySend(c: nat, envid: int, value: int, srcva: nat, perm: Mmu.Flags, mem: PhysMem) returns (r: Result)
      requires Valid() && c < cur.Length && cur[c] != NONE && envs[cur[c]].status != Free
      requires mem.Valid() && Spaced(mem)
      modifies envs, mem, mem.pages, mem.phys
      ensures Valid() && mem.dirs == old(mem.dirs)
      ensures var e := Envid2env(old(T()), c, envid, false);
        && (r == BadEnv <==> e == NONE)
        && (r == IpcNotRecv <==> e != NONE && !old(T()).envs[e].recving)
        && (r.Ok? ==> r.e == e)
        && T() == (if r.Ok? then Send(old(T()), c, e, value, if srcva < UTOP then perm else {}) else old(T()))
        && (srcva >= UTOP ==>
              mem.M() == old(mem.M()) && mem.A() == old(mem.A()) && r != Inval && r != NoMem && r != Panic)
        && (r != BadEnv && r != IpcNotRecv && srcva < UTOP ==>
              PageSent(old(mem.M()), old(mem.book).free == [], mem.M(),
                       old(cur[c]), srcva, e, old(T()).envs[e].dstva, perm, r))
      ensures r.Ok? ==>
        && var x, y := old(envs[r.e]), envs[r.e];
        && y.status == Runnable && !y.recving && y.from == old(envs[cur[c]].id) && y.value == value
        && y.perm == (if srcva < UTOP then perm else {})
        && y.idle == x.idle && y.id == x.id && y.parent == x.parent && y.pgdir == x.pgdir && y.dstva == x.dstva
        && OnlySlot(old(T()), T(), r.e) && ListsKept(old(T()), T())
      ensures !r.Ok? || srcva >= UTOP ==> mem.Valid()
      ensures r.Ok? && srcva < UTOP && old(envs[r.e].dstva) < UTOP ==>
        var x := old(PteOf(mem.M(), cur[c], srcva / PGSIZE)).frame;
        (mem.Valid() <==> x != 0 && (old(DestFrame(mem, r.e)) == x || old(mem.RefAt(x)) + 1 < REF_LIMIT))
      ensures r.Ok? && srcva < UTOP && old(envs[r.e].dstva) >= UTOP && r.e != cur[c] ==>
        var x := old(PteOf(mem.M(), cur[c], srcva / PGSIZE));
        x.Present() && x.frame != old(DestFrame(mem, r.e)) ==> NoBooks(mem.M(), mem.A())
    {
      hide TablesOk, LedgerOk, PageSent;
      var e := FindEnv(c, envid, false);
      if e == NONE {
        return BadEnv;
      }
      if !envs[e].recving {
        return IpcNotRecv;
      }
      if srcva < UTOP {
        r := SendPage(cur[c], srcva, e, envs[e].dstva, perm, mem);
        if !r.Ok? {
          return;
        }
      }
      Deliver(c, e, value, if srcva < UTOP then perm else {});
      return Ok(e);
    }

    /** The stores to the receiver's fields. */
    method Deliver(c: nat, e: nat, value: int, perm: Mmu.Flags)
      requires Valid() && c < cur.Length && cur[c] != NONE && e < NENV && envs[e].status != Free
      modifies envs
      ensures Valid() && T() == Send(old(T()), c, e, value, perm)
    {
      envs[e] := envs[e].(perm := perm);
      envs[e] := envs[e].(recving := false);
      envs[e] := envs[e].(from := envs[cur[c]].id);
      envs[e] := envs[e].(value := value);
      envs[e] := envs[e].(status := Runnable);
    }

    /** The part of sys_ipc_try_send that maps the page; its tests are those of sys_page_map. */
    method SendPage(src: nat, srcva: nat, dst: nat, dstva: Va, perm: Mmu.Flags, mem: PhysMem) returns (r: Result)
      requires mem.Valid() && src in mem.dirs && dst in mem.dirs && src < NENV && dst < NENV && srcva < UTOP
      modifies mem, mem.pages, mem.phys
      ensures mem.dirs == old(mem.dirs) && (!r.Ok? ==> mem.Valid())
      ensures r == Ok(dst) || r == Inval || r == NoMem || r == Panic
      ensures PageSent(old(mem.M()), old(mem.book).free == [], mem.M(), src, srcva, dst, dstva, perm, r)
      ensures r.Ok? && dstva < UTOP ==> var x := old(PteOf(mem.M(), src, srcva / PGSIZE)).frame;
        (mem.Valid() <==>
          x != 0 && (old(PteOf(mem.M(), dst, dstva / PGSIZE)).frame == x || old(mem.RefAt(x)) + 1 < REF_LIMIT))
      ensures r.Ok? && dstva >= UTOP && src != dst ==>
        var x := old(PteOf(mem.M(), src, srcva / PGSIZE));
        x.Present() && x.frame != old(PteOf(mem.M(), dst, dstva / PGSIZE)).frame ==> NoBooks(mem.M(), mem.A())
    {
      hide TablesOk, LedgerOk, Space, OthersKept, Pte, NoBooks, PlacedAbove;
      if srcva % PGSIZE != 0 {
        return Inval;
      }
      if dstva < UTOP {
        var m := mem.SysPageMap(src, srcva / PGSIZE, dst, dstva / PGSIZE, perm);
        return match m case Mapped => Ok(dst) case Invalid => Inval case NoMemory => NoMem;
      }
      r := SendAbove(src, srcva / PGSIZE, dst, dstva / PGSIZE, perm, mem);
    }

    /** The same from page `pn` to page `dn`, at or above UTOP. */
    method SendAbove(src: nat, pn: nat, dst: nat, dn: nat, perm: Mmu.Flags, mem: PhysMem) returns (r: Result)
      requires mem.Valid() && src in mem.dirs && dst in mem.dirs && src < NENV && dst < NENV
      requires Pdx(pn) < UTOP_PDX <= Pdx(dn) && dn < NPAGES
      modifies mem, mem.pages, mem.phys
      ensures mem.dirs == old(mem.dirs) && (!r.Ok? ==> mem.Valid())
      ensures r == Ok(dst) || r == Inval || r == NoMem || r == Panic
      ensures PageSent(old(mem.M()), old(mem.book).free == [], mem.M(),
                       src, pn * PGSIZE, dst, dn * PGSIZE, perm, r)
      ensures r.Ok? && src != dst ==>
        var x := old(PteOf(mem.M(), src, pn));
        x.Present() && x.frame != old(PteOf(mem.M(), dst, dn)).frame ==> NoBooks(mem.M(), mem.A())
    {
      hide TablesOk, LedgerOk, Space, OthersKept, Pte, NoBooks, PlacedAbove, MappedBeside;
      PageZeroUnused(mem.M(), mem.book);
      PmapSteps.Shape(mem.M(), mem.A(), mem.book);
      var pp, t := mem.PageLookup(src, pn);
      if pp == -1 {
        return Inval;
      }
      if Mmu.W in perm && Mmu.W !in mem.phys[t][Ptx(pn)].flags {
        return Inval;
      }
      if PteOf(mem.M(), src, pn).Present() && src != dst {
        MappedHere(mem.M(), src, pn, dst);
      }
      var a := mem.InsertAbove(dst, pp, dn, perm);
      return match a case Placed => Ok(dst) case Full => NoMem case Panicked => Panic;
    }

    /** A receiver that asked for no page by the address ~0 of ipc_recv is never woken by a page: the kernel panics, on
        every machine whose memory ends before that page and whose kernel is mapped as mem_init does. */
    method SendToNoAddress(c: nat, envid: int, value: int, srcva: nat, perm: Mmu.Flags, mem: PhysMem,
                           ghost x: KernelMap.Layout) returns (r: Result)
      requires Valid() && c < cur.Length && cur[c] != NONE && envs[cur[c]].status != Free
      requires mem.Valid() && Spaced(mem) && srcva < UTOP && mem.pages.Length <= KernelMap.NO_ADDRESS
      requires |x.stacks| <= KernelMap.NCPU && Space(mem.M(), KERN) == KernelMap.KernelSpace(x)
      requires var e := Envid2env(T(), c, envid, false);
        e != NONE && envs[e].recving && envs[e].dstva == 0xffff_ffff
      modifies envs, mem, mem.pages, mem.phys
      ensures T() == old(T()) && mem.Valid() && SameWalks(old(mem.M()), mem.M())
      ensures r == Inval || r == Panic
      ensures r == Inval <==> var pn := srcva / PGSIZE;
        || srcva % PGSIZE != 0 || !old(Pde(mem.M(), cur[c], Pdx(pn)).Present())
        || (Mmu.W in perm && Mmu.W !in old(PteOf(mem.M(), cur[c], pn)).flags)
    {
      hide TablesOk, LedgerOk, Space, OthersKept, Pte, NoBooks, PlacedAbove;
      ghost var e := Envid2env(T(), c, envid, false);
      PmapSteps.Shape(mem.M(), mem.A(), mem.book);
      KernelMap.KernelSeen(mem.M(), mem.book, e, x, KernelMap.NO_ADDRESS);
      r := SysIpcTrySend(c, envid, value, srcva, perm, mem);
    }
  }

  /** What env_run changes: CPU `c` has slot `e` and its directory; the one it had, if it still ran, is ready; and
      nothing else. */
  ghost predicate RanOn(t: Table, t2: Table, c: nat, e: nat) {
    && e < |t.envs| == |t2.envs| && c < |t.cur| == |t2.cur| == |t.cr3| == |t2.cr3| && t2.free == t.free
    && t2.envs[e] == t.envs[e].(status := Running) && t2.cur[c] == e && t2.cr3[c] == t.envs[e].pgdir
    && (forall d :: 0 <= d < |t.cur| && d != c ==> t2.cur[d] == t.cur[d] && t2.cr3[d] == t.cr3[d])
    && forall f :: 0 <= f < |t.envs| && f != e ==>
         t2.envs[f] ==
         if f == t.cur[c] && t.envs[f].status == Running then t.envs[f].(status := Runnable) else t.envs[f]
  }

  lemma RunEnvIs(t: Table, c: nat, e: nat)
    requires Envs.Shape(t) && c < |t.cur| && e < NENV
    ensures RanOn(t, SetCr3(RunEnv(t, c, e), c, t.envs[e].pgdir), c, e)
  {
  }

  /** What env_free changes: slot `e` is free, without a directory, and the first to be taken; a CPU that has it
      goes to the kernel's directory. */
  ghost predicate FreedOn(t: Table, t2: Table, c: nat, e: nat) {
    && e < |t.envs| && c < |t.cur| == |t.cr3| == |t2.cr3| && OnlySlot(t, t2, e) && t2.cur == t.cur
    && t2.envs[e] == t.envs[e].(status := Free, pgdir := NONE) && t2.free == [e] + t.free
    && t2.cr3[c] == (if t.cur[c] == e then KERNDIR else t.cr3[c])
    && forall d :: 0 <= d < |t.cr3| && d != c ==> t2.cr3[d] == t.cr3[d]
  }

  lemma FreeEnvIs(t: Table, c: nat, e: nat)
    requires Envs.Shape(t) && c < |t.cur| && e < NENV
    ensures FreedOn(t, FreeEnv(t, c, e), c, e)
  {
  }

  /** What becomes of slot `e` when it is destroyed from CPU `c`. */
  ghost predicate Destroyed(t: Table, t2: Table, c: nat, e: int) {
    && 0 <= e < |t.envs| && OnlySlot(t, t2, e)
    && c < |t.cur| == |t2.cur| && c < |t.cr3| == |t2.cr3|
    && if t.envs[e].status == Running && t.cur[c] != e then
         t2.envs[e] == t.envs[e].(status := Dying) && ListsKept(t, t2)
       else
         && t2.envs[e] == t.envs[e].(status := Free, pgdir := NONE) && t2.free == [e] + t.free
         && t2.cur[c] == (if t.cur[c] == e then NONE else t.cur[c])
         && t2.cr3[c] == (if t.cur[c] == e then KERNDIR else t.cr3[c])
         && forall d :: 0 <= d < |t.cur| && d != c && d < |t.cr3| ==> t2.cur[d] == t.cur[d] && t2.cr3[d] == t.cr3[d]
  }

  /** What the page part of a send answers and does to memory: -E_INVAL for an address that is not aligned, has
      no table, or is not writable where write access is to be given; -E_NO_MEM for want of a table; a panic where
      the entry at an address from UTOP on names a frame that does not exist; otherwise `dst` maps the frame
      of the source entry, and, below UTOP, no other address of any space changes. */
  ghost predicate PageSent(m: Mem, full: bool, n: Mem,
                           src: int, srcva: nat, dst: int, dstva: nat, perm: Mmu.Flags, r: Result) {
    && src >= 0 && dst >= 0
    && var pn, dn := srcva / PGSIZE, dstva / PGSIZE;
    && (r == Inval <==>
          || srcva % PGSIZE != 0 || !Pde(m, src, Pdx(pn)).Present()
          || (Mmu.W in perm && Mmu.W !in PteOf(m, src, pn).flags))
    && (r == NoMem <==> r != Inval && full && !Pde(m, dst, Pdx(dn)).Present())
    && (r == Panic <==> r != Inval && r != NoMem && dstva >= UTOP && PteOf(m, dst, dn).frame >= |m.phys|)
    && (!r.Ok? ==> SameWalks(m, n))
    && (r.Ok? ==>
          var x := Mmu.Entry(PteOf(m, src, pn).frame, perm + {Mmu.P});
          if dstva < UTOP then Space(n, dst) == Space(m, dst)[dn := x] && OthersKept(m, n, dst)
          else PlacedAbove(m, n, dst, dn, x))
  }
}
