/** The environment table as a state machine over the critical sections of env_lock: allocation,
    release, sys_wait and every other change of status (kern/env.c, kern/syscall.c). */
module EnvModel {
  import opened Options
  import opened EnvIds
  import opened Chains

  datatype Status = Free | Dying | Runnable | Running | Sleeping | NotRunnable
  datatype Kind = User | Idle | KernelThread

  /** The part of struct env that identity, waiting and scheduling use. */
  datatype Env = Env(id: int, status: Status, kind: Kind, parent: int, waitId: int, cpu: int)

  /** Whom a sleeper waits for: an id, and which allocation of that slot it was given to. */
  datatype Wait = Wait(id: int, n: nat)

  /** The table, the free list from its head, and what the run did so far: how often each slot was
      allocated, how many slots were ever allocated, and the sleepers of sys_wait with a positive id
      that were not made runnable since. */
  datatype State = State(envs: seq<Env>, free: seq<int>, allocs: seq<nat>, used: nat, waits: seq<Option<Wait>>)

  // ---------- operations ----------

  const ZERO_ENV := Env(0, Free, User, 0, -1, 0)

  /** env_init over zeroed memory. */
  function Boot(): State {
    State(seq(NSLOTS, i => ZERO_ENV), seq(NSLOTS, i => i), seq(NSLOTS, i => 0), 0, seq(NSLOTS, i => None))
  }

  /** envid2env: the slot, or -E_BAD_ENV. */
  function Lookup(envs: seq<Env>, cur: nat, id: int, checkPerm: bool): Option<nat>
    requires |envs| == NSLOTS && cur < NSLOTS
  {
    if id == 0 then Some(cur)
    else
      var e := EnvX(id);
      if envs[e].status == Free || envs[e].id != id then None
      else if checkPerm && e != cur && envs[e].parent != envs[cur].id then None
      else Some(e)
  }

  datatype Step =
    | Alloc(parent: int, kind: Kind)
    | Release(e: nat)
    | SysWait(cur: nat, id: int)
    | SetStatus(e: nat, status: Status, cpu: int)

  ghost predicate Shape(s: State) {
    |s.envs| == |s.allocs| == |s.waits| == NSLOTS && s.used <= NSLOTS && forall i :: 0 <= i < |s.free| ==> 0 <= s.free[i] < NSLOTS
  }

  /** Kernel threads are created at boot, before any other environment; env_free and the status
      changes are for environments in use. */
  ghost predicate Enabled(s: State, step: Step)
    requires Shape(s)
  {
    match step
    case Alloc(_, kind) => kind == KernelThread ==> s.used < NKTHREADS
    case Release(e) => e < NSLOTS && s.envs[e].status != Free
    case SysWait(cur, _) => cur < NSLOTS && s.envs[cur].status == Running
    case SetStatus(e, status, _) => e < NSLOTS && s.envs[e].status != Free && status != Free
  }

  /** env_alloc when its page directory can be allocated; without a free entry nothing changes. */
  function DoAlloc(s: State, parent: int, kind: Kind): (r: State)
    requires Shape(s)
    ensures Shape(r)
  {
    if s.free == [] then s
    else
      var e := s.free[0];
      s.(envs := s.envs[e := s.envs[e].(id := NextId(s.envs[e].id, e), parent := parent, kind := kind, status := Runnable)],
         free := s.free[1..],
         allocs := s.allocs[e := s.allocs[e] + 1],
         used := if e == s.used then s.used + 1 else s.used)
  }

  /** The wake-up loop of env_free on one entry. */
  function Woken(v: Env, id: int): Env {
    if v.status == Sleeping && v.waitId == id then v.(status := Runnable, waitId := -1) else v
  }

  /** The wake-up loop on entries below n. */
  function WokenAll(envs: seq<Env>, id: int, n: nat): (r: seq<Env>)
    ensures |r| == |envs|
  {
    seq(|envs|, i requires 0 <= i < |envs| => if i < n then Woken(envs[i], id) else envs[i])
  }

  /** A wait ends when its sleeper does not sleep any more. */
  function Ended(waits: seq<Option<Wait>>, envs: seq<Env>): (r: seq<Option<Wait>>)
    requires |waits| == |envs|
    ensures |r| == |waits|
  {
    seq(|waits|, i requires 0 <= i < |waits| => if envs[i].status == Sleeping then waits[i] else None)
  }

  /** env_free; memory is released elsewhere. The wake-up loop stops before the entry NENV. */
  function DoRelease(s: State, e: nat): (r: State)
    requires Shape(s) && e < NSLOTS
    ensures Shape(r)
  {
    var woken := WokenAll(s.envs, s.envs[e].id, NENV);
    var envs := woken[e := woken[e].(status := Free)];
    s.(envs := envs, free := [e] + s.free, waits := Ended(s.waits, envs))
  }

  /** sys_wait up to its call of sched_yield. */
  function DoWait(s: State, cur: nat, id: int): (r: State)
    requires Shape(s) && cur < NSLOTS
    ensures Shape(r)
  {
    if Lookup(s.envs, cur, id, false) == None then s
    else
      s.(envs := s.envs[cur := s.envs[cur].(waitId := id, status := Sleeping)],
         waits := s.waits[cur := if id > 0 then Some(Wait(id, s.allocs[EnvX(id)])) else None])
  }

  function DoSetStatus(s: State, e: nat, status: Status, cpu: int): (r: State)
    requires Shape(s) && e < NSLOTS
    ensures Shape(r)
  {
    s.(envs := s.envs[e := s.envs[e].(status := status, cpu := cpu)],
       waits := if status == Sleeping then s.waits else s.waits[e := None])
  }

  function Apply(s: State, step: Step): (r: State)
    requires Shape(s) && Enabled(s, step)
    ensures Shape(r)
  {
    match step
    case Alloc(parent, kind) => DoAlloc(s, parent, kind)
    case Release(e) => DoRelease(s, e)
    case SysWait(cur, id) => DoWait(s, cur, id)
    case SetStatus(e, status, cpu) => DoSetStatus(s, e, status, cpu)
  }

  // ---------- invariant ----------

  /** An id tells the slot and how often it was allocated; entries never allocated are untouched. */
  ghost predicate SlotOk(envs: seq<Env>, allocs: seq<nat>, used: nat, i: int)
    requires 0 <= i < |envs| == |allocs|
  {
    && envs[i].id == IdOf(i, allocs[i])
    && (allocs[i] > 0 <==> i < used)
    && (i >= used ==> envs[i].status == Free && envs[i].kind == User)
    && (envs[i].kind == KernelThread ==> i < NKTHREADS)
  }

  /** On the free list, released entries come first and the never allocated ones follow in order. */
  ghost predicate FreeAt(free: seq<int>, used: nat, j: int)
    requires 0 <= j < |free|
  {
    var first := |free| - (NSLOTS - used);
    if j < first then 0 <= free[j] < used else free[j] == used + (j - first)
  }

  /** The list holds exactly the free entries, each once. */
  ghost predicate FreeOk(envs: seq<Env>, free: seq<int>, used: nat) {
    && NoDup(free) && NSLOTS - used <= |free|
    && (forall j {:trigger FreeAt(free, used, j)} :: 0 <= j < |free| ==> FreeAt(free, used, j))
    && (forall j :: 0 <= j < |free| && 0 <= free[j] < |envs| ==> envs[free[j]].status == Free)
    && (forall i :: 0 <= i < |envs| && envs[i].status == Free ==> i in free)
  }

  /** A sleeper of a proper entry still sleeps on its id, and the environment it waits for is in
      use, under that id, in the same incarnation. */
  ghost predicate WaitOk(envs: seq<Env>, allocs: seq<nat>, waits: seq<Option<Wait>>, x: int)
    requires 0 <= x < |waits| && |envs| == |allocs| == |waits| == NSLOTS
  {
    waits[x].Some? && x < NENV ==>
      var w := waits[x].value;
      && envs[x].status == Sleeping && envs[x].waitId == w.id && w.id > 0
      && var t := EnvX(w.id); envs[t].status != Free && envs[t].id == w.id && allocs[t] == w.n
  }

  ghost predicate Inv(s: State) {
    && Shape(s) && FreeOk(s.envs, s.free, s.used)
    && (forall i {:trigger SlotOk(s.envs, s.allocs, s.used, i)} :: 0 <= i < NSLOTS ==> SlotOk(s.envs, s.allocs, s.used, i))
    && (forall x {:trigger WaitOk(s.envs, s.allocs, s.waits, x)} :: 0 <= x < NSLOTS ==> WaitOk(s.envs, s.allocs, s.waits, x))
  }

  lemma BootInv()
    ensures Inv(Boot())
  {
    var s := Boot();
    forall j | 0 <= j < |s.free| ensures FreeAt(s.free, s.used, j) && j in s.free {
      assert s.free[j] == j;
    }
  }

  lemma AllocKeeps(s: State, parent: int, kind: Kind)
    requires Inv(s) && (kind == KernelThread ==> s.used < NKTHREADS)
    ensures Inv(DoAlloc(s, parent, kind))
  {
    if s.free != [] {
      var e, s' := s.free[0], DoAlloc(s, parent, kind);
      assert FreeAt(s.free, s.used, 0) && SlotOk(s.envs, s.allocs, s.used, e);
      assert s.free[1..] == s'.free;
      forall i | 0 <= i < NSLOTS ensures SlotOk(s'.envs, s'.allocs, s'.used, i) {
        assert SlotOk(s.envs, s.allocs, s.used, i);
      }
      forall x | 0 <= x < NSLOTS ensures WaitOk(s'.envs, s'.allocs, s'.waits, x) {
        assert WaitOk(s.envs, s.allocs, s.waits, x);
      }
      forall j | 0 <= j < |s'.free| ensures FreeAt(s'.free, s'.used, j) {
        assert FreeAt(s.free, s.used, j + 1);
      }
      forall i, j | 0 <= i < j < |s'.free| ensures Differ(s'.free[i], s'.free[j]) {
        assert Differ(s.free[i + 1], s.free[j + 1]);
      }
      forall j | 0 <= j < |s'.free| ensures s'.envs[s'.free[j]].status == Free {
        assert Differ(s.free[0], s.free[j + 1]);
      }
    }
  }

  lemma ReleaseKeeps(s: State, e: nat)
    requires Inv(s) && e < NSLOTS && s.envs[e].status != Free
    ensures Inv(DoRelease(s, e))
  {
    var s' := DoRelease(s, e);
    assert SlotOk(s.envs, s.allocs, s.used, e);
    forall i | 0 <= i < NSLOTS ensures SlotOk(s'.envs, s'.allocs, s'.used, i) {
      assert SlotOk(s.envs, s.allocs, s.used, i);
    }
    forall x | 0 <= x < NSLOTS ensures WaitOk(s'.envs, s'.allocs, s'.waits, x) {
      assert WaitOk(s.envs, s.allocs, s.waits, x);
      if s'.waits[x].Some? && x < NENV {
        var t := EnvX(s.waits[x].value.id);
        assert e != t by {
          assert s'.envs[x].status == Sleeping;
        }
      }
    }
    forall j | 0 <= j < |s'.free| ensures FreeAt(s'.free, s'.used, j) {
      assert j > 0 ==> FreeAt(s.free, s.used, j - 1);
    }
    forall i, j | 0 <= i < j < |s'.free| ensures Differ(s'.free[i], s'.free[j]) {
      assert i > 0 ==> Differ(s.free[i - 1], s.free[j - 1]);
    }
  }

  lemma WaitKeeps(s: State, cur: nat, id: int)
    requires Inv(s) && cur < NSLOTS && s.envs[cur].status == Running
    ensures Inv(DoWait(s, cur, id))
  {
    var s' := DoWait(s, cur, id);
    forall i | 0 <= i < NSLOTS ensures SlotOk(s'.envs, s'.allocs, s'.used, i) {
      assert SlotOk(s.envs, s.allocs, s.used, i);
    }
    forall x | 0 <= x < NSLOTS ensures WaitOk(s'.envs, s'.allocs, s'.waits, x) {
      assert WaitOk(s.envs, s.allocs, s.waits, x);
    }
  }

  lemma SetStatusKeeps(s: State, e: nat, status: Status, cpu: int)
    requires Inv(s) && e < NSLOTS && s.envs[e].status != Free && status != Free
    ensures var s' := DoSetStatus(s, e, status, cpu);
            && Inv(s') && s'.envs[e].status == status && s'.envs[e].cpu == cpu && s'.envs[e].waitId == s.envs[e].waitId
            && forall x :: 0 <= x < NSLOTS && x != e ==> s'.envs[x] == s.envs[x] && s'.waits[x] == s.waits[x]
  {
    var s' := DoSetStatus(s, e, status, cpu);
    forall i | 0 <= i < NSLOTS ensures SlotOk(s'.envs, s'.allocs, s'.used, i) {
      assert SlotOk(s.envs, s.allocs, s.used, i);
    }
    forall x | 0 <= x < NSLOTS ensures WaitOk(s'.envs, s'.allocs, s'.waits, x) {
      assert WaitOk(s.envs, s.allocs, s.waits, x);
    }
  }

  // ---------- runs ----------

  lemma StepKeeps(s: State, step: Step)
    requires Inv(s) && Enabled(s, step)
    ensures Inv(Apply(s, step))
  {
    match step
    case Alloc(parent, kind) => AllocKeeps(s, parent, kind);
    case Release(e) => ReleaseKeeps(s, e);
    case SysWait(cur, id) => WaitKeeps(s, cur, id);
    case SetStatus(e, status, cpu) => SetStatusKeeps(s, e, status, cpu);
  }

  /** The states that runs reach. */
  ghost predicate CanRun(s: State, steps: seq<Step>)
    decreases |steps|
  {
    Shape(s) && (steps == [] || (Enabled(s, steps[0]) && CanRun(Apply(s, steps[0]), steps[1..])))
  }

  function Run(s: State, steps: seq<Step>): (r: State)
    requires CanRun(s, steps)
    ensures Shape(r)
    decreases |steps|
  {
    if steps == [] then s else Run(Apply(s, steps[0]), steps[1..])
  }

  lemma {:induction false} RunKeeps(s: State, steps: seq<Step>)
    requires Inv(s) && CanRun(s, steps)
    ensures Inv(Run(s, steps))
    decreases |steps|
  {
    if steps != [] {
      StepKeeps(s, steps[0]);
      RunKeeps(Apply(s, steps[0]), steps[1..]);
    }
  }

  /** No lost wake-up: after any run from boot, whoever still sleeps in sys_wait(w) waits for an
      environment that is in use under id w and has not been released since. */
  lemma NoLostWakeup(steps: seq<Step>, x: nat)
    requires CanRun(Boot(), steps) && x < NENV && Run(Boot(), steps).waits[x].Some?
    ensures var s := Run(Boot(), steps); var w := s.waits[x].value;
            && s.envs[x].status == Sleeping && s.envs[x].waitId == w.id
            && s.envs[EnvX(w.id)].status != Free && s.envs[EnvX(w.id)].id == w.id && s.allocs[EnvX(w.id)] == w.n
  {
    BootInv();
    RunKeeps(Boot(), steps);
    var s := Run(Boot(), steps);
    assert WaitOk(s.envs, s.allocs, s.waits, x);
  }

  /** env_free changes the released entry, which becomes free, and the sleepers on its id, which
      become ready: all of them but one in the entry behind the table, and nobody else. */
  lemma ReleaseWakes(s: State, e: nat, x: nat)
    requires Shape(s) && e < NSLOTS && x < NSLOTS
    ensures var s', asked := DoRelease(s, e), s.envs[x].status == Sleeping && s.envs[x].waitId == s.envs[e].id;
            && (x == e ==> s'.envs[x].status == Free && s'.envs[x].id == s.envs[x].id)
            && (x != e && asked && x < NENV ==> s'.envs[x] == s.envs[x].(status := Runnable, waitId := -1) && s'.waits[x] == None)
            && (x != e && !(asked && x < NENV) ==> s'.envs[x] == s.envs[x])
  {
    assert x != e ==> DoRelease(s, e).envs[x] == if x < NENV then Woken(s.envs[x], s.envs[e].id) else s.envs[x];
  }

  /** env_alloc's new environment: it was free, it is ready, under an id that no environment in use
      has; nobody else changes. */
  lemma AllocStarts(s: State, parent: int, kind: Kind, x: nat)
    requires Inv(s) && s.free != [] && x < NSLOTS && (kind == KernelThread ==> s.used < NKTHREADS)
    ensures var e, s' := s.free[0], DoAlloc(s, parent, kind);
            && s.envs[e].status == Free && e !in s'.free
            && (x == e ==> s'.envs[x].status == Runnable && s'.envs[x].parent == parent && s'.envs[x].kind == kind
                           && s'.envs[x].waitId == s.envs[x].waitId && s'.envs[x].cpu == s.envs[x].cpu)
            && (x != e ==> s'.envs[x] == s.envs[x] && (s.envs[x].status != Free ==> s'.envs[x].id != s'.envs[e].id))
  {
    var e, s' := s.free[0], DoAlloc(s, parent, kind);
    AllocKeeps(s, parent, kind);
    assert SlotOk(s.envs, s.allocs, s.used, x) && SlotOk(s'.envs, s'.allocs, s'.used, e) && FreeAt(s.free, s.used, 0);
    if x != e && s.envs[x].status != Free {
      IdsApart(s', x, e);
    }
  }

  /** Id 0 names the caller, and so does its own id unless it sits behind the table. */
  lemma LookupSelf(s: State, cur: nat, checkPerm: bool)
    requires Inv(s) && cur < NSLOTS && s.envs[cur].status != Free
    ensures Lookup(s.envs, cur, 0, checkPerm) == Some(cur)
    ensures Lookup(s.envs, cur, s.envs[cur].id, checkPerm) == Some(cur) <==> cur < NENV
  {
    assert SlotOk(s.envs, s.allocs, s.used, cur);
    IdNamesSlot(cur, s.allocs[cur]);
  }

  /** envid2env on the id that the m-th allocation of a slot was given: it answers exactly while that
      incarnation is in use, or after a multiple of 524287 further allocations of the slot. */
  lemma LookupExact(s: State, cur: nat, slot: nat, m: nat)
    requires Inv(s) && cur < NSLOTS && slot < NENV && 0 < m <= s.allocs[slot]
    ensures Lookup(s.envs, cur, IdOf(slot, m), false) ==
            if s.envs[slot].status != Free && (s.allocs[slot] - m) % PERIOD == 0 then Some(slot) else None
  {
    IdNamesSlot(slot, m);
    IdsRepeat(slot, s.allocs[slot], m);
    assert SlotOk(s.envs, s.allocs, s.used, slot);
  }

  /** A stale id is refused, whatever the permission check, until 524287 allocations later. */
  lemma StaleRefused(steps: seq<Step>, cur: nat, slot: nat, m: nat, checkPerm: bool)
    requires CanRun(Boot(), steps) && cur < NSLOTS && slot < NENV
    requires var s := Run(Boot(), steps); 0 < m && m < s.allocs[slot] < m + PERIOD
    ensures Lookup(Run(Boot(), steps).envs, cur, IdOf(slot, m), checkPerm) == None
  {
    BootInv();
    RunKeeps(Boot(), steps);
    LookupExact(Run(Boot(), steps), cur, slot, m);
  }

  /** An environment in the entry behind the table cannot be found under its own id. */
  lemma TailNotFound(s: State, cur: nat)
    requires Inv(s) && cur < NSLOTS && s.envs[NENV].status != Free
    ensures Lookup(s.envs, cur, s.envs[NENV].id, false) == None
  {
    assert SlotOk(s.envs, s.allocs, s.used, NENV) && SlotOk(s.envs, s.allocs, s.used, 0);
    TailId(s.allocs[NENV]);
    IdsUnique(NENV, s.allocs[NENV], 0, s.allocs[0]);
  }

  /** Ids of proper entries differ unless both were never allocated, and those form a suffix. */
  lemma IdsApart(s: State, i: nat, j: nat)
    requires Inv(s) && i < NSLOTS && j < NSLOTS && i != j
    ensures s.envs[i].id == s.envs[j].id <==> i >= s.used && j >= s.used
  {
    assert SlotOk(s.envs, s.allocs, s.used, i) && SlotOk(s.envs, s.allocs, s.used, j);
    if i < s.used {
      IdNamesSlot(i, s.allocs[i]);
    }
    if j < s.used {
      IdNamesSlot(j, s.allocs[j]);
    }
    if i < s.used && j < s.used {
      IdsUnique(i, s.allocs[i], j, s.allocs[j]);
    }
  }

  /** With the permission check, a new environment is found by itself and its parent and nobody else. */
  lemma OnlyParentFinds(s: State, p: nat, kind: Kind, q: nat)
    requires Inv(s) && p < NSLOTS && s.envs[p].status != Free && s.free != [] && s.free[0] < NENV
    requires (kind == KernelThread ==> s.used < NKTHREADS) && q < NSLOTS && (s.envs[q].status != Free || q == s.free[0])
    ensures var e, s' := s.free[0], DoAlloc(s, s.envs[p].id, kind);
            Lookup(s'.envs, q, s'.envs[e].id, true) == if q == e || q == p then Some(e) else None
  {
    var e, s' := s.free[0], DoAlloc(s, s.envs[p].id, kind);
    AllocKeeps(s, s.envs[p].id, kind);
    assert SlotOk(s'.envs, s'.allocs, s'.used, e) && SlotOk(s.envs, s.allocs, s.used, p);
    assert FreeAt(s.free, s.used, 0);
    IdNamesSlot(e, s'.allocs[e]);
    if q != e && q != p {
      assert SlotOk(s.envs, s.allocs, s.used, q);
      IdsApart(s, q, p);
    }
  }
}
