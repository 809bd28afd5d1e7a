/** The environment table in place: entries with links, the free list, and the scheduler's search
    (kern/env.c, kern/syscall.c, kern/sched.c). */
module EnvTable {
  import opened Options
  import opened EnvIds
  import opened Chains
  import opened EnvModel
  import opened SchedSearch

  datatype Entry = Entry(env: Env, link: int)

  function Links(es: seq<Entry>): (r: seq<int>)
    ensures |r| == |es|
  {
    seq(|es|, i requires 0 <= i < |es| => es[i].link)
  }

  function EnvsOf(es: seq<Entry>): (r: seq<Env>)
    ensures |r| == |es|
  {
    seq(|es|, i requires 0 <= i < |es| => es[i].env)
  }

  class Table {
    const entries: array<Entry>
    var freeHead: int
    ghost var free: seq<int>
    ghost var allocs: seq<nat>
    ghost var used: nat
    ghost var waits: seq<Option<Wait>>

    ghost function Abs(): State
      reads this, entries
    {
      State(EnvsOf(entries[..]), free, allocs, used, waits)
    }

    ghost predicate Valid()
      reads this, entries
    {
      entries.Length == NSLOTS && Inv(Abs()) && Chain(Links(entries[..]), freeHead, free)
    }

    /** env_init: pushes the entries from NENV down to 0. */
    constructor ()
      ensures Valid() && Abs() == Boot() && fresh(entries)
    {
      entries := new Entry[NSLOTS](i => Entry(ZERO_ENV, NULL));
      freeHead := NULL;
      free, allocs, used, waits := [], seq(NSLOTS, i => 0), 0, seq(NSLOTS, i => None);
      new;
      var i := NSLOTS;
      while i > 0
        invariant 0 <= i <= NSLOTS && entries.Length == NSLOTS && fresh(entries)
        invariant |free| == NSLOTS - i && (forall j :: 0 <= j < |free| ==> free[j] == i + j)
        invariant forall j :: 0 <= j < NSLOTS ==> entries[j].env == ZERO_ENV
        invariant Chain(Links(entries[..]), freeHead, free)
        invariant allocs == Boot().allocs && used == 0 && waits == Boot().waits
      {
        i := i - 1;
        assert Disjoint(free, [i]);
        ChainPush(Links(entries[..]), freeHead, free, i);
        ghost var links := Links(entries[..]);
        entries[i] := Entry(entries[i].env.(id := 0, waitId := -1), freeHead);
        assert Links(entries[..]) == links[i := freeHead];
        freeHead := i;
        free := [i] + free;
      }
      assert free == Boot().free && EnvsOf(entries[..]) == Boot().envs;
      BootInv();
    }

    /** envid2env. */
    method Envid2Env(cur: nat, id: int, checkPerm: bool) returns (r: Option<nat>)
      requires Valid() && cur < NSLOTS
      ensures r == Lookup(Abs().envs, cur, id, checkPerm)
    {
      if id == 0 {
        return Some(cur);
      }
      var e := EnvX(id);
      if entries[e].env.status == Free || entries[e].env.id != id {
        return None;
      }
      if checkPerm && e != cur && entries[e].env.parent != entries[cur].env.id {
        return None;
      }
      return Some(e);
    }

    /** env_alloc; memory tells whether env_setup_vm succeeds. */
    method EnvAlloc(parent: int, kind: Kind, memory: bool) returns (r: Option<nat>)
      requires Valid() && Enabled(Abs(), Alloc(parent, kind))
      modifies this, entries
      ensures Valid() && Abs() == if memory then DoAlloc(old(Abs()), parent, kind) else old(Abs())
      ensures r == if memory && old(free) != [] then Some(old(free)[0]) else None
    {
      var e := freeHead;
      if e == NULL || !memory {
        return None;
      }
      ghost var target, links := DoAlloc(Abs(), parent, kind), Links(entries[..]);
      AllocKeeps(Abs(), parent, kind);
      ChainTail(links, freeHead, free);
      var v := entries[e].env;
      entries[e] := entries[e].(env := v.(id := NextId(v.id, e), parent := parent, kind := kind, status := Runnable));
      freeHead := entries[e].link;
      assert Links(entries[..]) == links;
      assert EnvsOf(entries[..]) == target.envs;
      free, allocs, used, waits := target.free, target.allocs, target.used, target.waits;
      r := Some(e);
    }

    /** env_free without the release of memory. */
    method EnvFree(e: nat)
      requires Valid() && e < NSLOTS && Abs().envs[e].status != Free
      modifies this, entries
      ensures Valid() && Abs() == DoRelease(old(Abs()), e)
    {
      ghost var target, links, envs := DoRelease(Abs(), e), Links(entries[..]), EnvsOf(entries[..]);
      ReleaseKeeps(Abs(), e);
      WakeSleepers(e);
      assert Disjoint(free, [e]) by {
        forall i, j | 0 <= i < |free| && 0 <= j < 1 ensures Differ(free[i], [e][j]) {
          assert envs[free[i]].status == Free;
        }
      }
      ChainPush(links, freeHead, free, e);
      entries[e] := Entry(entries[e].env.(status := Free), freeHead);
      assert Links(entries[..]) == links[e := freeHead];
      assert EnvsOf(entries[..]) == target.envs;
      freeHead := e;
      free, waits := target.free, target.waits;
    }

    /** The wake-up loop of env_free. */
    method WakeSleepers(e: nat)
      requires entries.Length == NSLOTS && e < NSLOTS
      modifies entries
      ensures EnvsOf(entries[..]) == WokenAll(old(EnvsOf(entries[..])), old(entries[e].env.id), NENV)
      ensures Links(entries[..]) == old(Links(entries[..]))
    {
      ghost var before := entries[..];
      for i := 0 to NENV
        invariant forall j :: i <= j < NSLOTS ==> entries[j] == before[j]
        invariant forall j :: 0 <= j < i ==> entries[j] == before[j].(env := Woken(before[j].env, before[e].env.id))
      {
        assert entries[e].env.id == before[e].env.id;
        if entries[i].env.status == Sleeping && entries[i].env.waitId == entries[e].env.id {
          entries[i] := entries[i].(env := entries[i].env.(status := Runnable, waitId := -1));
        }
      }
    }

    /** sys_wait up to its call of sched_yield: 0, or -1 for an unknown id. */
    method SysWait(cur: nat, id: int) returns (r: int)
      requires Valid() && cur < NSLOTS && Abs().envs[cur].status == Running
      modifies this, entries
      ensures Valid() && Abs() == DoWait(old(Abs()), cur, id)
      ensures r == if Lookup(old(Abs()).envs, cur, id, false) == None then -1 else 0
    {
      ghost var target, links := DoWait(Abs(), cur, id), Links(entries[..]);
      WaitKeeps(Abs(), cur, id);
      var e := Envid2Env(cur, id, false);
      if e == None {
        return -1;
      }
      entries[cur] := entries[cur].(env := entries[cur].env.(waitId := id, status := Sleeping));
      assert Links(entries[..]) == links && EnvsOf(entries[..]) == target.envs;
      waits := target.waits;
      r := 0;
    }

    /** runnable_env_lookup, called as sched_yield calls it: with a slot that was allocated, or with
        the first user slot. It finds the first ready environment in circular order. Without one it
        looks at the slot before the start, not at the current environment. */
    method RunnableEnvLookup(i0: nat, cpu: int) returns (r: int)
      requires Valid() && i0 < NENV && (i0 < used || i0 <= NKTHREADS)
      ensures var start, envs := if i0 < NKTHREADS then NKTHREADS else i0, Abs().envs;
              if AnyReady(envs) then UserSlot(r) && FirstReady(envs, start, Dist(start, r))
              else r == if envs[LastOf(start)].status == Running && envs[LastOf(start)].cpu == cpu then LastOf(start) else -1
    {
      var i := i0;
      if i < NKTHREADS {
        i := NKTHREADS;
      }
      var last := i - 1;
      if last == NKTHREADS - 1 {
        last := NENV - 1;
      }
      ghost var start, s := i, Abs();
      ghost var k := 0;
      while i <= NENV
        invariant k < USERS && UserSlot(start) && last == LastOf(start)
        invariant NKTHREADS <= i <= NENV && Pos(start, k) == if i == NENV then NKTHREADS else i
        invariant forall j: nat :: j < k ==> !Ready(s.envs, Pos(start, j))
        decreases USERS - k
      {
        if i == NENV {
          i := NKTHREADS;
        }
        assert SlotOk(s.envs, s.allocs, s.used, i) && s.envs[i] == entries[i].env && Pos(start, k) == i;
        assert k == USERS - 1 ==> i == last;
        if entries[i].env.status == Runnable && entries[i].env.kind != KernelThread {
          assert Ready(s.envs, i) && Dist(start, i) == k;
          return i;
        }
        if entries[i].env.id == entries[last].env.id && entries[i].env.kind != KernelThread {
          NoneReady(s, start, k);
          if entries[i].env.status == Running && entries[i].env.cpu == cpu {
            r := i;
          } else {
            r := -1;
          }
          return;
        }
        i := i + 1;
        k := k + 1;
      }
      r := -1;
    }

    /** The slot from which sched_yield searches. */
    method SearchStart(cur: Option<nat>) returns (i: nat)
      requires Valid() && (cur.Some? ==> cur.value < NSLOTS && Abs().envs[cur.value].status != Free)
      ensures i < NENV && (i < used || i <= NKTHREADS)
      ensures cur.Some? && cur.value < NENV ==> i == cur.value
    {
      if cur == None {
        return NKTHREADS;
      }
      i := EnvX(entries[cur.value].env.id);
      ghost var s := Abs();
      assert SlotOk(s.envs, s.allocs, s.used, cur.value);
      IdNamesSlot(cur.value, s.allocs[cur.value]);
      if cur.value == NENV {
        TailId(s.allocs[NENV]);
      }
    }
  }

  /** The search stops at the slot before its start, or, if that was never allocated, at the first
      slot never allocated; either way it has seen every ready environment. */
  lemma NoneReady(s: State, start: nat, k: nat)
    requires Inv(s) && UserSlot(start) && (start < s.used || start == NKTHREADS) && k < USERS
    requires forall j: nat :: j < k ==> !Ready(s.envs, Pos(start, j))
    requires !Ready(s.envs, Pos(start, k)) && s.envs[Pos(start, k)].id == s.envs[LastOf(start)].id
    ensures !AnyReady(s.envs)
    ensures s.envs[Pos(start, k)].status == s.envs[LastOf(start)].status
    ensures s.envs[Pos(start, k)].status == Running ==> Pos(start, k) == LastOf(start)
  {
    var p, last := Pos(start, k), LastOf(start);
    if p != last {
      IdsApart(s, p, last);
      assert SlotOk(s.envs, s.allocs, s.used, p) && SlotOk(s.envs, s.allocs, s.used, last);
    }
    forall i | UserSlot(i) ensures !Ready(s.envs, i) {
      assert SlotOk(s.envs, s.allocs, s.used, i);
      var d := Dist(start, i);
      assert p == last ==> k == Dist(start, last);
    }
  }
}
