/** The two tasklet lists of kern/pmap.c, linked through the preallocated tasklets. */
module Tasklets {
  import opened SwapMap
  import opened SwapProtocol
  import opened Chains

  datatype Fn = Fn(kind: Kind) | Dead
  datatype TaskletState = Free | Ready | Working

  /** A tasklet is named by its id, its index in the page of tasklets; `next` is such an id. */
  datatype Tasklet = Tasklet(fn: Fn, count: nat, state: TaskletState, next: int,
                             sector: nat, frame: nat, loc: Loc)

  function Nexts(ts: seq<Tasklet>): (r: seq<int>)
    ensures |r| == |ts|
  {
    seq(|ts|, i requires 0 <= i < |ts| => ts[i].next)
  }

  ghost predicate Queue(ts: seq<Tasklet>, head: int, s: seq<int>) {
    Chain(Nexts(ts), head, s)
  }

  /** Every tasklet is in exactly one of the three sequences. */
  ghost predicate Partition(work: seq<int>, free: seq<int>, prep: seq<int>) {
    && NoDup(work) && NoDup(free) && NoDup(prep)
    && Disjoint(work, free) && Disjoint(work, prep) && Disjoint(free, prep)
    && |work| + |free| + |prep| == NTASKS
    && (forall i :: 0 <= i < |work| ==> 0 <= work[i] < NTASKS)
    && (forall i :: 0 <= i < |free| ==> 0 <= free[i] < NTASKS)
    && (forall i :: 0 <= i < |prep| ==> 0 <= prep[i] < NTASKS)
  }

  lemma AllDistinct(work: seq<int>, free: seq<int>, prep: seq<int>)
    requires Partition(work, free, prep)
    ensures NoDup(work + free + prep)
  {
    var all := work + free + prep;
    forall i, j | 0 <= i < j < |all| ensures Differ(all[i], all[j]) {
      var a, b := |work|, |work| + |free|;
      if j < a {
        assert Differ(work[i], work[j]);
      } else if j < b {
        assert if i < a then Differ(work[i], free[j - a]) else Differ(free[i - a], free[j - a]);
      } else {
        assert if i < a then Differ(work[i], prep[j - b])
               else if i < b then Differ(free[i - a], prep[j - b]) else Differ(prep[i - b], prep[j - b]);
      }
    }
  }

  /** No tasklet is ever lost: each is on one of the lists or being prepared. */
  lemma NoTaskletLost(work: seq<int>, free: seq<int>, prep: seq<int>, x: int)
    requires Partition(work, free, prep) && 0 <= x < NTASKS
    ensures x in work || x in free || x in prep
  {
    var all := work + free + prep;
    AllDistinct(work, free, prep);
    ElemsSize(all);
    if x !in all {
      var named: set<nat> := set y: nat | y in all;
      assert named == Elems(all);
      SizeBelow(named + {x}, NTASKS);
    }
  }

  /** Changing only fields other than `next`, or elements outside the chain, keeps the chain. */
  lemma QueueKept(ts: seq<Tasklet>, ts': seq<Tasklet>, head: int, s: seq<int>)
    requires Queue(ts, head, s) && |ts'| == |ts|
    requires forall i :: 0 <= i < |s| && 0 <= s[i] < |ts| ==> ts'[s[i]].next == ts[s[i]].next
    ensures Queue(ts', head, s)
  {
    ChainKept(Nexts(ts), Nexts(ts'), head, s);
  }

  /** Appending t to one chain changes t and that chain's last element only, so a chain without
      them is kept. */
  lemma OtherQueueKept(ts: seq<Tasklet>, ts': seq<Tasklet>, head: int, s: seq<int>, other: seq<int>, t: int)
    requires Queue(ts, head, s) && |ts'| == |ts| && Disjoint(s, other) && Disjoint(s, [t])
    requires forall i :: 0 <= i < |ts| && i != t && (other == [] || i != other[|other| - 1]) ==> ts'[i] == ts[i]
    ensures Queue(ts', head, s)
  {
    forall i | 0 <= i < |s| ensures s[i] != t && (other == [] || s[i] != other[|other| - 1]) {
      assert Differ(s[i], [t][0]);
      assert other != [] ==> Differ(s[i], other[|other| - 1]);
    }
    QueueKept(ts, ts', head, s);
  }

  /** Bypassing the k-th element of a chain removes exactly that element. */
  lemma Unlink(ts: seq<Tasklet>, head: int, s: seq<int>, k: nat)
    requires Queue(ts, head, s) && NoDup(s) && k < |s|
    ensures var next := ts[s[k]].next;
            Queue(if k == 0 then ts else ts[s[k - 1] := ts[s[k - 1]].(next := next)],
                  if k == 0 then next else head, s[..k] + s[k + 1..])
  {
    ChainUnlink(Nexts(ts), head, s, k);
    if k > 0 {
      var ts' := ts[s[k - 1] := ts[s[k - 1]].(next := ts[s[k]].next)];
      assert Nexts(ts') == Nexts(ts)[s[k - 1] := ts[s[k]].next];
    }
  }

  /** Linking t behind the last element extends the chain by t. */
  lemma QueueAppend(ts: seq<Tasklet>, head: int, s: seq<int>, t: int)
    requires Queue(ts, head, s) && NoDup(s) && Disjoint(s, [t]) && 0 <= t < |ts|
    ensures Queue(Linked(ts, s, t), if s == [] then t else head, s + [t])
  {
    var links, links' := Nexts(ts), Nexts(Linked(ts, s, t));
    forall i | 0 <= i < |s + [t]| ensures LinkOk(links', s + [t], i) {
      if i < |s| {
        assert LinkOk(links, s, i) && Differ(s[i], [t][0]);
        assert i + 1 < |s| ==> Differ(s[i], s[|s| - 1]);
      }
    }
  }

  /** The tasklets after t is linked behind the last element of s. */
  function Linked(ts: seq<Tasklet>, s: seq<int>, t: int): seq<Tasklet>
    requires 0 <= t < |ts|
  {
    var ts := if s != [] && 0 <= s[|s| - 1] < |ts| then ts[s[|s| - 1] := ts[s[|s| - 1]].(next := t)] else ts;
    ts[t := ts[t].(next := NULL)]
  }

  /** Taking the head of the free list to prepare it keeps the partition. */
  lemma PartitionTake(work: seq<int>, free: seq<int>)
    requires Partition(work, free, []) && free != []
    ensures Partition(work, free[1..], [free[0]])
  {
  }

  /** Queuing the prepared tasklet keeps the partition. */
  lemma PartitionQueue(work: seq<int>, free: seq<int>, t: int)
    requires Partition(work, free, [t])
    ensures Partition(work + [t], free, [])
    ensures Disjoint(work, [t]) && Disjoint(free, [t]) && Disjoint(free, work) && 0 <= t < NTASKS
  {
    assert [t][0] == t;
  }

  /** Moving the k-th work tasklet to the end of the free list keeps the partition. */
  lemma PartitionFree(work: seq<int>, free: seq<int>, k: nat)
    requires Partition(work, free, []) && k < |work|
    ensures Partition(work[..k] + work[k + 1..], free + [work[k]], [])
    ensures Disjoint(work[..k] + work[k + 1..], [work[k]]) && Disjoint(free, [work[k]])
    ensures Disjoint(work[..k] + work[k + 1..], free)
  {
  }

  class TaskPool {
    const tasks: array<Tasklet>
    var tList: int
    var tFlist: int
    ghost var work: seq<int>
    ghost var free: seq<int>
    /** The tasklet taken from the free list and not yet queued, if any. */
    ghost var prep: seq<int>

    ghost predicate Valid()
      reads this, tasks
    {
      && tasks.Length == NTASKS && |prep| <= 1
      && Partition(work, free, prep)
      && Queue(tasks[..], tList, work) && Queue(tasks[..], tFlist, free)
    }

    /** task_init: all tasklets on the free list, in order. */
    constructor ()
      ensures Valid() && fresh(tasks)
      ensures work == [] && prep == [] && free == seq(NTASKS, i => i)
    {
      tasks := new Tasklet[NTASKS](i => Tasklet(Dead, 0, Free, if i == NTASKS - 1 then NULL else i + 1, 0, 0, Loc(0, 0)));
      tList, tFlist := NULL, 0;
      work, free, prep := [], seq(NTASKS, i => i), [];
    }

    /** task_add: appends t at the tail of the list that starts at `list`. Its loop runs past the
        old tail into t itself, which for a moment is its own successor. */
    method TaskAdd(t: int, list: int, toFree: bool, ghost s: seq<int>) returns (list': int)
      requires 0 <= t < tasks.Length && Queue(tasks[..], list, s)
      requires NoDup(s) && Disjoint(s, [t])
      modifies tasks
      ensures Queue(tasks[..], list', s + [t])
      ensures tasks[t] == (if toFree then old(tasks[t]).(fn := Dead, state := Free, count := 0, next := NULL)
                           else old(tasks[t]).(next := NULL))
      ensures forall i :: 0 <= i < tasks.Length && i != t ==> tasks[i] == old(tasks[i]).(next := tasks[i].next)
      ensures forall i :: 0 <= i < tasks.Length && i != t && (s == [] || i != s[|s| - 1]) ==> tasks[i] == old(tasks[i])
    {
      assert forall i :: 0 <= i < |s| ==> Differ(s[i], [t][0]);
      var ts := list;
      list' := list;
      if toFree {
        tasks[t] := tasks[t].(fn := Dead, state := Free, count := 0);
      }
      if list == NULL {
        list' := t;
        tasks[t] := tasks[t].(next := NULL);
      }
      ghost var pre := tasks[..];
      QueueKept(old(tasks[..]), pre, list, s);
      ghost var k := if s == [] then 1 else 0;
      while ts != NULL
        invariant 0 <= k <= |s| + 1
        invariant ts == (if k < |s| then s[k] else if k == |s| then t else NULL)
        invariant k < |s| ==> tasks[..] == pre
        invariant k >= |s| ==> tasks[..] == Linked(pre, s, t)
        decreases |s| + 1 - k
      {
        assert k < |s| ==> LinkOk(Nexts(pre), s, k);
        if tasks[ts].next == NULL {
          tasks[ts] := tasks[ts].(next := t);
          tasks[t] := tasks[t].(next := NULL);
        }
        ts := tasks[ts].next;
        k := k + 1;
      }
      QueueAppend(pre, list, s, t);
    }

    /** task_get_free: takes the head of the free list to prepare it. */
    method TaskGetFree() returns (t: int)
      requires Valid() && prep == []
      modifies this
      ensures Valid() && work == old(work) && tList == old(tList)
      ensures old(free) == [] ==> t == NULL && prep == [] && free == []
      ensures old(free) != [] ==> t == old(free)[0] && prep == [t] && free == old(free)[1..]
    {
      t := tFlist;
      if t != NULL {
        PartitionTake(work, free);
        ChainTail(Nexts(tasks[..]), tFlist, free);
        tFlist := tasks[t].next;
        prep, free := [t], free[1..];
      }
    }

    /** task_add_alloc: queues the prepared tasklet behind all others. */
    method TaskAddAlloc(t: int)
      requires Valid() && prep == [t]
      modifies this, tasks
      ensures Valid() && work == old(work) + [t] && free == old(free) && prep == []
      ensures forall i :: 0 <= i < tasks.Length ==> tasks[i] == old(tasks[i]).(next := tasks[i].next)
    {
      PartitionQueue(work, free, t);
      tList := TaskAdd(t, tList, false, work);
      assert forall i :: 0 <= i < tasks.Length && i != t && (work == [] || i != work[|work| - 1]) ==> tasks[..][i] == old(tasks[..])[i];
      OtherQueueKept(old(tasks[..]), tasks[..], tFlist, free, work, t);
      work, prep := work + [t], [];
    }

    /** The search of task_free: the tasklet with the given id and the one before it. */
    method FindWork(id: int) returns (ts: int, oldTs: int, ghost k: nat)
      requires Valid()
      ensures k <= |work| && id !in work[..k]
      ensures ts == (if k < |work| then work[k] else NULL) && (k < |work| ==> ts == id)
      ensures k < |work| ==> oldTs == work[if k > 0 then k - 1 else 0]
    {
      ts, oldTs, k := tList, tList, 0;
      while ts != NULL && ts != id
        invariant 0 <= k <= |work| && ts == (if k < |work| then work[k] else NULL)
        invariant oldTs == (if k > 0 then work[k - 1] else tList)
        invariant id !in work[..k]
        decreases |work| - k
      {
        assert LinkOk(Nexts(tasks[..]), work, k);
        oldTs := ts;
        ts := tasks[ts].next;
        k := k + 1;
      }
    }

    /** task_free: unlinks the tasklet with the given id from the work list and appends it to the
        free list. */
    method TaskFree(id: int) returns (found: bool, ghost k: nat)
      requires Valid() && prep == []
      modifies this, tasks
      ensures found == (id in old(work)) && Valid() && prep == []
      ensures !found ==> work == old(work) && free == old(free) && tasks[..] == old(tasks[..])
      ensures found ==> k < |old(work)| && old(work)[k] == id
      ensures found ==> work == old(work)[..k] + old(work)[k + 1..] && free == old(free) + [id]
      ensures found ==> tasks[id].state == Free
      ensures found ==> forall i :: 0 <= i < tasks.Length && i != id ==> tasks[i] == old(tasks[i]).(next := tasks[i].next)
    {
      var ts, oldTs;
      ts, oldTs, k := FindWork(id);
      found := ts != NULL;
      if found {
        ghost var before := tasks[..];
        Unlink(before, tList, work, k);
        PartitionFree(work, free, k);
        tasks[oldTs] := tasks[oldTs].(next := tasks[ts].next);
        if tList == ts {
          tList := tasks[ts].next;
        }
        ghost var middle := tasks[..];
        assert middle == if k == 0 then before else before[work[k - 1] := before[work[k - 1]].(next := before[ts].next)];
        assert k > 0 ==> Differ(work[0], work[k]);
        forall i | 0 <= i < |free| ensures free[i] != oldTs {
          assert Differ(work[if k > 0 then k - 1 else 0], free[i]);
        }
        QueueKept(before, middle, tFlist, free);
        FinishFree(ts, k);
      }
    }

    /** The end of task_free, once ts is off the work list. */
    method FinishFree(ts: int, ghost k: nat)
      requires tasks.Length == NTASKS && prep == [] && k < |work| && work[k] == ts && 0 <= ts < NTASKS
      requires var rest := work[..k] + work[k + 1..];
               && Partition(rest, free + [ts], []) && Disjoint(rest, [ts]) && Disjoint(free, [ts]) && Disjoint(rest, free)
               && Queue(tasks[..], tList, rest) && Queue(tasks[..], tFlist, free) && NoDup(free)
      modifies this, tasks
      ensures Valid() && prep == [] && tList == old(tList)
      ensures work == old(work)[..k] + old(work)[k + 1..] && free == old(free) + [ts]
      ensures tasks[ts].state == Free
      ensures forall i :: 0 <= i < tasks.Length && i != ts ==> tasks[i] == old(tasks[i]).(next := tasks[i].next)
    {
      ghost var middle, rest := tasks[..], work[..k] + work[k + 1..];
      tFlist := TaskAdd(ts, tFlist, true, free);
      assert forall i :: 0 <= i < tasks.Length && i != ts && (free == [] || i != free[|free| - 1]) ==> tasks[..][i] == middle[i];
      OtherQueueKept(middle, tasks[..], tList, rest, free, ts);
      work, free := rest, free + [ts];
    }
  }
}
