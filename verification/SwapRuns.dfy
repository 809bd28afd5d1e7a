/** Whole runs of the swap protocol: safety, progress, and the swap round trip. */
module SwapRuns {
  import opened Mmu
  import opened SwapMap
  import opened SwapProtocol
  import opened SwapSafety
  import opened SwapAccounts

  ghost predicate CanRun(s: State, steps: seq<Step>)
    requires Shape(s)
    decreases |steps|
  {
    steps == [] || (Enabled(s, steps[0]) && CanRun(Apply(s, steps[0]), steps[1..]))
  }

  ghost function Run(s: State, steps: seq<Step>): (s': State)
    requires Shape(s) && CanRun(s, steps)
    ensures Shape(s')
    decreases |steps|
  {
    if steps == [] then s else Run(Apply(s, steps[0]), steps[1..])
  }

  ghost function SpecRun(m: map<Loc, PageView>, steps: seq<Step>): map<Loc, PageView>
    decreases |steps|
  {
    if steps == [] then m else SpecRun(SpecStep(m, steps[0]), steps[1..])
  }

  /** Boot: nothing mapped, queued or swapped, no frame in use, nobody asleep. */
  ghost predicate Boot(s: State) {
    && Shape(s) && !s.halted && s.work == [] && s.ptes == map[] && s.asleep == {}
    && (forall i :: 0 <= i < |s.bits| ==> !s.bits[i])
    && (forall f :: 0 <= f < |s.frames| ==> !s.frames[f].alloc && s.frames[f].ref == 0)
  }

  lemma BootInv(s: State)
    requires Boot(s)
    ensures Inv(s) && Accounts(s)
  {
    forall b: nat | IsStart(b) ensures RunOk(Idle, s.bits, b) {
      assert RunIs(s.bits, b, false);
    }
  }

  /** Safety over whole runs: the kernel does not halt, the swap map and the queue stay sound, and
      users see exactly what they would see if swapping did not exist. */
  lemma {:induction false} RunRefines(s: State, steps: seq<Step>)
    requires Inv(s) && CanRun(s, steps)
    ensures Inv(Run(s, steps)) && View(Run(s, steps)) == SpecRun(View(s), steps)
    decreases |steps|
  {
    if steps != [] {
      StepRefines(s, steps[0]);
      RunRefines(Apply(s, steps[0]), steps[1..]);
    }
  }

  /** Over whole runs a frame is allocated exactly if a present entry maps it or a queued page-in
      holds it, and an environment sleeps exactly if a page-in for one of its pages is queued. */
  lemma {:induction false} RunAccounts(s: State, steps: seq<Step>)
    requires Inv(s) && Accounts(s) && CanRun(s, steps)
    ensures Accounts(Run(s, steps))
    decreases |steps|
  {
    if steps != [] {
      StepRefines(s, steps[0]);
      StepAccounts(s, steps[0]);
      RunAccounts(Apply(s, steps[0]), steps[1..]);
    }
  }

  lemma BootAccounts(s: State, steps: seq<Step>, f: nat, e: nat)
    requires Boot(s) && CanRun(s, steps) && f < |Run(s, steps).frames|
    ensures var s' := Run(s, steps);
            && (s'.frames[f].alloc <==>
                 (exists l :: l in s'.ptes && s'.ptes[l].flags.p && s'.ptes[l].num == f)
                 || (exists i :: 0 <= i < |s'.work| && s'.work[i].kind.PageIn? && s'.work[i].frame == f))
            && (e in s'.asleep <==> exists i :: 0 <= i < |s'.work| && s'.work[i].kind.PageIn? && s'.work[i].loc.env == e)
  {
    BootInv(s);
    RunAccounts(s, steps);
    var s' := Run(s, steps);
    assert FrameAccount(s'.frames, s'.work, s'.ptes, f);
    assert Pending(s'.work, e) <==> e in s'.asleep;
  }

  lemma {:induction false} RunUsedBy(s: State, steps: seq<Step>, n: nat, l: Loc)
    requires Inv(s) && CanRun(s, steps) && UsedBy(s, n, l) && forall i :: 0 <= i < |steps| ==> !Takes(steps[i], n)
    ensures UsedBy(Run(s, steps), n, l) && |Run(s, steps).frames| == |s.frames|
    decreases |steps|
  {
    if steps != [] {
      StepRefines(s, steps[0]);
      UsedByKeeps(s, steps[0], n, l);
      RunUsedBy(Apply(s, steps[0]), steps[1..], n, l);
    }
  }

  lemma {:induction false} RunWaitsFor(s: State, steps: seq<Step>, l: Loc)
    requires Inv(s) && CanRun(s, steps) && WaitsFor(s.work, l) && forall i :: 0 <= i < |steps| ==> !FaultOf(steps[i], l.env)
    ensures WaitsFor(Run(s, steps).work, l)
    decreases |steps|
  {
    if steps != [] {
      StepRefines(s, steps[0]);
      WaitsForKeeps(s, steps[0], l);
      RunWaitsFor(Apply(s, steps[0]), steps[1..], l);
    }
  }

  // ---------- progress ----------

  /** The step is not about page l. */
  predicate Elsewhere(step: Step, l: Loc) {
    step.Ktask? || step.loc != l
  }

  predicate AllElsewhere(steps: seq<Step>, l: Loc) {
    forall i :: 0 <= i < |steps| ==> Elsewhere(steps[i], l)
  }

  /** Ktask rounds in which the disk is ready. */
  function ReadyRounds(steps: seq<Step>): nat {
    if steps == [] then 0
    else (if steps[0] == Ktask(true) then 1 else 0) + ReadyRounds(steps[1..])
  }

  /** Ready rounds until the tasklet for l is done: nine per tasklet, eight sectors and the end. */
  ghost function Wait(work: seq<Task>, l: Loc): int {
    if work == [] then 0
    else NSECTORS + 1 - work[0].count + (if work[0].loc == l then 0 else Wait(work[1..], l))
  }

  lemma {:induction false} WaitPush(work: seq<Task>, t: Task, l: Loc)
    requires Queued(work, l)
    ensures Wait(work + [t], l) == Wait(work, l) && Queued(work + [t], l)
  {
    var i :| 0 <= i < |work| && work[i].loc == l;
    assert (work + [t])[i].loc == l;
    if work[0].loc != l {
      assert work[1..][i - 1].loc == l;
      WaitPush(work[1..], t, l);
      assert (work + [t])[1..] == work[1..] + [t];
    }
  }

  /** How a task for page l moves through the queue. */
  ghost predicate TaskAt(work: seq<Task>, i: nat, l: Loc, kind: Kind, frame: nat) {
    i < |work| && work[i].loc == l && work[i].kind == kind && work[i].frame == frame
  }

  lemma OnlyAt(work: seq<Task>, i: nat, j: nat)
    requires Apart(work) && i < |work| && j < |work|
    ensures i != j ==> work[i].loc != work[j].loc
  {
    assert i < j ==> TasksApart(work[i], work[j]);
    assert j < i ==> TasksApart(work[j], work[i]);
  }

  /** The head tasklet of page l ends: the entry is swapped out, or back on its frame. */
  lemma HeadDone(s: State, ready: bool)
    requires Inv(s) && s.work != [] && s.work[0].count == NSECTORS
    ensures var s', t := KtaskStep(s, ready), s.work[0];
            && s'.work == s.work[1..] && !Queued(s'.work, t.loc) && t.loc in s'.ptes
            && s'.ptes == s.ptes[t.loc := s'.ptes[t.loc]]
            && s'.ptes[t.loc].flags.p == t.kind.PageIn?
            && (t.kind.PageIn? ==> s'.ptes[t.loc].num == t.frame)
  {
    var s', t := KtaskStep(s, ready), s.work[0];
    assert TaskOk(t, s.frames, s.ptes, s.asleep);
    assert s.ptes[t.loc].flags.p ==> PresentOk(s.frames, s.ptes[t.loc]);
    forall i | 0 <= i < |s.work[1..]| ensures s.work[1..][i].loc != t.loc {
      OnlyAt(s.work, 0, i + 1);
    }
  }

  /** One ktask round on a page whose task is at position i. */
  lemma KtaskAt(s: State, ready: bool, l: Loc, i: nat, kind: Kind, frame: nat)
    requires Inv(s) && TaskAt(s.work, i, l, kind, frame)
    ensures var s' := KtaskStep(s, ready);
            if i == 0 && s.work[0].count == NSECTORS then
              !Queued(s'.work, l) && l in s'.ptes && s'.ptes[l].flags.p == kind.PageIn?
              && (kind.PageIn? ==> s'.ptes[l].num == frame)
            else
              && Queued(s'.work, l)
              && (TaskAt(s'.work, i, l, kind, frame) || (i > 0 && TaskAt(s'.work, i - 1, l, kind, frame)))
              && Wait(s'.work, l) <= Wait(s.work, l) - (if ready then 1 else 0)
  {
    var s' := KtaskStep(s, ready);
    if s.work[0].count == NSECTORS {
      HeadDone(s, ready);
      if i > 0 {
        assert s'.work[i - 1] == s.work[i];
        OnlyAtHead(s.work, i, l);
      }
    } else {
      assert s'.work[1..] == s.work[1..];
      assert i > 0 ==> s'.work[i] == s'.work[1..][i - 1] == s.work[1..][i - 1] == s.work[i];
      assert s'.work[0].loc == s.work[0].loc;
    }
  }

  lemma OnlyAtHead(work: seq<Task>, i: nat, l: Loc)
    requires Apart(work) && 0 < i < |work| && work[i].loc == l
    ensures work[0].loc != l
  {
    assert TasksApart(work[0], work[i]);
  }

  /** Other steps append behind the tasklet or leave the queue alone. */
  lemma OtherStepAt(s: State, step: Step, l: Loc)
    requires Inv(s) && Enabled(s, step) && !step.Ktask? && Elsewhere(step, l)
    ensures var s' := Apply(s, step);
            && s.work <= s'.work && (l in s'.ptes) == (l in s.ptes)
            && (l in s.ptes ==> s'.ptes[l] == s.ptes[l])
            && (Queued(s'.work, l) == Queued(s.work, l))
            && (Queued(s.work, l) ==> Wait(s'.work, l) == Wait(s.work, l))
  {
    var s' := Apply(s, step);
    if s'.work != s.work {
      var t := s'.work[|s.work|];
      assert s'.work == s.work + [t];
      if Queued(s.work, l) {
        WaitPush(s.work, t, l);
      }
    }
  }

  /** A page that no task is about keeps its entry. */
  lemma {:induction false} StaysIdle(s: State, steps: seq<Step>, l: Loc)
    requires Inv(s) && CanRun(s, steps) && AllElsewhere(steps, l) && !Queued(s.work, l) && l in s.ptes
    ensures var s' := Run(s, steps); !Queued(s'.work, l) && l in s'.ptes && s'.ptes[l] == s.ptes[l]
    decreases |steps|
  {
    if steps != [] {
      var step, s' := steps[0], Apply(s, steps[0]);
      StepRefines(s, step);
      if step.Ktask? {
        IdleUnderKtask(s, step.ready, l);
      } else {
        OtherStepAt(s, step, l);
      }
      StaysIdle(s', steps[1..], l);
    }
  }

  lemma IdleUnderKtask(s: State, ready: bool, l: Loc)
    requires Inv(s) && !Queued(s.work, l) && l in s.ptes
    ensures var s' := KtaskStep(s, ready); !Queued(s'.work, l) && l in s'.ptes && s'.ptes[l] == s.ptes[l]
  {
    var s' := KtaskStep(s, ready);
    if s.work != [] {
      assert s.work[0].loc != l;
      if s.work[0].count == NSECTORS {
        HeadDone(s, ready);
      } else {
        assert s'.work[1..] == s.work[1..] && s'.work[0].loc == s.work[0].loc;
      }
      forall i | 0 <= i < |s'.work| ensures s'.work[i].loc != l {
        assert s.work[i].loc != l;
        assert i + 1 < |s.work| ==> s.work[i + 1].loc != l;
      }
    }
  }

  /** FIFO progress: whatever else is queued behind or ahead, the tasklet for l finishes within its
      Wait of ready rounds, and leaves the entry swapped out or back. */
  lemma {:induction false} TaskFinishes(s: State, steps: seq<Step>, l: Loc, i: nat, kind: Kind, frame: nat)
    requires Inv(s) && CanRun(s, steps) && AllElsewhere(steps, l) && TaskAt(s.work, i, l, kind, frame)
    requires ReadyRounds(steps) >= Wait(s.work, l)
    ensures var s' := Run(s, steps);
            && !Queued(s'.work, l) && l in s'.ptes && s'.ptes[l].flags.p == kind.PageIn?
            && (kind.PageIn? ==> s'.ptes[l].num == frame)
    decreases |steps|
  {
    WaitPositive(s.work, l);
    assert steps != [];
    var step, s' := steps[0], Apply(s, steps[0]);
    StepRefines(s, step);
    assert s.work[i].loc == l && Queued(s.work, l);
    if step.Ktask? {
      KtaskAt(s, step.ready, l, i, kind, frame);
      if i == 0 && s.work[0].count == NSECTORS {
        StaysIdle(s', steps[1..], l);
      } else {
        var i' := if TaskAt(s'.work, i, l, kind, frame) then i else i - 1;
        TaskFinishes(s', steps[1..], l, i', kind, frame);
      }
    } else {
      OtherStepAt(s, step, l);
      TaskFinishes(s', steps[1..], l, i, kind, frame);
    }
  }

  /** A page-in that finishes leaves its environment awake, unless it has faulted on another page. */
  lemma PageInWakes(s: State, steps: seq<Step>, l: Loc, i: nat, frame: nat)
    requires Inv(s) && Accounts(s) && CanRun(s, steps) && AllElsewhere(steps, l) && TaskAt(s.work, i, l, PageIn, frame)
    requires ReadyRounds(steps) >= Wait(s.work, l) && forall j :: 0 <= j < |steps| ==> !FaultOf(steps[j], l.env)
    ensures l.env !in Run(s, steps).asleep
  {
    TaskFinishes(s, steps, l, i, PageIn, frame);
    WaitsForOne(s.work, i);
    RunWaitsFor(s, steps, l);
    RunAccounts(s, steps);
    Awake(Run(s, steps), l);
  }

  lemma {:induction false} WaitPositive(work: seq<Task>, l: Loc)
    requires work != [] && forall i :: 0 <= i < |work| ==> work[i].count <= NSECTORS
    ensures Wait(work, l) >= 1
  {
    if |work| > 1 {
      WaitPositive(work[1..], l);
    }
  }

  /** The head needs eight ready rounds and one more, and each task behind it nine more. */
  lemma {:induction false} WaitAt(work: seq<Task>, l: Loc, i: nat)
    requires HeadOnly(work) && Apart(work) && i < |work| && work[i].loc == l
    ensures Wait(work, l) == (NSECTORS + 1) * (i + 1) - work[0].count
  {
    if i > 0 {
      OnlyAtHead(work, i, l);
      forall a, b | 0 <= a < b < |work[1..]| ensures TasksApart(work[1..][a], work[1..][b]) {
        assert TasksApart(work[a + 1], work[b + 1]);
      }
      WaitAt(work[1..], l, i - 1);
    }
  }

  // ---------- the round trip ----------

  lemma {:induction false} SpecElsewhere(m: map<Loc, PageView>, steps: seq<Step>, l: Loc)
    requires AllElsewhere(steps, l) && l in m
    ensures l in SpecRun(m, steps) && SpecRun(m, steps)[l] == m[l]
    decreases |steps|
  {
    if steps != [] {
      assert Elsewhere(steps[0], l);
      SpecElsewhere(SpecStep(m, steps[0]), steps[1..], l);
    }
  }

  /** Eviction: after enough ready rounds the page is on disk, and a fault will fetch it. */
  lemma Evicted(s: State, l: Loc, stale: nat, steps: seq<Step>)
    requires Inv(s) && Enabled(s, Reclaim(l, stale))
    requires var s1 := Apply(s, Reclaim(l, stale));
             CanRun(s1, steps) && AllElsewhere(steps, l) && ReadyRounds(steps) >= Wait(s1.work, l)
    ensures var s2 := Run(Apply(s, Reclaim(l, stale)), steps);
            Inv(s2) && l in s2.ptes && FaultSwapsIn(s2.ptes[l].flags) && l in View(s2) && View(s2)[l] == View(s)[l]
  {
    var s1 := Apply(s, Reclaim(l, stale));
    StepRefines(s, Reclaim(l, stale));
    TaskFinishes(s1, steps, l, |s.work|, PageOut, s.ptes[l].num);
    RunRefines(s1, steps);
    SpecElsewhere(View(s1), steps, l);
    var s2 := Run(s1, steps);
    assert SwappedOk(Current(s2.work), s2.bits, l, s2.ptes[l]);
  }

  /** Eviction yields memory: unless some step takes the page's old frame again, it is free. */
  lemma EvictedFrees(s: State, l: Loc, stale: nat, steps: seq<Step>)
    requires Inv(s) && Accounts(s) && Enabled(s, Reclaim(l, stale))
    requires var s1 := Apply(s, Reclaim(l, stale));
             CanRun(s1, steps) && AllElsewhere(steps, l) && ReadyRounds(steps) >= Wait(s1.work, l)
    requires forall i :: 0 <= i < |steps| ==> !Takes(steps[i], s.ptes[l].num)
    ensures var s2, n := Run(Apply(s, Reclaim(l, stale)), steps), s.ptes[l].num;
            n < |s2.frames| && !s2.frames[n].alloc && s2.frames[n].ref == 0
  {
    var s1, n := Apply(s, Reclaim(l, stale)), s.ptes[l].num;
    StepRefines(s, Reclaim(l, stale));
    StepAccounts(s, Reclaim(l, stale));
    OnlyEntry(s1, l);
    assert UsedBy(s1, n, l) by {
      assert forall i :: 0 <= i < |s1.work| && s1.work[i].kind.PageIn? && s1.work[i].frame == n ==> Held(s1.work, n);
    }
    TaskFinishes(s1, steps, l, |s.work|, PageOut, n);
    RunUsedBy(s1, steps, n, l);
    RunAccounts(s1, steps);
    FrameFree(Run(s1, steps), n, l);
  }

  lemma RoundTripWakes(s: State, l: Loc, stale: nat, out: seq<Step>, f: nat, back: seq<Step>)
    requires Inv(s) && Accounts(s) && Enabled(s, Reclaim(l, stale)) && CanRun(Apply(s, Reclaim(l, stale)), out)
    requires var s2 := Run(Apply(s, Reclaim(l, stale)), out);
             && Enabled(s2, Fault(l, f))
             && var s3 := Apply(s2, Fault(l, f));
                CanRun(s3, back) && AllElsewhere(back, l) && ReadyRounds(back) >= Wait(s3.work, l)
    requires forall i :: 0 <= i < |back| ==> !FaultOf(back[i], l.env)
    ensures l.env !in Run(Apply(Run(Apply(s, Reclaim(l, stale)), out), Fault(l, f)), back).asleep
  {
    var s1 := Apply(s, Reclaim(l, stale));
    StepRefines(s, Reclaim(l, stale));
    StepAccounts(s, Reclaim(l, stale));
    RunRefines(s1, out);
    RunAccounts(s1, out);
    var s2 := Run(s1, out);
    StepRefines(s2, Fault(l, f));
    StepAccounts(s2, Fault(l, f));
    PageInWakes(Apply(s2, Fault(l, f)), back, l, |s2.work|, f);
  }

  /** Round trip: evict a page, let anything happen to other pages, fault on it, let anything happen
      to other pages again. With enough ready rounds the page is back on the new frame with the
      same flag bits and the same bytes. */
  lemma SwapRoundTrip(s: State, l: Loc, stale: nat, out: seq<Step>, f: nat, back: seq<Step>)
    requires Inv(s) && Enabled(s, Reclaim(l, stale))
    requires var s1 := Apply(s, Reclaim(l, stale));
             CanRun(s1, out) && AllElsewhere(out, l) && ReadyRounds(out) >= Wait(s1.work, l)
    requires var s2 := Run(Apply(s, Reclaim(l, stale)), out);
             && Enabled(s2, Fault(l, f))
             && var s3 := Apply(s2, Fault(l, f));
                CanRun(s3, back) && AllElsewhere(back, l) && ReadyRounds(back) >= Wait(s3.work, l)
    ensures var s4 := Run(Apply(Run(Apply(s, Reclaim(l, stale)), out), Fault(l, f)), back);
            && l in s4.ptes && s4.ptes[l] == Word(f, s.ptes[l].flags)
            && f < |s4.frames| && s4.frames[f].data == s.frames[s.ptes[l].num].data
            && (Accounts(s) && (forall i :: 0 <= i < |back| ==> !FaultOf(back[i], l.env)) ==> l.env !in s4.asleep)
  {
    Evicted(s, l, stale, out);
    var s2 := Run(Apply(s, Reclaim(l, stale)), out);
    var s3 := Apply(s2, Fault(l, f));
    StepRefines(s2, Fault(l, f));
    TaskFinishes(s3, back, l, |s2.work|, PageIn, f);
    RunRefines(s3, back);
    SpecElsewhere(View(s3), back, l);
    var s4 := Run(s3, back);
    if Accounts(s) && (forall i :: 0 <= i < |back| ==> !FaultOf(back[i], l.env)) {
      RoundTripWakes(s, l, stale, out, f, back);
    }
    assert View(s4)[l] == View(s)[l];
    assert PresentOk(s4.frames, s4.ptes[l]) && PresentOk(s.frames, s.ptes[l]);
  }

  /** The round that ends a page-in leaves the eight bits of its slot clear, and the round that ends
      a page-out leaves them set; either way the map has whole runs again. */
  lemma SlotSettled(s: State, ready: bool)
    requires Inv(s) && s.work != [] && s.work[0].count == NSECTORS
    ensures var t, s' := s.work[0], KtaskStep(s, ready);
            && IsStart(t.sector) && RunIs(s'.bits, t.sector, t.kind.PageOut?) && WholeRuns(s'.bits)
            && t.loc in s'.ptes && s'.ptes[t.loc].flags.p == t.kind.PageIn?
            && (t.kind.PageOut? ==> s'.ptes[t.loc].num == t.sector)
  {
    var t, s' := s.work[0], KtaskStep(s, ready);
    assert RunOk(Current(s.work), s.bits, t.sector) && PartRun(t, s.bits);
    assert TaskOk(t, s.frames, s.ptes, s.asleep);
    assert s.ptes[t.loc].flags.p ==> PresentOk(s.frames, s.ptes[t.loc]);
    HeadDone(s, ready);
    WholeAgain(s.bits, t);
  }
}
