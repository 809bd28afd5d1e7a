/** Who holds what in the swap protocol: frames are allocated exactly for present pages and queued
    page-ins, and environments sleep exactly for queued page-ins. */
module SwapAccounts {
  import opened Mmu
  import opened SwapMap
  import opened SwapProtocol
  import opened SwapSafety

  /** A present entry maps frame f. */
  ghost predicate Mapped(ptes: map<Loc, Word>, f: nat) {
    exists l :: l in ptes && ptes[l].flags.p && ptes[l].num == f
  }

  /** A queued page-in brings its page back to frame f. */
  ghost predicate Held(work: seq<Task>, f: nat) {
    exists i :: 0 <= i < |work| && work[i].kind.PageIn? && work[i].frame == f
  }

  /** A page of environment e is on its way back. */
  ghost predicate Pending(work: seq<Task>, e: nat) {
    exists i :: 0 <= i < |work| && work[i].kind.PageIn? && work[i].loc.env == e
  }

  ghost predicate FrameAccount(frames: seq<Frame>, work: seq<Task>, ptes: map<Loc, Word>, f: nat)
    requires f < |frames|
  {
    && (frames[f].alloc <==> Mapped(ptes, f) || Held(work, f))
    && frames[f].ref == if Mapped(ptes, f) then 1 else 0
  }

  ghost predicate FramesInv(frames: seq<Frame>, work: seq<Task>, ptes: map<Loc, Word>) {
    forall f: nat {:trigger FrameAccount(frames, work, ptes, f)} :: f < |frames| ==> FrameAccount(frames, work, ptes, f)
  }

  ghost predicate SleepInv(asleep: set<nat>, work: seq<Task>) {
    forall e: nat {:trigger Pending(work, e)} :: e in asleep <==> Pending(work, e)
  }

  predicate Alone(t: Task, u: Task) {
    t.kind.PageIn? && u.kind.PageIn? ==> t.loc.env != u.loc.env
  }

  /** An environment waits for one page at a time. */
  ghost predicate OneEach(work: seq<Task>) {
    forall i, j {:trigger Alone(work[i], work[j])} :: 0 <= i < j < |work| ==> Alone(work[i], work[j])
  }

  ghost predicate Accounts(s: State) {
    FramesInv(s.frames, s.work, s.ptes) && SleepInv(s.asleep, s.work) && OneEach(s.work)
  }

  // ---------- queues ----------

  /** The same tasklets but for their progress. */
  ghost predicate Alike(work: seq<Task>, work': seq<Task>) {
    |work'| == |work| && forall i :: 0 <= i < |work| ==> work'[i].kind == work[i].kind && work'[i].frame == work[i].frame && work'[i].loc == work[i].loc
  }

  lemma AlikeKeeps(work: seq<Task>, work': seq<Task>)
    requires Alike(work, work')
    ensures forall f: nat :: Held(work', f) <==> Held(work, f)
    ensures forall e: nat :: Pending(work', e) <==> Pending(work, e)
    ensures OneEach(work) ==> OneEach(work')
  {
    forall f: nat ensures Held(work', f) <==> Held(work, f) {
      if Held(work, f) {
        var i :| 0 <= i < |work| && work[i].kind.PageIn? && work[i].frame == f;
        assert work'[i].frame == f;
      }
      if Held(work', f) {
        var i :| 0 <= i < |work'| && work'[i].kind.PageIn? && work'[i].frame == f;
        assert work[i].frame == f;
      }
    }
    forall e: nat ensures Pending(work', e) <==> Pending(work, e) {
      if Pending(work, e) {
        var i :| 0 <= i < |work| && work[i].kind.PageIn? && work[i].loc.env == e;
        assert work'[i].loc.env == e;
      }
      if Pending(work', e) {
        var i :| 0 <= i < |work'| && work'[i].kind.PageIn? && work'[i].loc.env == e;
        assert work[i].loc.env == e;
      }
    }
    if OneEach(work) {
      forall i, j | 0 <= i < j < |work'| ensures Alone(work'[i], work'[j]) {
        assert Alone(work[i], work[j]);
      }
    }
  }

  lemma AppendQueue(work: seq<Task>, t: Task)
    ensures forall f: nat :: Held(work + [t], f) <==> Held(work, f) || (t.kind.PageIn? && t.frame == f)
    ensures forall e: nat :: Pending(work + [t], e) <==> Pending(work, e) || (t.kind.PageIn? && t.loc.env == e)
    ensures OneEach(work) && (t.kind.PageIn? ==> !Pending(work, t.loc.env)) ==> OneEach(work + [t])
  {
    var more := work + [t];
    assert more[|work|] == t;
    forall f: nat ensures Held(more, f) <==> Held(work, f) || (t.kind.PageIn? && t.frame == f) {
      if Held(work, f) {
        var i :| 0 <= i < |work| && work[i].kind.PageIn? && work[i].frame == f;
        assert more[i].frame == f;
      }
    }
    forall e: nat ensures Pending(more, e) <==> Pending(work, e) || (t.kind.PageIn? && t.loc.env == e) {
      if Pending(work, e) {
        var i :| 0 <= i < |work| && work[i].kind.PageIn? && work[i].loc.env == e;
        assert more[i].loc.env == e;
      }
    }
    if OneEach(work) && (t.kind.PageIn? ==> !Pending(work, t.loc.env)) {
      forall i, j | 0 <= i < j < |more| ensures Alone(more[i], more[j]) {
        assert j < |work| ==> Alone(work[i], work[j]);
      }
    }
  }

  lemma PopHead(work: seq<Task>)
    requires work != []
    ensures forall f: nat :: Held(work, f) <==> Held(work[1..], f) || (work[0].kind.PageIn? && work[0].frame == f)
    ensures forall e: nat :: Pending(work, e) <==> Pending(work[1..], e) || (work[0].kind.PageIn? && work[0].loc.env == e)
    ensures OneEach(work) ==> OneEach(work[1..]) && (work[0].kind.PageIn? ==> !Pending(work[1..], work[0].loc.env))
  {
    var rest := work[1..];
    forall f: nat ensures Held(work, f) <==> Held(rest, f) || (work[0].kind.PageIn? && work[0].frame == f) {
      if Held(rest, f) {
        var i :| 0 <= i < |rest| && rest[i].kind.PageIn? && rest[i].frame == f;
        assert work[i + 1].frame == f;
      }
      if Held(work, f) {
        var i :| 0 <= i < |work| && work[i].kind.PageIn? && work[i].frame == f;
        assert i > 0 ==> rest[i - 1].frame == f;
      }
    }
    forall e: nat ensures Pending(work, e) <==> Pending(rest, e) || (work[0].kind.PageIn? && work[0].loc.env == e) {
      if Pending(rest, e) {
        var i :| 0 <= i < |rest| && rest[i].kind.PageIn? && rest[i].loc.env == e;
        assert work[i + 1].loc.env == e;
      }
      if Pending(work, e) {
        var i :| 0 <= i < |work| && work[i].kind.PageIn? && work[i].loc.env == e;
        assert i > 0 ==> rest[i - 1].loc.env == e;
      }
    }
    if OneEach(work) {
      forall i, j | 0 <= i < j < |rest| ensures Alone(rest[i], rest[j]) {
        assert Alone(work[i + 1], work[j + 1]);
      }
      forall i | 0 <= i < |rest| ensures Alone(work[0], rest[i]) {
        assert Alone(work[0], work[i + 1]);
      }
    }
  }

  // ---------- entries ----------

  /** One entry changes: other frames are mapped as before. */
  lemma MapsElsewhere(ptes: map<Loc, Word>, ptes': map<Loc, Word>, l: Loc, g: nat)
    requires forall m :: m != l ==> (m in ptes' <==> m in ptes) && (m in ptes ==> ptes'[m] == ptes[m])
    requires l in ptes && ptes[l].flags.p ==> ptes[l].num != g
    requires l in ptes' && ptes'[l].flags.p ==> ptes'[l].num != g
    ensures Mapped(ptes', g) <==> Mapped(ptes, g)
  {
    if Mapped(ptes, g) {
      var m :| m in ptes && ptes[m].flags.p && ptes[m].num == g;
      assert m in ptes' && ptes'[m].num == g;
    }
    if Mapped(ptes', g) {
      var m :| m in ptes' && ptes'[m].flags.p && ptes'[m].num == g;
      assert m in ptes && ptes[m].num == g;
    }
  }

  /** Frames are never shared, and a frame on its way is not mapped. */
  lemma OnlyEntry(s: State, l: Loc)
    requires Inv(s) && l in s.ptes && s.ptes[l].flags.p
    ensures forall m :: m in s.ptes && m != l && s.ptes[m].flags.p ==> s.ptes[m].num != s.ptes[l].num
    ensures s.ptes[l].num < |s.frames| && Mapped(s.ptes, s.ptes[l].num) && !Held(s.work, s.ptes[l].num)
  {
    assert PresentOk(s.frames, s.ptes[l]);
    forall m | m in s.ptes && m != l && s.ptes[m].flags.p ensures s.ptes[m].num != s.ptes[l].num {
      assert WordsApart(s.ptes[m], s.ptes[l]);
    }
    forall i | 0 <= i < |s.work| && s.work[i].kind.PageIn? ensures s.work[i].frame != s.ptes[l].num {
      assert TaskOk(s.work[i], s.frames, s.ptes, s.asleep);
    }
  }

  // ---------- steps ----------

  /** Steps that move bytes: who holds what is not touched. */
  lemma SameAccounts(s: State, s': State)
    requires Accounts(s) && s'.ptes == s.ptes && s'.asleep == s.asleep && Alike(s.work, s'.work) && |s'.frames| == |s.frames|
    requires forall f :: 0 <= f < |s.frames| ==> s'.frames[f].alloc == s.frames[f].alloc && s'.frames[f].ref == s.frames[f].ref
    ensures Accounts(s')
  {
    AlikeKeeps(s.work, s'.work);
    forall f: nat | f < |s'.frames| ensures FrameAccount(s'.frames, s'.work, s'.ptes, f) {
      assert FrameAccount(s.frames, s.work, s.ptes, f);
    }
    forall e: nat ensures e in s'.asleep <==> Pending(s'.work, e) {
      assert Pending(s.work, e) <==> e in s.asleep;
    }
  }

  /** The end of page_out gives the frame back. */
  lemma OutAccounts(s: State, ready: bool)
    requires Inv(s) && Accounts(s) && s.work != [] && s.work[0].kind.PageOut? && s.work[0].count == NSECTORS
    ensures Accounts(KtaskStep(s, ready))
  {
    var t, s' := s.work[0], KtaskStep(s, ready);
    assert TaskOk(t, s.frames, s.ptes, s.asleep) && PresentOk(s.frames, s.ptes[t.loc]);
    OnlyEntry(s, t.loc);
    PopHead(s.work);
    forall f: nat | f < |s'.frames| ensures FrameAccount(s'.frames, s'.work, s'.ptes, f) {
      assert FrameAccount(s.frames, s.work, s.ptes, f);
      if f != t.frame {
        MapsElsewhere(s.ptes, s'.ptes, t.loc, f);
      } else {
        assert !Mapped(s'.ptes, f);
      }
    }
    forall e: nat ensures e in s'.asleep <==> Pending(s'.work, e) {
      assert Pending(s.work, e) <==> e in s.asleep;
    }
  }

  /** The end of page_in maps the frame and wakes the environment. */
  lemma InAccounts(s: State, ready: bool)
    requires Inv(s) && Accounts(s) && s.work != [] && s.work[0].kind.PageIn? && s.work[0].count == NSECTORS
    ensures Accounts(KtaskStep(s, ready))
  {
    var t, s' := s.work[0], KtaskStep(s, ready);
    assert TaskOk(t, s.frames, s.ptes, s.asleep) && SwappedOk(Current(s.work), s.bits, t.loc, s.ptes[t.loc]);
    InFlagsOf(s.ptes[t.loc].flags);
    PopHead(s.work);
    forall f: nat | f < |s'.frames| ensures FrameAccount(s'.frames, s'.work, s'.ptes, f) {
      assert FrameAccount(s.frames, s.work, s.ptes, f);
      if f != t.frame {
        MapsElsewhere(s.ptes, s'.ptes, t.loc, f);
      } else {
        assert t.loc in s'.ptes && s'.ptes[t.loc].num == f;
      }
    }
    forall e: nat ensures e in s'.asleep <==> Pending(s'.work, e) {
      assert Pending(s.work, e) <==> e in s.asleep;
    }
  }

  /** Up to the last sector a round moves bytes only. */
  lemma MoveAccounts(s: State, ready: bool)
    requires Inv(s) && Accounts(s) && (s.work == [] || s.work[0].count != NSECTORS)
    ensures Accounts(KtaskStep(s, ready))
  {
    if s.work != [] {
      assert TaskOk(s.work[0], s.frames, s.ptes, s.asleep);
      MoveAlike(s, ready);
    }
    SameAccounts(s, KtaskStep(s, ready));
  }

  lemma MoveAlike(s: State, ready: bool)
    requires Shape(s) && s.work != [] && s.work[0].frame < |s.frames| && s.work[0].count != NSECTORS
    ensures var s' := KtaskStep(s, ready);
            && s'.ptes == s.ptes && s'.asleep == s.asleep && Alike(s.work, s'.work) && |s'.frames| == |s.frames|
            && forall f :: 0 <= f < |s.frames| ==> s'.frames[f].alloc == s.frames[f].alloc && s'.frames[f].ref == s.frames[f].ref
  {
    if s.work[0].kind.PageOut? {
      OutAlike(s, ready);
    } else {
      InAlike(s, ready);
    }
  }

  lemma OutAlike(s: State, ready: bool)
    requires Shape(s) && s.work != [] && s.work[0].count != NSECTORS
    ensures var s' := PageOutStep(s, ready);
            s'.ptes == s.ptes && s'.asleep == s.asleep && Alike(s.work, s'.work) && s'.frames == s.frames
  {
  }

  lemma InAlike(s: State, ready: bool)
    requires Shape(s) && s.work != [] && s.work[0].count != NSECTORS
    ensures var s' := PageInStep(s, ready);
            && s'.ptes == s.ptes && s'.asleep == s.asleep && Alike(s.work, s'.work) && |s'.frames| == |s.frames|
            && forall f :: 0 <= f < |s.frames| ==> s'.frames[f].alloc == s.frames[f].alloc && s'.frames[f].ref == s.frames[f].ref
  {
  }

  lemma KtaskAccounts(s: State, ready: bool)
    requires Inv(s) && Accounts(s)
    ensures Accounts(KtaskStep(s, ready))
  {
    if s.work == [] || s.work[0].count != NSECTORS {
      MoveAccounts(s, ready);
    } else if s.work[0].kind.PageOut? {
      OutAccounts(s, ready);
    } else {
      InAccounts(s, ready);
    }
  }

  lemma ReclaimAccounts(s: State, l: Loc, stale: nat)
    requires Inv(s) && Accounts(s) && Enabled(s, Reclaim(l, stale))
    ensures Accounts(Apply(s, Reclaim(l, stale)))
  {
    var s' := Apply(s, Reclaim(l, stale));
    AppendQueue(s.work, s'.work[|s.work|]);
    forall f: nat | f < |s'.frames| ensures FrameAccount(s'.frames, s'.work, s'.ptes, f) {
      assert FrameAccount(s.frames, s.work, s.ptes, f);
    }
    forall e: nat ensures e in s'.asleep <==> Pending(s'.work, e) {
      assert Pending(s.work, e) <==> e in s.asleep;
    }
  }

  lemma FaultAccounts(s: State, l: Loc, f: nat)
    requires Inv(s) && Accounts(s) && Enabled(s, Fault(l, f))
    ensures Accounts(Apply(s, Fault(l, f)))
  {
    var s' := Apply(s, Fault(l, f));
    assert Pending(s.work, l.env) <==> l.env in s.asleep;
    AppendQueue(s.work, s'.work[|s.work|]);
    forall g: nat | g < |s'.frames| ensures FrameAccount(s'.frames, s'.work, s'.ptes, g) {
      assert FrameAccount(s.frames, s.work, s.ptes, g);
      MapsElsewhere(s.ptes, s'.ptes, l, g);
    }
    forall e: nat ensures e in s'.asleep <==> Pending(s'.work, e) {
      assert Pending(s.work, e) <==> e in s.asleep;
    }
  }

  lemma MapAccounts(s: State, l: Loc, f: nat, fl: Flags, d: seq<Sector>)
    requires Inv(s) && Accounts(s) && Enabled(s, MapPage(l, f, fl, d))
    ensures Accounts(Apply(s, MapPage(l, f, fl, d)))
  {
    var s' := Apply(s, MapPage(l, f, fl, d));
    forall g: nat | g < |s'.frames| ensures FrameAccount(s'.frames, s'.work, s'.ptes, g) {
      assert FrameAccount(s.frames, s.work, s.ptes, g);
      if g != f {
        MapsElsewhere(s.ptes, s'.ptes, l, g);
      } else {
        assert l in s'.ptes && s'.ptes[l].num == g;
      }
    }
  }

  lemma UnmapAccounts(s: State, l: Loc)
    requires Inv(s) && Accounts(s) && Enabled(s, Unmap(l))
    ensures Accounts(Apply(s, Unmap(l)))
  {
    var s', n := Apply(s, Unmap(l)), s.ptes[l].num;
    OnlyEntry(s, l);
    forall g: nat | g < |s'.frames| ensures FrameAccount(s'.frames, s'.work, s'.ptes, g) {
      assert FrameAccount(s.frames, s.work, s.ptes, g);
      if g != n {
        MapsElsewhere(s.ptes, s'.ptes, l, g);
      } else {
        assert !Mapped(s'.ptes, g);
      }
    }
  }

  lemma ForgetAccounts(s: State, l: Loc)
    requires Inv(s) && Accounts(s) && Enabled(s, Forget(l))
    ensures Accounts(Apply(s, Forget(l)))
  {
    var s' := Apply(s, Forget(l));
    forall g: nat | g < |s'.frames| ensures FrameAccount(s'.frames, s'.work, s'.ptes, g) {
      assert FrameAccount(s.frames, s.work, s.ptes, g);
      MapsElsewhere(s.ptes, s'.ptes, l, g);
    }
  }

  /** Every step keeps the accounts. */
  lemma StepAccounts(s: State, step: Step)
    requires Inv(s) && Accounts(s) && Enabled(s, step)
    ensures Accounts(Apply(s, step))
  {
    match step
    case Ktask(ready) => KtaskAccounts(s, ready);
    case Reclaim(l, stale) => ReclaimAccounts(s, l, stale);
    case Fault(l, f) => FaultAccounts(s, l, f);
    case Write(l, k, x) => SameAccounts(s, Apply(s, step));
    case MapPage(l, f, fl, d) => MapAccounts(s, l, f, fl, d);
    case Unmap(l) => UnmapAccounts(s, l);
    case Forget(l) => ForgetAccounts(s, l);
  }

  /** The round that ends an eviction leaves the page's frame free; the round that ends a page-in
      leaves it allocated with one reference, and its environment awake. */
  lemma HeadSettled(s: State, ready: bool)
    requires Inv(s) && Accounts(s) && s.work != [] && s.work[0].count == NSECTORS
    ensures var t, s' := s.work[0], KtaskStep(s, ready);
            && t.frame < |s'.frames|
            && (t.kind.PageOut? ==> !s'.frames[t.frame].alloc && s'.frames[t.frame].ref == 0)
            && (t.kind.PageIn? ==> s'.frames[t.frame].alloc && s'.frames[t.frame].ref == 1 && t.loc.env !in s'.asleep)
  {
    var t, s' := s.work[0], KtaskStep(s, ready);
    KtaskAccounts(s, ready);
    assert TaskOk(t, s.frames, s.ptes, s.asleep);
    PopHead(s.work);
    assert FrameAccount(s'.frames, s'.work, s'.ptes, t.frame);
    assert Pending(s'.work, t.loc.env) <==> t.loc.env in s'.asleep;
    if t.kind.PageOut? {
      OnlyEntry(s, t.loc);
      assert !Mapped(s'.ptes, t.frame);
    } else {
      assert SwappedOk(Current(s.work), s.bits, t.loc, s.ptes[t.loc]);
      InFlagsOf(s.ptes[t.loc].flags);
      assert t.loc in s'.ptes && s'.ptes[t.loc].num == t.frame;
    }
  }

  // ---------- along a run ----------

  /** The step puts a page or a page-in onto frame n. */
  predicate Takes(step: Step, n: nat) {
    (step.Fault? || step.MapPage?) && step.frame == n
  }

  /** The step is a swap fault of environment e. */
  predicate FaultOf(step: Step, e: nat) {
    step.Fault? && step.loc.env == e
  }

  /** Only page l uses frame n. */
  ghost predicate UsedBy(s: State, n: nat, l: Loc) {
    && (forall m :: m in s.ptes && s.ptes[m].flags.p && s.ptes[m].num == n ==> m == l)
    && (forall i :: 0 <= i < |s.work| && s.work[i].kind.PageIn? ==> s.work[i].frame != n)
  }

  /** The only page that environment l.env can be waiting for is l. */
  ghost predicate WaitsFor(work: seq<Task>, l: Loc) {
    forall i :: 0 <= i < |work| && work[i].kind.PageIn? && work[i].loc.env == l.env ==> work[i].loc == l
  }

  lemma KtaskTails(s: State, ready: bool)
    requires Inv(s)
    ensures var s' := KtaskStep(s, ready);
            if s.work != [] && s.work[0].count == NSECTORS then s'.work == s.work[1..] else Alike(s.work, s'.work) && s'.ptes == s.ptes
  {
    if s.work != [] {
      assert TaskOk(s.work[0], s.frames, s.ptes, s.asleep);
      if s.work[0].count == NSECTORS {
        HeadEnds(s);
      }
    }
  }

  lemma HeadEnds(s: State)
    requires Shape(s) && PresentInv(s.frames, s.ptes) && s.work != [] && TaskOk(s.work[0], s.frames, s.ptes, s.asleep)
    ensures (if s.work[0].kind.PageOut? then FinishOut(s) else FinishIn(s)).work == s.work[1..]
  {
    assert s.ptes[s.work[0].loc].flags.p ==> PresentOk(s.frames, s.ptes[s.work[0].loc]);
  }

  lemma UsedByRound(s: State, ready: bool, n: nat, l: Loc)
    requires Inv(s) && UsedBy(s, n, l)
    ensures UsedBy(KtaskStep(s, ready), n, l)
  {
    KtaskTails(s, ready);
    if s.work != [] && s.work[0].count == NSECTORS {
      var t, s' := s.work[0], KtaskStep(s, ready);
      assert TaskOk(t, s.frames, s.ptes, s.asleep);
      assert t.kind.PageIn? ==> t.frame != n;
      assert forall m :: m in s'.ptes && m != t.loc ==> m in s.ptes && s'.ptes[m] == s.ptes[m];
    }
  }

  lemma UsedByKeeps(s: State, step: Step, n: nat, l: Loc)
    requires Inv(s) && Enabled(s, step) && UsedBy(s, n, l) && !Takes(step, n)
    ensures UsedBy(Apply(s, step), n, l)
  {
    if step.Ktask? {
      UsedByRound(s, step.ready, n, l);
    }
  }

  lemma WaitsForKeeps(s: State, step: Step, l: Loc)
    requires Inv(s) && Enabled(s, step) && WaitsFor(s.work, l) && !FaultOf(step, l.env)
    ensures WaitsFor(Apply(s, step).work, l)
  {
    if step.Ktask? {
      KtaskTails(s, step.ready);
    }
  }

  /** A frame that only page l used is free once l is not present any more. */
  lemma FrameFree(s: State, n: nat, l: Loc)
    requires Accounts(s) && UsedBy(s, n, l) && n < |s.frames| && (l in s.ptes ==> !s.ptes[l].flags.p)
    ensures !s.frames[n].alloc && s.frames[n].ref == 0
  {
    assert FrameAccount(s.frames, s.work, s.ptes, n);
  }

  /** An environment that could only wait for page l is awake once nothing is queued for l. */
  lemma Awake(s: State, l: Loc)
    requires Accounts(s) && WaitsFor(s.work, l) && !Queued(s.work, l)
    ensures l.env !in s.asleep
  {
    assert Pending(s.work, l.env) <==> l.env in s.asleep;
  }

  lemma WaitsForOne(work: seq<Task>, i: nat)
    requires OneEach(work) && i < |work| && work[i].kind.PageIn?
    ensures WaitsFor(work, work[i].loc)
  {
    forall j | 0 <= j < |work| && work[j].kind.PageIn? && work[j].loc.env == work[i].loc.env ensures j == i {
      assert j < i ==> Alone(work[j], work[i]);
      assert i < j ==> Alone(work[i], work[j]);
    }
  }
}
