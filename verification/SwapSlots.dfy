/** Conservation of disk slots: a used slot is named by a swapped entry or moved by the transfer under
    way, except those of entries that env_free dropped, which are lost for good. */
module SwapSlots {
  import opened Mmu
  import opened SwapMap
  import opened SwapProtocol
  import opened SwapSafety
  import opened SwapRuns

  ghost predicate Named(ptes: map<Loc, Word>, b: nat) {
    exists l :: l in ptes && !ptes[l].flags.p && ptes[l].num == b
  }

  /** The run at b is set although no entry names it and no transfer moves it. */
  ghost predicate Lost(s: State, b: nat) {
    && IsStart(b) && RunIs(s.bits, b, true) && !Named(s.ptes, b)
    && !(Current(s.work).Moving? && Current(s.work).task.sector == b)
  }

  /** The step drops the swapped entry that names the run at b. */
  predicate Drops(s: State, step: Step, b: nat) {
    step.Forget? && step.loc in s.ptes && s.ptes[step.loc].num == b
  }

  // ---------- one step ----------

  /** A change of entries that keeps who is swapped where. */
  lemma SameNames(ptes: map<Loc, Word>, ptes': map<Loc, Word>, b: nat)
    requires forall l :: l in ptes && !ptes[l].flags.p ==> l in ptes' && !ptes'[l].flags.p && ptes'[l].num == ptes[l].num
    requires forall l :: l in ptes' && !ptes'[l].flags.p ==> l in ptes && !ptes[l].flags.p && ptes'[l].num == ptes[l].num
    ensures Named(ptes', b) <==> Named(ptes, b)
  {
  }

  lemma OutMoveLost(s: State, ready: bool, b: nat)
    requires Inv(s) && Enabled(s, Ktask(ready)) && s.work != [] && s.work[0].kind.PageOut? && s.work[0].count < NSECTORS && IsStart(b)
    ensures Lost(KtaskStep(s, ready), b) <==> Lost(s, b)
  {
    var t := if s.work[0].count == 0 then s.work[0].(sector := Spot(s.bits)) else s.work[0];
    if ready {
      OutStarts(s, t);
      assert KtaskStep(s, ready).bits == Toggle(s.bits, t.sector + t.count);
      if b != t.sector {
        ToggleElsewhere(s.bits, t.sector, t.count, b, true);
      }
    }
  }

  lemma InMoveLost(s: State, ready: bool, b: nat)
    requires Inv(s) && s.work != [] && s.work[0].kind.PageIn? && s.work[0].count < NSECTORS && IsStart(b)
    ensures Lost(KtaskStep(s, ready), b) <==> Lost(s, b)
  {
    var t := s.work[0];
    assert TaskOk(t, s.frames, s.ptes, s.asleep);
    assert SwappedOk(Current(s.work), s.bits, t.loc, s.ptes[t.loc]);
    if ready {
      assert KtaskStep(s, ready).bits == Toggle(s.bits, t.sector + t.count);
      if b != t.sector {
        ToggleElsewhere(s.bits, t.sector, t.count, b, true);
      }
    }
  }

  lemma EndLost(s: State, ready: bool, b: nat)
    requires Inv(s) && s.work != [] && s.work[0].count == NSECTORS && IsStart(b)
    ensures Lost(KtaskStep(s, ready), b) <==> Lost(s, b)
  {
    var t, s' := s.work[0], KtaskStep(s, ready);
    assert TaskOk(t, s.frames, s.ptes, s.asleep) && RunOk(Current(s.work), s.bits, t.sector);
    assert s.ptes[t.loc].flags.p ==> PresentOk(s.frames, s.ptes[t.loc]);
    assert Current(s'.work).Idle?;
    if b == t.sector {
      assert t.kind.PageIn? ==> !s.bits[b];
      assert t.kind.PageOut? ==> t.loc in s'.ptes && !s'.ptes[t.loc].flags.p && s'.ptes[t.loc].num == b;
    } else {
      EndNames(s, ready, b);
    }
  }

  lemma EndNames(s: State, ready: bool, b: nat)
    requires Inv(s) && s.work != [] && s.work[0].count == NSECTORS && b != s.work[0].sector
    ensures Named(KtaskStep(s, ready).ptes, b) <==> Named(s.ptes, b)
  {
    var t, s' := s.work[0], KtaskStep(s, ready);
    assert TaskOk(t, s.frames, s.ptes, s.asleep);
    assert s.ptes[t.loc].flags.p ==> PresentOk(s.frames, s.ptes[t.loc]);
    assert forall l :: l in s.ptes && l != t.loc ==> l in s'.ptes && s'.ptes[l] == s.ptes[l];
  }

  lemma ForgetLost(s: State, l: Loc, b: nat)
    requires Inv(s) && Enabled(s, Forget(l)) && IsStart(b)
    ensures Lost(Apply(s, Forget(l)), b) <==> Lost(s, b) || s.ptes[l].num == b
  {
    var s' := Apply(s, Forget(l));
    assert SwappedOk(Current(s.work), s.bits, l, s.ptes[l]);
    forall m | m in s'.ptes && !s'.ptes[m].flags.p ensures s'.ptes[m].num != s.ptes[l].num {
      assert WordsApart(s.ptes[l], s.ptes[m]);
    }
    if s.ptes[l].num == b {
      assert !Named(s'.ptes, b);
    } else if Named(s.ptes, b) {
      var m :| m in s.ptes && !s.ptes[m].flags.p && s.ptes[m].num == b;
      assert m in s'.ptes && s'.ptes[m] == s.ptes[m];
    }
  }

  /** A slot is lost in a step exactly if the step drops the entry that names it; a lost slot never
      comes back. */
  lemma StepLost(s: State, step: Step, b: nat)
    requires Inv(s) && Enabled(s, step) && IsStart(b)
    ensures Lost(Apply(s, step), b) <==> Lost(s, b) || Drops(s, step, b)
  {
    match step
    case Ktask(ready) =>
      if s.work != [] {
        if s.work[0].count == NSECTORS {
          EndLost(s, ready, b);
        } else if s.work[0].kind.PageOut? {
          OutMoveLost(s, ready, b);
        } else {
          InMoveLost(s, ready, b);
        }
      }
    case Forget(l) => ForgetLost(s, l, b);
    case _ => SameNames(s.ptes, Apply(s, step).ptes, b);
  }

  // ---------- runs ----------

  /** Some step of the run drops the entry that names the run at b. */
  ghost predicate RunDrops(s: State, steps: seq<Step>, b: nat)
    requires Shape(s) && CanRun(s, steps)
    decreases |steps|
  {
    steps != [] && (Drops(s, steps[0], b) || RunDrops(Apply(s, steps[0]), steps[1..], b))
  }

  lemma {:induction false} RunLost(s: State, steps: seq<Step>, b: nat)
    requires Inv(s) && CanRun(s, steps) && IsStart(b)
    ensures Lost(Run(s, steps), b) <==> Lost(s, b) || RunDrops(s, steps, b)
    decreases |steps|
  {
    if steps != [] {
      StepRefines(s, steps[0]);
      StepLost(s, steps[0], b);
      RunLost(Apply(s, steps[0]), steps[1..], b);
    }
  }

  /** After any run from boot, whenever no transfer is part-way, the run at b is used exactly if a
      swapped entry names it or the run dropped one that did. */
  lemma SlotsConserved(s: State, steps: seq<Step>, b: nat)
    requires Boot(s) && CanRun(s, steps) && IsStart(b) && Current(Run(s, steps).work).Idle?
    ensures var s' := Run(s, steps);
            RunIs(s'.bits, b, true) <==> Named(s'.ptes, b) || RunDrops(s, steps, b)
  {
    BootInv(s);
    RunRefines(s, steps);
    RunLost(s, steps, b);
    var s' := Run(s, steps);
    assert !Lost(s, b) by {
      assert !s.bits[b];
    }
    forall l | l in s'.ptes && !s'.ptes[l].flags.p && s'.ptes[l].num == b ensures RunIs(s'.bits, b, true) {
      assert SwappedOk(Current(s'.work), s'.bits, l, s'.ptes[l]);
    }
  }
}
