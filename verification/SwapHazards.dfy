/** What happens outside the limits of the swap protocol: stores that come too late, and pages freed
    while they are being written out. */
module SwapHazards {
  import opened Mmu
  import opened SwapMap
  import opened SwapProtocol
  import opened SwapRuns
  import opened SwapSafety

  /** The i-th step of a trace is a round of ktask with the disk ready. */
  ghost predicate RoundAt(tr: seq<State>, i: nat)
    requires i + 1 < |tr|
  {
    Shape(tr[i]) && tr[i + 1] == KtaskStep(tr[i], true)
  }

  /** Consecutive rounds of ktask. Rounds in between with the disk not ready change nothing once a
      transfer has begun. */
  ghost predicate Trace(tr: seq<State>) {
    tr != [] && forall i: nat {:trigger RoundAt(tr, i)} :: i + 1 < |tr| ==> RoundAt(tr, i)
  }

  lemma NotReadyIdles(s: State)
    requires Shape(s) && s.work != [] && 0 < s.work[0].count < NSECTORS
    ensures KtaskStep(s, false) == s
  {
    assert [s.work[0]] + s.work[1..] == s.work;
  }

  /** An eviction has sent some but perhaps not all of its sectors. */
  ghost predicate Evicting(s: State) {
    s.work != [] && s.work[0].kind.PageOut? && 0 < s.work[0].count <= NSECTORS
  }

  /** Rounds left until it is done. */
  function Left(t: Task): nat
    requires t.count <= NSECTORS
  {
    NSECTORS + 1 - t.count
  }

  /** A trace from a state in the middle of an eviction to the eviction's end. */
  ghost predicate ToEnd(tr: seq<State>) {
    Trace(tr) && Evicting(tr[0]) && |tr| == Left(tr[0].work[0]) + 1
  }

  // ---------- stores during an eviction ----------

  lemma TransferOne(s: State)
    requires Shape(s) && Evicting(s) && s.work[0].count < NSECTORS && s.work[0].sector + NSECTORS <= SWAP_BITS
    ensures var t, s' := s.work[0], KtaskStep(s, true);
            && s'.work == [t.(count := t.count + 1)] + s.work[1..] && s'.halted == s.halted && s'.ptes == s.ptes && s'.frames == s.frames
            && forall j :: 0 <= j < SWAP_BITS ==> s'.bits[j] == (s.bits[j] != (j == t.sector + t.count))
  {
  }

  /** n sectors of an eviction: n bits flip, and what it does not write stays. */
  lemma {:induction false} Transfer(tr: seq<State>, n: nat)
    requires Trace(tr) && Evicting(tr[0]) && n < |tr| && n + tr[0].work[0].count <= NSECTORS
    requires Shape(tr[0]) && tr[0].work[0].sector + NSECTORS <= SWAP_BITS
    ensures var t, s, s' := tr[0].work[0], tr[0], tr[n];
            && Shape(s') && s'.work == [t.(count := t.count + n)] + s.work[1..]
            && s'.halted == s.halted && s'.ptes == s.ptes && s'.frames == s.frames
            && forall j :: 0 <= j < SWAP_BITS ==> s'.bits[j] == (s.bits[j] != (t.sector + t.count <= j < t.sector + t.count + n))
    decreases n
  {
    if n == 0 {
      assert tr[0].work == [tr[0].work[0]] + tr[0].work[1..];
    } else {
      Transfer(tr, n - 1);
      assert RoundAt(tr, n - 1);
      TransferOne(tr[n - 1]);
    }
  }

  /** The transfer of an eviction keeps the invariant and what users see. */
  lemma {:induction false} EvictionMoves(tr: seq<State>, n: nat)
    requires Trace(tr) && Inv(tr[0]) && Evicting(tr[0]) && n < |tr| && n + tr[0].work[0].count <= NSECTORS
    ensures Inv(tr[n]) && View(tr[n]) == View(tr[0])
    decreases n
  {
    if n > 0 {
      EvictionMoves(tr, n - 1);
      Transfer(tr, n - 1);
      assert RoundAt(tr, n - 1);
      KtaskKeeps(tr[n - 1], true);
    }
  }

  /** The rest of an eviction, from a sound state. */
  lemma EvictionKeeps(tr: seq<State>)
    requires ToEnd(tr) && Inv(tr[0])
    ensures Inv(tr[|tr| - 1]) && View(tr[|tr| - 1]) == View(tr[0]) && WholeRuns(tr[|tr| - 1].bits)
  {
    var n := |tr| - 2;
    EvictionMoves(tr, n);
    Transfer(tr, n);
    assert RoundAt(tr, n);
    KtaskKeeps(tr[n], true);
    SlotSettled(tr[n], true);
  }

  /** A late store and the next sector do not touch each other. */
  lemma LateCommutes(s: State, l: Loc, k: nat, x: Sector)
    requires Inv(s) && Present(s, l) && TooLate(s, l, k) && s.work[0].count < NSECTORS
    ensures var s1 := KtaskStep(s, true);
            && Inv(s1) && View(s1) == View(s) && Present(s1, l) && TooLate(s1, l, k) && s1.work[0] == s.work[0].(count := s.work[0].count + 1)
            && KtaskStep(DoWrite(s, l, k, x), true) == DoWrite(s1, l, k, x)
  {
    KtaskKeeps(s, true);
    var t, w := s.work[0], DoWrite(s, l, k, x);
    assert TaskOk(t, s.frames, s.ptes, s.asleep);
    assert w.frames[t.frame].data[t.count] == s.frames[t.frame].data[t.count];
  }

  /** Along a trace from a late store there is a sound state with the same view, from which the trace
      differs by that store only. */
  lemma {:induction false} LateMoves(tr: seq<State>, s: State, l: Loc, k: nat, x: Sector, n: nat) returns (u: State)
    requires Inv(s) && Present(s, l) && TooLate(s, l, k) && n + s.work[0].count <= NSECTORS
    requires Trace(tr) && n < |tr| && tr[0] == DoWrite(s, l, k, x)
    ensures Inv(u) && View(u) == View(s) && Present(u, l) && TooLate(u, l, k) && u.work[0].count == s.work[0].count + n
    ensures tr[n] == DoWrite(u, l, k, x)
    decreases n
  {
    if n == 0 {
      return s;
    }
    var v := LateMoves(tr, s, l, k, x, n - 1);
    assert RoundAt(tr, n - 1);
    LateCommutes(v, l, k, x);
    return KtaskStep(v, true);
  }

  /** A store into a sector that the eviction has already sent is lost, however many sectors are
      still to go: when the eviction ends every user sees what they saw before the store. */
  lemma LateWriteIsLost(s: State, l: Loc, k: nat, x: Sector, tr: seq<State>)
    requires Inv(s) && Present(s, l) && TooLate(s, l, k)
    requires ToEnd(tr) && tr[0] == DoWrite(s, l, k, x)
    ensures View(tr[|tr| - 1]) == View(s)
  {
    var n := |tr| - 2;
    var u := LateMoves(tr, s, l, k, x, n);
    assert RoundAt(tr, n);
    LastRoundLoses(u, l, k, x, true);
  }

  /** During any eviction, a store by any user takes effect exactly if it does not come too late or
      stores what is there already. */
  lemma WriteTakesEffect(s: State, l: Loc, k: nat, x: Sector, tr: seq<State>)
    requires Inv(s) && Evicting(s) && Present(s, l) && k < NSECTORS
    requires ToEnd(tr) && tr[0] == DoWrite(s, l, k, x)
    ensures View(tr[|tr| - 1]) == SpecStep(View(s), Write(l, k, x))
            <==> !TooLate(s, l, k) || s.frames[s.ptes[l].num].data[k] == x
  {
    var before := s.frames[s.ptes[l].num].data[k];
    assert l in View(s) && View(s)[l].data[k] == before;
    if !TooLate(s, l, k) || before == x {
      WriteExact(s, l, k, x);
      WriteView(s, l, k, x);
      EvictionKeeps(tr);
    } else {
      LateWriteIsLost(s, l, k, x, tr);
      assert SpecStep(View(s), Write(l, k, x))[l].data[k] == x;
    }
  }

  // ---------- a page freed while it is being written ----------

  /** page_remove or env_free takes the page away: the entry goes and the frame is free. */
  ghost function DropPage(s: State, l: Loc): State
    requires Present(s, l)
  {
    var n := s.ptes[l].num;
    s.(ptes := s.ptes - {l}, frames := s.frames[n := s.frames[n].(alloc := false, ref := 0)])
  }

  lemma DroppedEnd(s: State)
    requires Shape(s) && Evicting(s) && s.work[0].count == NSECTORS && s.work[0].sector < SWAP_BITS
    requires !s.frames[s.work[0].frame].alloc && s.frames[s.work[0].frame].ref == 0
    ensures KtaskStep(s, true) == s.(work := s.work[1..], bits := s.bits[s.work[0].sector := !s.bits[s.work[0].sector]])
  {
  }

  /** The rest of an eviction whose page is gone: the remaining bits are set, then only the first one
      is cleared. */
  lemma DroppedEviction(tr: seq<State>)
    requires ToEnd(tr) && Shape(tr[0]) && tr[0].work[0].sector + NSECTORS <= SWAP_BITS && PartRun(tr[0].work[0], tr[0].bits)
    requires !tr[0].frames[tr[0].work[0].frame].alloc && tr[0].frames[tr[0].work[0].frame].ref == 0
    ensures var t, s, s' := tr[0].work[0], tr[0], tr[|tr| - 1];
            && s'.work == s.work[1..] && s'.halted == s.halted && s'.ptes == s.ptes && s'.frames == s.frames && |s'.bits| == SWAP_BITS
            && (forall j :: 0 <= j < SWAP_BITS ==> s'.bits[j] == if t.sector <= j < t.sector + NSECTORS then j != t.sector else s.bits[j])
  {
    var n := |tr| - 2;
    Transfer(tr, n);
    assert RoundAt(tr, n);
    DroppedEnd(tr[n]);
  }

  /** At any point of the transfer the page may or may not be taken away. When the eviction ends, the
      map has whole runs again exactly if the frame was still referenced before the last round. */
  lemma FreedDuringWrite(s: State, dropped: bool, tr: seq<State>)
    requires Inv(s) && Evicting(s) && ToEnd(tr)
    requires Present(s, s.work[0].loc)
    requires tr[0] == if dropped then DropPage(s, s.work[0].loc) else s
    ensures var t, last := s.work[0], |tr| - 1;
            && t.frame < |tr[last - 1].frames|
            && (WholeRuns(tr[last].bits) <==> tr[last - 1].frames[t.frame].ref != 0)
  {
    var t := s.work[0];
    assert TaskOk(t, s.frames, s.ptes, s.asleep) && PresentOk(s.frames, s.ptes[t.loc]);
    assert RunOk(Current(s.work), s.bits, t.sector);
    Transfer(tr, |tr| - 2);
    if dropped {
      DroppedEviction(tr);
      HalfGivenBack(tr[|tr| - 1].bits, t.sector);
    } else {
      EvictionKeeps(tr);
    }
  }

  /** In a sound state the page being evicted is present, so that the lemma above always applies. */
  lemma EvictedIsPresent(s: State)
    requires Inv(s) && Evicting(s)
    ensures Present(s, s.work[0].loc) && s.ptes[s.work[0].loc].num == s.work[0].frame
  {
    assert TaskOk(s.work[0], s.frames, s.ptes, s.asleep) && PresentOk(s.frames, s.ptes[s.work[0].loc]);
  }

  lemma HalfGivenBack(bits: seq<bool>, b: nat)
    requires IsStart(b) && |bits| == SWAP_BITS && !bits[b] && bits[b + 1]
    ensures !WholeRuns(bits)
  {
    assert !RunIs(bits, b, true) && !RunIs(bits, b, false);
  }

  /** The first i rounds of an eviction that takes the slot at b. */
  lemma {:induction false} Starts(tr: seq<State>, i: nat, b: nat)
    requires Trace(tr) && Shape(tr[0]) && tr[0].work != [] && tr[0].work[0].kind.PageOut? && tr[0].work[0].count == 0
    requires Spot(tr[0].bits) == b && IsStart(b) && 1 <= i <= NSECTORS && i < |tr|
    ensures var t, s, s' := tr[0].work[0], tr[0], tr[i];
            && Shape(s') && s'.work == [t.(sector := b, count := i)] + s.work[1..]
            && s'.halted == s.halted && s'.ptes == s.ptes && s'.frames == s.frames
            && forall j :: 0 <= j < SWAP_BITS ==> s'.bits[j] == (s.bits[j] != (b <= j < b + i))
    decreases i
  {
    assert RoundAt(tr, i - 1);
    if i > 1 {
      Starts(tr, i - 1, b);
      TransferOne(tr[i - 1]);
    }
  }

  /** An eviction that has begun, and its page taken away after i sectors: the search for a hole then
      returns the very slot that was half given back, although only its first sector is free. */
  lemma FreedMisleads(begun: seq<State>, i: nat, tr: seq<State>)
    requires Trace(begun) && Inv(begun[0]) && begun[0].work != [] && begun[0].work[0].kind.PageOut? && begun[0].work[0].count == 0
    requires |UsedSlots(begun[0].bits)| < SLOTS && 1 <= i <= NSECTORS && i < |begun|
    requires Present(begun[i], begun[0].work[0].loc) && ToEnd(tr) && tr[0] == DropPage(begun[i], begun[0].work[0].loc)
    ensures var b, s' := Spot(begun[0].bits), tr[|tr| - 1];
            && !s'.halted && IsStart(b) && |s'.bits| == SWAP_BITS && Spot(s'.bits) == b
            && !s'.bits[b] && (forall j :: b < j < b + NSECTORS ==> s'.bits[j])
  {
    var s := begun[0];
    var t, b := s.work[0], Spot(s.bits);
    IdleMapIsWhole(s);
    SpotIsFreeRun(s.bits);
    assert TaskOk(t, s.frames, s.ptes, s.asleep) && PresentOk(s.frames, s.ptes[t.loc]);
    Starts(begun, i, b);
    DroppedEviction(tr);
    SpotIs(tr[|tr| - 1].bits, b);
  }

  lemma SpotIs(bits: seq<bool>, b: nat)
    requires 0 < b < |bits| && !bits[b] && forall j :: 1 <= j < b ==> bits[j]
    ensures Spot(bits) == b
  {
    var r := Spot(bits);
    assert r > 0 && !bits[r] && r <= b;
  }

  /** The next eviction takes such a slot and ends up with only the first of its eight sectors marked:
      the seven others, which now hold its page, look free. */
  lemma NextEviction(tr: seq<State>)
    requires Trace(tr) && |tr| > NSECTORS && Shape(tr[0]) && tr[0].work != [] && tr[0].work[0].kind.PageOut? && tr[0].work[0].count == 0
    requires var b, s := Spot(tr[0].bits), tr[0]; IsStart(b) && !s.bits[b] && forall j :: b < j < b + NSECTORS ==> s.bits[j]
    ensures var b, s' := Spot(tr[0].bits), tr[NSECTORS];
            |s'.bits| == SWAP_BITS && s'.bits[b] && (forall j :: b < j < b + NSECTORS ==> !s'.bits[j]) && Spot(s'.bits) == b + 1
  {
    var b := Spot(tr[0].bits);
    Starts(tr, NSECTORS, b);
    SpotIs(tr[NSECTORS].bits, b + 1);
  }
}
