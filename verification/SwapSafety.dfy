/** What every step of the swap protocol keeps, and the refinement to plain private pages. */
module SwapSafety {
  import opened Mmu
  import opened SwapMap
  import opened SwapProtocol

  /** Only the head of the queue can have moved a sector. */
  ghost predicate HeadOnly(work: seq<Task>) {
    |work| <= NTASKS && forall i :: 1 <= i < |work| ==> work[i].count == 0
  }

  /** No two tasks share a page or a frame, and no environment waits for two pages. */
  ghost predicate Apart(work: seq<Task>) {
    forall i, j {:trigger TasksApart(work[i], work[j])} ::
      0 <= i < j < |work| ==> TasksApart(work[i], work[j])
  }

  predicate TasksApart(t: Task, u: Task) {
    && t.loc != u.loc && t.frame != u.frame
    && (t.kind.PageIn? && u.kind.PageIn? ==> t.loc.env != u.loc.env)
  }

  /** The bits of the run at b: part-way for the current transfer, whole otherwise. */
  ghost predicate RunOk(c: Transfer, bits: seq<bool>, b: nat) {
    if c.Moving? && c.task.sector == b then PartRun(c.task, bits)
    else RunIs(bits, b, true) || RunIs(bits, b, false)
  }

  predicate PartRun(t: Task, bits: seq<bool>) {
    && t.sector + NSECTORS <= |bits|
    && forall j :: t.sector <= j < t.sector + NSECTORS ==>
         bits[j] == (if t.kind.PageOut? then j < t.sector + t.count else t.sector + t.count <= j)
  }

  ghost predicate MapInv(c: Transfer, bits: seq<bool>) {
    && (c.Moving? ==> IsStart(c.task.sector))
    && (forall b: nat :: IsStart(b) ==> RunOk(c, bits, b))
  }

  /** A present entry owns its frame. */
  predicate PresentOk(frames: seq<Frame>, w: Word) {
    && w.num < |frames| && frames[w.num].alloc && frames[w.num].ref == 1
    && !w.flags.g && w.flags.avail == 0
  }

  ghost predicate PresentInv(frames: seq<Frame>, ptes: map<Loc, Word>) {
    forall l {:trigger PresentOk(frames, ptes[l])} ::
      l in ptes && ptes[l].flags.p ==> PresentOk(frames, ptes[l])
  }

  /** A swapped entry names a run that is set, or the one its own page-in is giving back. */
  predicate SwappedOk(c: Transfer, bits: seq<bool>, l: Loc, w: Word) {
    && w.flags.g && IsStart(w.num) && (w.flags.avail == 0 || w.flags.avail == 7)
    && (if c.Moving? && c.task.sector == w.num then c.task.kind.PageIn? && c.task.loc == l
        else RunIs(bits, w.num, true))
  }

  ghost predicate SwappedInv(c: Transfer, bits: seq<bool>, ptes: map<Loc, Word>) {
    forall l {:trigger SwappedOk(c, bits, l, ptes[l])} ::
      l in ptes && !ptes[l].flags.p ==> SwappedOk(c, bits, l, ptes[l])
  }

  /** A marked entry has its page-in queued. */
  ghost predicate MarkedInv(work: seq<Task>, ptes: map<Loc, Word>) {
    forall l :: l in ptes && !ptes[l].flags.p && ptes[l].flags.avail == 7 ==> Queued(work, l)
  }

  /** Neither frames nor disk slots are shared. */
  ghost predicate Unshared(ptes: map<Loc, Word>) {
    forall l, m {:trigger WordsApart(ptes[l], ptes[m])} ::
      l in ptes && m in ptes && l != m ==> WordsApart(ptes[l], ptes[m])
  }

  predicate WordsApart(v: Word, w: Word) {
    v.flags.p == w.flags.p ==> v.num != w.num
  }

  predicate TaskOk(t: Task, frames: seq<Frame>, ptes: map<Loc, Word>, asleep: set<nat>) {
    && t.loc in ptes && t.frame < |frames|
    && (if t.kind.PageOut? then ptes[t.loc].flags.p && ptes[t.loc].num == t.frame
        else
          && !ptes[t.loc].flags.p && ptes[t.loc].flags.avail == 7 && ptes[t.loc].num == t.sector
          && frames[t.frame].alloc && frames[t.frame].ref == 0 && t.loc.env in asleep)
  }

  ghost predicate TaskInv(work: seq<Task>, frames: seq<Frame>, ptes: map<Loc, Word>, asleep: set<nat>) {
    forall i {:trigger TaskOk(work[i], frames, ptes, asleep)} ::
      0 <= i < |work| ==> TaskOk(work[i], frames, ptes, asleep)
  }

  /** The sectors moved so far agree between the frame and the disk, and the controller is at the
      sector that comes next: no other transfer has begun in between. */
  ghost predicate TransferInv(c: Transfer, lba: nat, disk: seq<Sector>, frames: seq<Frame>) {
    c.Moving? ==>
      var t := c.task;
      && lba == t.sector + t.count && t.sector + NSECTORS <= |disk|
      && t.frame < |frames| && t.count <= NSECTORS == |frames[t.frame].data|
      && forall j :: 0 <= j < t.count ==> disk[t.sector + j] == frames[t.frame].data[j]
  }

  ghost predicate Inv(s: State) {
    && Shape(s) && !s.halted
    && HeadOnly(s.work) && Apart(s.work)
    && MapInv(Current(s.work), s.bits)
    && PresentInv(s.frames, s.ptes) && SwappedInv(Current(s.work), s.bits, s.ptes)
    && MarkedInv(s.work, s.ptes) && Unshared(s.ptes)
    && TaskInv(s.work, s.frames, s.ptes, s.asleep)
    && TransferInv(Current(s.work), s.lba, s.disk, s.frames)
  }

  /** Whole runs whenever no transfer is part-way. */
  lemma IdleMapIsWhole(s: State)
    requires Inv(s) && Current(s.work).Idle?
    ensures WholeRuns(s.bits)
  {
    forall b: nat | IsStart(b)
      ensures RunIs(s.bits, b, true) || RunIs(s.bits, b, false)
    {
      assert RunOk(Idle, s.bits, b);
    }
  }

  // ---------- ktask: before the disk is ready ----------

  lemma NotReadyKeeps(s: State)
    requires Inv(s) && s.work != [] && s.work[0].count < NSECTORS
    ensures Inv(KtaskStep(s, false)) && View(KtaskStep(s, false)) == View(s)
  {
    var s' := KtaskStep(s, false);
    assert s.work == [s.work[0]] + s.work[1..];
    if s.work[0].count > 0 || s.work[0].kind.PageIn? {
      assert s'.work == s.work;
    } else {
      HeadEdit(s.work, s'.work, s.ptes);
      TasksKeep(s.work, s'.work, s.frames, s.frames, s.ptes, s.asleep);
    }
    SameView(s, s');
  }

  /** Changing the head's sector before it moves, or its count, keeps the queue's shape. */
  lemma HeadEdit(work: seq<Task>, work': seq<Task>, ptes: map<Loc, Word>)
    requires work != [] && |work'| == |work| && work'[1..] == work[1..]
    requires work'[0] == work[0].(sector := work'[0].sector, count := work'[0].count)
    requires HeadOnly(work) && Apart(work) && MarkedInv(work, ptes)
    ensures HeadOnly(work') && Apart(work') && MarkedInv(work', ptes)
    ensures forall i :: 1 <= i < |work| ==> work'[i] == work[i]
    ensures forall l :: Queued(work, l) == Queued(work', l)
  {
    assert forall i :: 1 <= i < |work| ==> work'[i] == work'[1..][i - 1] == work[i];
    forall l ensures Queued(work, l) == Queued(work', l) {
      assert forall i :: 0 <= i < |work| ==> work[i].loc == work'[i].loc;
    }
    forall i, j | 0 <= i < j < |work'| ensures TasksApart(work'[i], work'[j]) {
      assert TasksApart(work[i], work[j]);
    }
  }

  /** The tasks stay sound when the head advances and frames change at most in their data. */
  lemma TasksKeep(work: seq<Task>, work': seq<Task>, frames: seq<Frame>, frames': seq<Frame>,
                  ptes: map<Loc, Word>, asleep: set<nat>)
    requires work != [] && |work'| == |work| && work'[1..] == work[1..]
    requires work'[0] == work[0].(sector := work'[0].sector, count := work'[0].count)
    requires work[0].kind.PageIn? ==> work'[0].sector == work[0].sector
    requires |frames'| == |frames|
    requires forall f :: 0 <= f < |frames| ==> frames'[f].alloc == frames[f].alloc && frames'[f].ref == frames[f].ref
    requires TaskInv(work, frames, ptes, asleep)
    ensures TaskInv(work', frames', ptes, asleep)
  {
    forall i | 0 <= i < |work'| ensures TaskOk(work'[i], frames', ptes, asleep) {
      assert TaskOk(work[i], frames, ptes, asleep);
      assert i > 0 ==> work'[i] == work'[1..][i - 1] == work[1..][i - 1] == work[i];
    }
  }

  lemma SameView(s: State, s': State)
    requires s'.ptes == s.ptes && s'.frames == s.frames && s'.disk == s.disk
    ensures View(s') == View(s)
  {
  }

  // ---------- ktask: one sector moves ----------

  /** Where the run of task t stands before it moves its next sector. */
  ghost predicate AtTask(c: Transfer, bits: seq<bool>, t: Task) {
    && IsStart(t.sector) && t.count < NSECTORS
    && (if t.count == 0 then c.Idle? && RunIs(bits, t.sector, t.kind.PageIn?) else c == Moving(t))
  }

  lemma ToggleElsewhere(bits: seq<bool>, a: nat, k: nat, b: nat, v: bool)
    requires IsStart(a) && IsStart(b) && a != b && k < NSECTORS
    ensures RunIs(Toggle(bits, a + k), b, v) == RunIs(bits, b, v)
  {
    RunsApart(a, b);
    var bits' := Toggle(bits, a + k);
    assert forall j :: 0 <= j < |bits| && j != a + k ==> bits'[j] == bits[j];
  }

  lemma MoveMap(c: Transfer, bits: seq<bool>, t: Task)
    requires |bits| == SWAP_BITS && MapInv(c, bits) && AtTask(c, bits, t)
    ensures MapInv(Moving(t.(count := t.count + 1)), Toggle(bits, t.sector + t.count))
  {
    var c' := Moving(t.(count := t.count + 1));
    var bits' := Toggle(bits, t.sector + t.count);
    forall b: nat | IsStart(b) ensures RunOk(c', bits', b) {
      assert RunOk(c, bits, b);
      if b == t.sector {
        assert t.count == 0 || PartRun(t, bits);
      } else {
        ToggleElsewhere(bits, t.sector, t.count, b, true);
        ToggleElsewhere(bits, t.sector, t.count, b, false);
      }
    }
  }

  /** No other swapped entry names the run being moved. */
  lemma MoveSwapped(c: Transfer, bits: seq<bool>, ptes: map<Loc, Word>, t: Task)
    requires |bits| == SWAP_BITS && AtTask(c, bits, t) && SwappedInv(c, bits, ptes)
    requires t.kind.PageIn? ==> t.loc in ptes && !ptes[t.loc].flags.p && ptes[t.loc].num == t.sector
    requires Unshared(ptes)
    ensures SwappedInv(Moving(t.(count := t.count + 1)), Toggle(bits, t.sector + t.count), ptes)
    ensures t.kind.PageOut? ==>
              forall l :: l in ptes && !ptes[l].flags.p ==> ptes[l].num != t.sector && IsStart(ptes[l].num)
  {
    var c' := Moving(t.(count := t.count + 1));
    var bits' := Toggle(bits, t.sector + t.count);
    forall l | l in ptes && !ptes[l].flags.p
      ensures SwappedOk(c', bits', l, ptes[l]) && (t.kind.PageOut? ==> ptes[l].num != t.sector)
    {
      assert SwappedOk(c, bits, l, ptes[l]);
      if ptes[l].num != t.sector {
        ToggleElsewhere(bits, t.sector, t.count, ptes[l].num, true);
      } else if t.kind.PageIn? {
        assert l == t.loc || WordsApart(ptes[l], ptes[t.loc]);
      }
    }
  }

  lemma OutMoves(s: State)
    requires Inv(s) && s.work != [] && s.work[0].kind.PageOut? && s.work[0].count < NSECTORS
    requires Enabled(s, Ktask(true))
    ensures Inv(KtaskStep(s, true)) && View(KtaskStep(s, true)) == View(s)
  {
    var s' := KtaskStep(s, true);
    var t0 := s.work[0];
    var t := if t0.count == 0 then t0.(sector := Spot(s.bits)) else t0;
    OutStarts(s, t);
    assert TaskOk(t0, s.frames, s.ptes, s.asleep);
    MoveMap(Current(s.work), s.bits, t);
    MoveSwapped(Current(s.work), s.bits, s.ptes, t);
    assert Current(s'.work) == Moving(t.(count := t.count + 1));
    HeadEdit(s.work, s'.work, s.ptes);
    TasksKeep(s.work, s'.work, s.frames, s.frames, s.ptes, s.asleep);
    OutMovesView(s, t);
  }

  lemma OutMovesView(s: State, t: Task)
    requires Inv(s) && s.work != [] && s.work[0].kind.PageOut? && s.work[0].count < NSECTORS && Enabled(s, Ktask(true))
    requires t == if s.work[0].count == 0 then s.work[0].(sector := Spot(s.bits)) else s.work[0]
    ensures View(KtaskStep(s, true)) == View(s)
  {
    OutStarts(s, t);
    MoveSwapped(Current(s.work), s.bits, s.ptes, t);
    DiskOutside(s, KtaskStep(s, true), t, s.frames[t.frame].data[t.count]);
  }

  /** The slot of an eviction: picked free in its first round, its own afterwards. */
  lemma OutStarts(s: State, t: Task)
    requires Inv(s) && s.work != [] && s.work[0].kind.PageOut? && s.work[0].count < NSECTORS && Enabled(s, Ktask(true))
    requires t == if s.work[0].count == 0 then s.work[0].(sector := Spot(s.bits)) else s.work[0]
    ensures AtTask(Current(s.work), s.bits, t)
  {
    if s.work[0].count == 0 {
      IdleMapIsWhole(s);
      SpotIsFreeRun(s.bits);
    }
  }

  /** Writing one sector of a run that no entry names changes nobody's page. */
  lemma DiskOutside(s: State, s': State, t: Task, x: Sector)
    requires IsStart(t.sector) && t.count < NSECTORS && |s.disk| == SWAP_BITS
    requires s'.ptes == s.ptes && s'.frames == s.frames
    requires s'.disk == s.disk[t.sector + t.count := x]
    requires forall l :: l in s.ptes && !s.ptes[l].flags.p ==> s.ptes[l].num != t.sector && IsStart(s.ptes[l].num)
    ensures View(s') == View(s)
  {
    forall l | l in s.ptes ensures ViewOf(s', s.ptes[l]) == ViewOf(s, s.ptes[l]) {
      var w := s.ptes[l];
      if !w.flags.p {
        RunsApart(w.num, t.sector);
        assert s'.disk[w.num..w.num + NSECTORS] == s.disk[w.num..w.num + NSECTORS];
      }
    }
  }

  lemma InMoves(s: State)
    requires Inv(s) && s.work != [] && s.work[0].kind.PageIn? && s.work[0].count < NSECTORS
    ensures Inv(KtaskStep(s, true)) && View(KtaskStep(s, true)) == View(s)
  {
    var s' := KtaskStep(s, true);
    var t := s.work[0];
    var c := Current(s.work);
    assert TaskOk(t, s.frames, s.ptes, s.asleep);
    assert SwappedOk(c, s.bits, t.loc, s.ptes[t.loc]);
    assert AtTask(c, s.bits, t);
    MoveMap(c, s.bits, t);
    MoveSwapped(c, s.bits, s.ptes, t);
    assert Current(s'.work) == Moving(t.(count := t.count + 1));
    HeadEdit(s.work, s'.work, s.ptes);
    var f, lba := s.frames[t.frame], if t.count == 0 then t.sector else s.lba;
    FrameDataEdit(s, s', t, f.data[t.count := GetSector(s.disk, lba)]);
    TasksKeep(s.work, s'.work, s.frames, s'.frames, s.ptes, s.asleep);
  }

  /** Filling a frame that no entry maps changes nobody's page. */
  lemma FrameDataEdit(s: State, s': State, t: Task, d: seq<Sector>)
    requires t.frame < |s.frames| && s.frames[t.frame].ref == 0
    requires PresentInv(s.frames, s.ptes)
    requires s'.frames == s.frames[t.frame := s.frames[t.frame].(data := d)]
    requires s'.ptes == s.ptes && s'.disk == s.disk && s'.asleep == s.asleep
    ensures PresentInv(s'.frames, s'.ptes) && View(s') == View(s)
  {
    forall l | l in s.ptes
      ensures ViewOf(s', s.ptes[l]) == ViewOf(s, s.ptes[l])
      ensures s.ptes[l].flags.p ==> PresentOk(s'.frames, s.ptes[l])
    {
      if s.ptes[l].flags.p {
        assert PresentOk(s.frames, s.ptes[l]);
      }
    }
  }

  // ---------- ktask: a task finishes ----------

  /** Dequeuing the head leaves a well-formed, idle queue. */
  lemma PopQueue(work: seq<Task>, ptes: map<Loc, Word>)
    requires work != [] && HeadOnly(work) && Apart(work) && MarkedInv(work, ptes)
    ensures HeadOnly(work[1..]) && Apart(work[1..]) && Current(work[1..]) == Idle
    ensures MarkedInv(work[1..], ptes - {work[0].loc})
    ensures forall i :: 0 <= i < |work[1..]| ==> TasksApart(work[0], work[1..][i])
  {
    forall l | l in ptes && !ptes[l].flags.p && ptes[l].flags.avail == 7 && l != work[0].loc
      ensures Queued(work[1..], l)
    {
      var i :| 0 <= i < |work| && work[i].loc == l;
      assert work[1..][i - 1].loc == l;
    }
    forall i, j | 0 <= i < j < |work[1..]| ensures TasksApart(work[1..][i], work[1..][j]) {
      assert TasksApart(work[i + 1], work[j + 1]);
    }
  }

  /** The remaining tasks are about other pages and frames than the head. */
  lemma PopTasks(work: seq<Task>, frames: seq<Frame>, ptes: map<Loc, Word>, asleep: set<nat>,
                 f: Frame, w: Word, asleep': set<nat>)
    requires work != [] && Apart(work) && TaskInv(work, frames, ptes, asleep) && work[0].frame < |frames|
    requires asleep' == asleep || (work[0].kind.PageIn? && asleep' == asleep - {work[0].loc.env})
    ensures TaskInv(work[1..], frames[work[0].frame := f], ptes[work[0].loc := w], asleep')
  {
    var frames', ptes' := frames[work[0].frame := f], ptes[work[0].loc := w];
    forall i | 0 <= i < |work[1..]| ensures TaskOk(work[1..][i], frames', ptes', asleep') {
      assert work[1..][i] == work[i + 1];
      assert TaskOk(work[i + 1], frames, ptes, asleep) && TasksApart(work[0], work[i + 1]);
    }
  }

  /** A transfer with all eight sectors moved leaves a whole run. */
  lemma WholeAgain(bits: seq<bool>, t: Task)
    requires MapInv(Moving(t), bits) && t.count == NSECTORS
    ensures MapInv(Idle, bits) && RunIs(bits, t.sector, t.kind.PageOut?)
  {
    assert RunOk(Moving(t), bits, t.sector);
    forall b: nat | IsStart(b) ensures RunOk(Idle, bits, b) {
      assert RunOk(Moving(t), bits, b);
    }
  }

  /** Entries other than l keep their run when the transfer for run b at l ends. */
  lemma OthersSwapped(c: Transfer, bits: seq<bool>, ptes: map<Loc, Word>)
    requires c.Moving? && SwappedInv(c, bits, ptes) && MapInv(Idle, bits)
    ensures forall m :: m in ptes && !ptes[m].flags.p && m != c.task.loc ==>
              ptes[m].num != c.task.sector && SwappedOk(Idle, bits, m, ptes[m])
  {
    forall m | m in ptes && !ptes[m].flags.p && m != c.task.loc
      ensures ptes[m].num != c.task.sector && SwappedOk(Idle, bits, m, ptes[m])
    {
      assert SwappedOk(c, bits, m, ptes[m]);
    }
  }

  /** Pointing one entry elsewhere and changing one frame that no other entry maps. */
  lemma SetEntry(frames: seq<Frame>, ptes: map<Loc, Word>, l: Loc, w: Word, n: nat, f: Frame)
    requires n < |frames| && PresentInv(frames, ptes) && Unshared(ptes)
    requires forall m :: m in ptes && m != l ==> WordsApart(w, ptes[m]) && WordsApart(ptes[m], w)
    requires forall m :: m in ptes && m != l && ptes[m].flags.p ==> ptes[m].num != n
    requires w.flags.p ==> PresentOk(frames[n := f], w)
    ensures PresentInv(frames[n := f], ptes[l := w]) && Unshared(ptes[l := w])
  {
    var ptes' := ptes[l := w];
    forall m | m in ptes' && ptes'[m].flags.p ensures PresentOk(frames[n := f], ptes'[m]) {
      assert m != l ==> PresentOk(frames, ptes[m]);
    }
    forall k, m | k in ptes' && m in ptes' && k != m ensures WordsApart(ptes'[k], ptes'[m]) {
      if k != l && m != l {
        assert WordsApart(ptes[k], ptes[m]);
      }
    }
  }

  /** A view changes at most where the entry changes, if the data of mapped frames stays. */
  lemma EntryView(s: State, s': State, l: Loc, w: Word)
    requires s'.disk == s.disk && |s'.frames| == |s.frames|
    requires forall f :: 0 <= f < |s.frames| ==> s'.frames[f].data == s.frames[f].data
    requires l in s.ptes && s'.ptes == s.ptes[l := w] && ViewOf(s, w) == ViewOf(s, s.ptes[l])
    ensures View(s') == View(s)
  {
    assert forall v :: ViewOf(s', v) == ViewOf(s, v);
  }

  lemma OutEnds(s: State)
    requires Inv(s) && s.work != [] && s.work[0].kind.PageOut? && s.work[0].count == NSECTORS
    ensures Inv(FinishOut(s)) && View(FinishOut(s)) == View(s)
  {
    var s', t := FinishOut(s), s.work[0];
    assert TaskOk(t, s.frames, s.ptes, s.asleep) && PresentOk(s.frames, s.ptes[t.loc]);
    PopQueue(s.work, s.ptes);
    WholeAgain(s.bits, t);
    OthersSwapped(Current(s.work), s.bits, s.ptes);
    assert s'.ptes[t.loc] == Word(t.sector, OutFlags(s.ptes[t.loc].flags));
    assert OutFlags(s.ptes[t.loc].flags) == s.ptes[t.loc].flags.(p := false, g := true);
    assert SwappedInv(Idle, s.bits, s'.ptes);
    assert MarkedInv(s'.work, s'.ptes);
    assert PresentInv(s'.frames, s'.ptes) && Unshared(s'.ptes) by {
      forall m | m in s.ptes && m != t.loc ensures s.ptes[m].flags.p ==> s.ptes[m].num != t.frame {
        assert WordsApart(s.ptes[m], s.ptes[t.loc]);
      }
      SetEntry(s.frames, s.ptes, t.loc, s'.ptes[t.loc], t.frame, s'.frames[t.frame]);
    }
    PopTasks(s.work, s.frames, s.ptes, s.asleep, s'.frames[t.frame], s'.ptes[t.loc], s'.asleep);
    assert s.disk[t.sector..t.sector + NSECTORS] == s.frames[t.frame].data;
    assert View(s') == View(s) by { EntryView(s, s', t.loc, s'.ptes[t.loc]); }
  }

  lemma InFlagsOf(f: Flags)
    requires !f.p && f.g && f.avail == 7
    ensures InFlags(f) == f.(p := true, g := false, avail := 0)
  {
  }

  /** The entries after a page-in: the one brought back is present on its frame. */
  lemma InEntries(s: State)
    requires Inv(s) && s.work != [] && s.work[0].kind.PageIn? && s.work[0].count == NSECTORS
    requires s.work[0].loc in s.ptes && !s.ptes[s.work[0].loc].flags.p && s.ptes[s.work[0].loc].flags.g && s.ptes[s.work[0].loc].flags.avail == 7
    requires s.work[0].frame < |s.frames| && s.frames[s.work[0].frame].alloc && s.frames[s.work[0].frame].ref == 0
    requires SwappedInv(Idle, s.bits, s.ptes - {s.work[0].loc}) && MarkedInv(s.work[1..], s.ptes - {s.work[0].loc})
    ensures var s' := FinishIn(s);
            SwappedInv(Idle, s.bits, s'.ptes) && MarkedInv(s'.work, s'.ptes) && PresentInv(s'.frames, s'.ptes) && Unshared(s'.ptes)
  {
    var s', t := FinishIn(s), s.work[0];
    var w := s'.ptes[t.loc];
    assert w.num == t.frame && s'.ptes == s.ptes[t.loc := w];
    InFlagsOf(s.ptes[t.loc].flags);
    forall m | m in s'.ptes && !s'.ptes[m].flags.p ensures SwappedOk(Idle, s.bits, m, s'.ptes[m]) {
      assert SwappedOk(Idle, s.bits, m, (s.ptes - {t.loc})[m]);
    }
    forall m | m in s.ptes && m != t.loc ensures s.ptes[m].flags.p ==> s.ptes[m].num != t.frame {
      assert s.ptes[m].flags.p ==> PresentOk(s.frames, s.ptes[m]);
    }
    SetEntry(s.frames, s.ptes, t.loc, s'.ptes[t.loc], t.frame, s'.frames[t.frame]);
  }

  lemma InEnds(s: State)
    requires Inv(s) && s.work != [] && s.work[0].kind.PageIn? && s.work[0].count == NSECTORS
    ensures Inv(FinishIn(s)) && View(FinishIn(s)) == View(s)
    ensures RunIs(FinishIn(s).bits, s.work[0].sector, false)
  {
    var s', t := FinishIn(s), s.work[0];
    assert TaskOk(t, s.frames, s.ptes, s.asleep) && SwappedOk(Current(s.work), s.bits, t.loc, s.ptes[t.loc]);
    PopQueue(s.work, s.ptes);
    WholeAgain(s.bits, t);
    OthersSwapped(Current(s.work), s.bits, s.ptes);
    InEntries(s);
    PopTasks(s.work, s.frames, s.ptes, s.asleep, s'.frames[t.frame], s'.ptes[t.loc], s'.asleep);
    InEndsView(s);
  }

  lemma InEndsView(s: State)
    requires Inv(s) && s.work != [] && s.work[0].kind.PageIn? && s.work[0].count == NSECTORS
    ensures View(FinishIn(s)) == View(s)
  {
    var s', t := FinishIn(s), s.work[0];
    assert TaskOk(t, s.frames, s.ptes, s.asleep) && SwappedOk(Current(s.work), s.bits, t.loc, s.ptes[t.loc]);
    var old_, w := s.ptes[t.loc], s'.ptes[t.loc];
    InFlagsOf(old_.flags);
    assert old_.num == t.sector && w == Word(t.frame, InFlags(old_.flags));
    assert s.disk[t.sector..t.sector + NSECTORS] == s.frames[t.frame].data;
    assert ViewOf(s, w) == PageView(w.flags, s.frames[t.frame].data);
    EntryView(s, s', t.loc, s'.ptes[t.loc]);
  }

  /** Every step of ktask keeps the invariant and every user's page, whatever the disk says. */
  lemma KtaskKeeps(s: State, ready: bool)
    requires Inv(s) && Enabled(s, Ktask(ready))
    ensures Inv(KtaskStep(s, ready)) && View(KtaskStep(s, ready)) == View(s)
  {
    if s.work != [] {
      if s.work[0].count == NSECTORS {
        if s.work[0].kind.PageOut? { OutEnds(s); } else { InEnds(s); }
      } else if !ready {
        NotReadyKeeps(s);
      } else if s.work[0].kind.PageOut? {
        OutMoves(s);
      } else {
        InMoves(s);
      }
    }
  }

  // ---------- the other steps ----------

  /** Appending a task behind the queue. */
  lemma PushQueue(work: seq<Task>, t: Task, ptes: map<Loc, Word>)
    requires HeadOnly(work) && Apart(work) && MarkedInv(work, ptes)
    requires |work| < NTASKS && t.count == 0
    requires forall i :: 0 <= i < |work| ==> TasksApart(work[i], t)
    ensures HeadOnly(work + [t]) && Apart(work + [t]) && Current(work + [t]) == Current(work)
    ensures forall l :: Queued(work, l) || l == t.loc ==> Queued(work + [t], l)
  {
    var work' := work + [t];
    forall i, j | 0 <= i < j < |work'| ensures TasksApart(work'[i], work'[j]) {
      assert j < |work| ==> TasksApart(work[i], work[j]);
    }
    forall l | Queued(work, l) || l == t.loc ensures Queued(work', l) {
      if Queued(work, l) {
        var i :| 0 <= i < |work| && work[i].loc == l;
        assert work'[i].loc == l;
      } else {
        assert work'[|work|].loc == l;
      }
    }
  }

  lemma ReclaimKeeps(s: State, l: Loc, stale: nat)
    requires Inv(s) && Enabled(s, Reclaim(l, stale))
    ensures Inv(Apply(s, Reclaim(l, stale))) && View(Apply(s, Reclaim(l, stale))) == View(s)
  {
    var s' := Apply(s, Reclaim(l, stale));
    var t := Task(PageOut, 0, stale, s.ptes[l].num, l);
    assert PresentOk(s.frames, s.ptes[l]);
    forall i | 0 <= i < |s.work| ensures TasksApart(s.work[i], t) {
      var u := s.work[i];
      assert TaskOk(u, s.frames, s.ptes, s.asleep);
      assert u.loc != l && WordsApart(s.ptes[u.loc], s.ptes[l]);
    }
    PushQueue(s.work, t, s.ptes);
    PushTasks(s.work, t, s.frames, s.ptes, s.asleep);
    SameView(s, s');
  }

  lemma PushTasks(work: seq<Task>, t: Task, frames: seq<Frame>, ptes: map<Loc, Word>, asleep: set<nat>)
    requires TaskInv(work, frames, ptes, asleep) && TaskOk(t, frames, ptes, asleep)
    ensures TaskInv(work + [t], frames, ptes, asleep)
  {
    forall i | 0 <= i < |work + [t]| ensures TaskOk((work + [t])[i], frames, ptes, asleep) {
      assert i < |work| ==> TaskOk(work[i], frames, ptes, asleep);
    }
  }

  /** Marking an idle swapped entry and taking a free frame keeps the entries sound. */
  lemma FaultEntries(s: State, l: Loc, f: nat)
    requires Inv(s) && Enabled(s, Fault(l, f))
    ensures var w := s.ptes[l].(flags := MarkFlags(s.ptes[l].flags));
            var fr := s.frames[f].(alloc := true, ref := 0);
            && PresentInv(s.frames[f := fr], s.ptes[l := w]) && Unshared(s.ptes[l := w])
            && SwappedInv(Current(s.work), s.bits, s.ptes[l := w])
            && TaskInv(s.work, s.frames[f := fr], s.ptes[l := w], s.asleep + {l.env})
  {
    var w := s.ptes[l].(flags := MarkFlags(s.ptes[l].flags));
    var fr := s.frames[f].(alloc := true, ref := 0);
    forall m | m in s.ptes && m != l
      ensures WordsApart(w, s.ptes[m]) && WordsApart(s.ptes[m], w)
      ensures s.ptes[m].flags.p ==> s.ptes[m].num != f
    {
      assert WordsApart(s.ptes[m], s.ptes[l]) && WordsApart(s.ptes[l], s.ptes[m]);
      assert s.ptes[m].flags.p ==> PresentOk(s.frames, s.ptes[m]);
    }
    SetEntry(s.frames, s.ptes, l, w, f, fr);
    forall m | m in s.ptes && !s.ptes[m].flags.p
      ensures SwappedOk(Current(s.work), s.bits, m, s.ptes[l := w][m])
    {
      assert SwappedOk(Current(s.work), s.bits, m, s.ptes[m]);
    }
    forall i | 0 <= i < |s.work|
      ensures TaskOk(s.work[i], s.frames[f := fr], s.ptes[l := w], s.asleep + {l.env})
    {
      assert TaskOk(s.work[i], s.frames, s.ptes, s.asleep);
      assert s.ptes[s.work[i].loc].flags.p ==> PresentOk(s.frames, s.ptes[s.work[i].loc]);
    }
  }

  lemma FaultKeeps(s: State, l: Loc, f: nat)
    requires Inv(s) && Enabled(s, Fault(l, f))
    ensures Inv(Apply(s, Fault(l, f))) && View(Apply(s, Fault(l, f))) == View(s)
  {
    var s' := Apply(s, Fault(l, f));
    var t := Task(PageIn, 0, s.ptes[l].num, f, l);
    forall i | 0 <= i < |s.work| ensures TasksApart(s.work[i], t) {
      var u := s.work[i];
      assert TaskOk(u, s.frames, s.ptes, s.asleep);
      assert s.ptes[u.loc].flags.p ==> PresentOk(s.frames, s.ptes[u.loc]);
    }
    PushQueue(s.work, t, s.ptes);
    FaultEntries(s, l, f);
    PushTasks(s.work, t, s'.frames, s'.ptes, s'.asleep);
    assert SwappedOk(Current(s.work), s.bits, l, s.ptes[l]);
    assert TransferInv(Current(s'.work), s'.lba, s'.disk, s'.frames);
    EntryView(s, s', l, s'.ptes[l]);
  }

  /** A store into a present page is a store into the abstract page. */
  lemma WriteView(s: State, l: Loc, k: nat, x: Sector)
    requires Inv(s) && Present(s, l) && k < NSECTORS
    ensures View(DoWrite(s, l, k, x)) == SpecStep(View(s), Write(l, k, x))
  {
    var s', n := DoWrite(s, l, k, x), s.ptes[l].num;
    forall m | m in s.ptes && m != l ensures ViewOf(s', s.ptes[m]) == ViewOf(s, s.ptes[m]) {
      assert WordsApart(s.ptes[m], s.ptes[l]);
    }
    assert View(s)[l].data == s.frames[n].data;
  }

  /** Which stores keep frame and disk in step during a transfer. */
  lemma WriteTransfer(s: State, l: Loc, k: nat, x: Sector)
    requires Inv(s) && Present(s, l) && k < NSECTORS
    ensures TransferInv(Current(s.work), s.lba, s.disk, DoWrite(s, l, k, x).frames)
            <==> !TooLate(s, l, k) || s.frames[s.ptes[l].num].data[k] == x
  {
    var s', c := DoWrite(s, l, k, x), Current(s.work);
    assert PresentOk(s.frames, s.ptes[l]);
    if c.Moving? {
      var t := c.task;
      assert TaskOk(s.work[0], s.frames, s.ptes, s.asleep);
      if s.ptes[l].num != t.frame {
        assert s'.frames[t.frame] == s.frames[t.frame];
        assert t.loc != l || t.kind.PageIn?;
      } else {
        assert t.kind.PageOut? && (t.loc == l || WordsApart(s.ptes[t.loc], s.ptes[l]));
        var d, d' := s.frames[t.frame].data, s'.frames[t.frame].data;
        assert d' == d[k := x];
        if k < t.count {
          assert s.disk[t.sector + k] == d[k] && d'[k] == x;
          assert d[k] == x ==> d' == d;
        } else {
          assert forall j :: 0 <= j < t.count ==> d'[j] == d[j];
        }
      }
    }
  }

  /** A store keeps the invariant exactly when it does not change a sector that eviction has
      already sent to disk. */
  lemma WriteExact(s: State, l: Loc, k: nat, x: Sector)
    requires Inv(s) && Present(s, l) && k < NSECTORS
    ensures Inv(DoWrite(s, l, k, x)) <==> !TooLate(s, l, k) || s.frames[s.ptes[l].num].data[k] == x
  {
    var s' := DoWrite(s, l, k, x);
    assert PresentOk(s.frames, s.ptes[l]);
    assert PresentInv(s'.frames, s.ptes) by {
      forall m | m in s.ptes && s.ptes[m].flags.p ensures PresentOk(s'.frames, s.ptes[m]) {
        assert PresentOk(s.frames, s.ptes[m]);
      }
    }
    if s.work != [] {
      TasksKeep(s.work, s.work, s.frames, s'.frames, s.ptes, s.asleep);
    }
    WriteTransfer(s, l, k, x);
  }

  /** A store after the last sector was sent is lost when the eviction ends. */
  lemma LastRoundLoses(s: State, l: Loc, k: nat, x: Sector, ready: bool)
    requires Inv(s) && Present(s, l) && TooLate(s, l, k) && s.work[0].count == NSECTORS
    ensures View(KtaskStep(DoWrite(s, l, k, x), ready)) == View(s)
  {
    var s1, t := DoWrite(s, l, k, x), s.work[0];
    var s2 := KtaskStep(s1, ready);
    assert TaskOk(t, s.frames, s.ptes, s.asleep) && PresentOk(s.frames, s.ptes[l]);
    OutEnds(s);
    var s' := FinishOut(s);
    assert s2.ptes == s'.ptes && s2.disk == s'.disk;
    forall m | m in s'.ptes ensures ViewOf(s2, s'.ptes[m]) == ViewOf(s', s'.ptes[m]) {
      assert m == l || WordsApart(s.ptes[m], s.ptes[l]);
    }
  }

  /** Removing an entry that no task is about. */
  lemma DropEntry(s: State, l: Loc, s': State)
    requires Inv(s) && l in s.ptes && !Queued(s.work, l)
    requires s' == s.(ptes := s.ptes - {l}, frames := s'.frames) && |s'.frames| == |s.frames|
    requires forall f :: 0 <= f < |s.frames| ==>
               s'.frames[f] == s.frames[f] || (s.ptes[l].flags.p && f == s.ptes[l].num && s'.frames[f].data == s.frames[f].data)
    ensures Inv(s') && View(s') == View(s) - {l}
  {
    forall m | m in s'.ptes && s'.ptes[m].flags.p ensures PresentOk(s'.frames, s'.ptes[m]) {
      assert PresentOk(s.frames, s.ptes[m]) && WordsApart(s.ptes[m], s.ptes[l]);
    }
    forall m, n | m in s'.ptes && n in s'.ptes && m != n ensures WordsApart(s'.ptes[m], s'.ptes[n]) {
      assert WordsApart(s.ptes[m], s.ptes[n]);
    }
    forall m | m in s'.ptes && !s'.ptes[m].flags.p ensures SwappedOk(Current(s.work), s.bits, m, s'.ptes[m]) {
      assert SwappedOk(Current(s.work), s.bits, m, s.ptes[m]);
    }
    forall i | 0 <= i < |s.work| ensures TaskOk(s.work[i], s'.frames, s'.ptes, s'.asleep) {
      var t := s.work[i];
      assert t.loc != l && TaskOk(t, s.frames, s.ptes, s.asleep) && WordsApart(s.ptes[t.loc], s.ptes[l]);
      assert s.ptes[l].flags.p ==> PresentOk(s.frames, s.ptes[l]);
    }
    assert TransferInv(Current(s.work), s.lba, s.disk, s'.frames);
    DropView(s, l, s');
  }

  lemma DropView(s: State, l: Loc, s': State)
    requires l in s.ptes && s' == s.(ptes := s.ptes - {l}, frames := s'.frames) && |s'.frames| == |s.frames|
    requires forall f :: 0 <= f < |s.frames| ==> s'.frames[f].data == s.frames[f].data
    ensures View(s') == View(s) - {l}
  {
    assert forall w :: ViewOf(s', w) == ViewOf(s, w);
  }

  lemma MapKeeps(s: State, l: Loc, f: nat, fl: Flags, d: seq<Sector>)
    requires Inv(s) && Enabled(s, MapPage(l, f, fl, d))
    ensures Inv(Apply(s, MapPage(l, f, fl, d)))
    ensures View(Apply(s, MapPage(l, f, fl, d))) == SpecStep(View(s), MapPage(l, f, fl, d))
  {
    var s', w := Apply(s, MapPage(l, f, fl, d)), Word(f, fl);
    forall m | m in s.ptes
      ensures m != l && WordsApart(w, s.ptes[m]) && WordsApart(s.ptes[m], w)
      ensures s.ptes[m].flags.p ==> s.ptes[m].num != f
      ensures s.ptes[m].flags.p || SwappedOk(Current(s.work), s.bits, m, s'.ptes[m])
    {
      assert s.ptes[m].flags.p ==> PresentOk(s.frames, s.ptes[m]);
      assert !s.ptes[m].flags.p ==> SwappedOk(Current(s.work), s.bits, m, s.ptes[m]);
    }
    SetEntry(s.frames, s.ptes, l, w, f, s'.frames[f]);
    MapTasks(s, l, f, fl, d);
    MapView(s, l, f, fl, d);
  }

  lemma MapTasks(s: State, l: Loc, f: nat, fl: Flags, d: seq<Sector>)
    requires Inv(s) && Enabled(s, MapPage(l, f, fl, d))
    ensures var s' := Apply(s, MapPage(l, f, fl, d));
            TaskInv(s.work, s'.frames, s'.ptes, s'.asleep) && TransferInv(Current(s.work), s.lba, s.disk, s'.frames)
  {
    var s' := Apply(s, MapPage(l, f, fl, d));
    forall i | 0 <= i < |s.work| ensures TaskOk(s.work[i], s'.frames, s'.ptes, s'.asleep) && s.work[i].frame != f {
      var t := s.work[i];
      assert TaskOk(t, s.frames, s.ptes, s.asleep);
      assert s.ptes[t.loc].flags.p ==> PresentOk(s.frames, s.ptes[t.loc]);
    }
  }

  lemma MapView(s: State, l: Loc, f: nat, fl: Flags, d: seq<Sector>)
    requires Shape(s) && Enabled(s, MapPage(l, f, fl, d)) && forall m :: m in s.ptes && s.ptes[m].flags.p ==> s.ptes[m].num != f
    ensures View(Apply(s, MapPage(l, f, fl, d))) == SpecStep(View(s), MapPage(l, f, fl, d))
  {
    var s' := Apply(s, MapPage(l, f, fl, d));
    assert forall m :: m in s.ptes ==> ViewOf(s', s.ptes[m]) == ViewOf(s, s.ptes[m]);
    assert ViewOf(s', Word(f, fl)) == PageView(fl, d);
  }

  /** One step of anything: the invariant is kept, and what users see changes exactly as if
      swapping did not exist. */
  lemma StepRefines(s: State, step: Step)
    requires Inv(s) && Enabled(s, step)
    ensures Inv(Apply(s, step)) && View(Apply(s, step)) == SpecStep(View(s), step)
  {
    match step
    case Ktask(ready) => KtaskKeeps(s, ready);
    case Reclaim(l, stale) => ReclaimKeeps(s, l, stale);
    case Fault(l, f) => FaultKeeps(s, l, f);
    case Write(l, k, x) => WriteExact(s, l, k, x); WriteView(s, l, k, x);
    case MapPage(l, f, fl, d) => MapKeeps(s, l, f, fl, d);
    case Unmap(l) => DropEntry(s, l, Apply(s, step));
    case Forget(l) => DropEntry(s, l, Apply(s, step));
  }
}
