/** The swap protocol as a state machine: ktask advances the first tasklet of a FIFO queue by one
    step, page_out and page_in move one sector per step, the fault handler queues page-ins.

    SwapKernel.dfy refines the ktask step to the linked tasklets and the byte bitmap of the kernel.
    Pages of this machine have one mapping each; readiness of the disk is a parameter. */
module SwapProtocol {
  import opened Mmu
  import opened SwapMap

  const NTASKS: nat := 100

  /** The bytes of one disk sector; a page is eight of them. */
  type Sector = seq<bv8>

  /** A user virtual page: environment slot and page number. */
  datatype Loc = Loc(env: nat, va: nat)
  datatype Kind = PageOut | PageIn
  datatype Task = Task(kind: Kind, count: nat, sector: nat, frame: nat, loc: Loc)
  datatype Frame = Frame(alloc: bool, ref: nat, data: seq<Sector>)

  /** `lba` is the sector the disk controller transfers next; `halted` is a kernel panic or a
      dereference of a missing page-table entry. */
  datatype State = State(work: seq<Task>, bits: seq<bool>, disk: seq<Sector>, lba: nat,
                         frames: seq<Frame>, ptes: map<Loc, Word>, asleep: set<nat>, halted: bool)

  ghost predicate Shape(s: State) {
    && |s.bits| == SWAP_BITS && |s.disk| == SWAP_BITS && |s.frames| <= NUM_LIMIT
    && (forall f :: 0 <= f < |s.frames| ==> |s.frames[f].data| == NSECTORS)
    && (forall i :: 0 <= i < |s.work| ==> s.work[i].frame < |s.frames| && s.work[i].count <= NSECTORS)
  }

  // ---------- flag bits of an entry through eviction and return ----------

  /** page_out's edit of the flags of an unshared page. */
  function OutFlags(f: Flags): Flags {
    var f := f.(p := !f.p, g := true);
    if f.avail != 0 then FlipAvail(f) else f
  }

  /** swap_in's mark on an entry whose page is on its way back. */
  function MarkFlags(f: Flags): Flags {
    f.(avail := 7)
  }

  /** page_in's edit of the flags. */
  function InFlags(f: Flags): Flags {
    var f := f.(g := !f.g);
    var f := if f.avail != 0 then FlipAvail(f) else f;
    f.(p := true)
  }

  /** The fault handler's test for a swapped page that nobody is bringing back yet. */
  predicate FaultSwapsIn(f: Flags) {
    !f.p && f.g && f.avail == 0
  }

  /** The three flag edits restore a present entry exactly when it uses neither PTE_G nor
      PTE_AVAIL; a partly set PTE_AVAIL field makes the fault handler wait for ever. */
  lemma FlagsRoundTrip(f: Flags)
    requires f.p
    ensures FaultSwapsIn(OutFlags(f)) <==> f.avail == 0 || f.avail == 7
    ensures InFlags(MarkFlags(OutFlags(f))) == f <==> !f.g && f.avail == 0
  {
    if !f.g && f.avail == 0 {
      assert OutFlags(f) == f.(p := false, g := true);
    } else {
      assert !InFlags(MarkFlags(OutFlags(f))).g && InFlags(MarkFlags(OutFlags(f))).avail == 0;
    }
  }

  /** page_in's test for other entries to update, on the copy it edits along with the entry. */
  predicate UpdatesSharers(f: Flags) {
    var f := f.(g := !f.g);
    (if f.avail != 0 then FlipAvail(f) else f).avail != 0
  }

  /** The test fails for every entry that swap_in has marked, shared or not: it would need a partly
      set PTE_AVAIL field. */
  lemma SharersNeverUpdated(f: Flags)
    ensures !UpdatesSharers(MarkFlags(f))
    ensures UpdatesSharers(f) <==> 0 < f.avail < 7
  {
    assert MarkFlags(f).avail == 7;
  }

  // ---------- one step of ktask ----------

  function Toggle(bits: seq<bool>, i: nat): (r: seq<bool>)
    ensures |r| == |bits|
  {
    if i < |bits| then bits[i := !bits[i]] else bits
  }

  function PutSector(disk: seq<Sector>, i: nat, x: Sector): (r: seq<Sector>)
    ensures |r| == |disk|
  {
    if i < |disk| then disk[i := x] else disk
  }

  function GetSector(disk: seq<Sector>, i: nat): Sector {
    if i < |disk| then disk[i] else []
  }

  /** The end of page_out: the page may have been freed meanwhile (one bit is given back, not
      eight), be shared (the loop over its entries ends in a null dereference), or be swapped. */
  ghost function FinishOut(s: State): State
    requires Shape(s) && s.work != []
  {
    var t, rest := s.work[0], s.work[1..];
    var f := s.frames[t.frame];
    if f.ref == 0 then
      if !f.alloc then s.(work := rest, bits := Toggle(s.bits, t.sector)) else s.(halted := true)
    else if f.ref > 1 || t.loc !in s.ptes then s.(halted := true)
    else
      s.(work := rest,
         ptes := s.ptes[t.loc := Word(t.sector % NUM_LIMIT, OutFlags(s.ptes[t.loc].flags))],
         frames := s.frames[t.frame := f.(ref := 0, alloc := false)])
  }

  ghost function PageOutStep(s: State, ready: bool): State
    requires Shape(s) && s.work != []
  {
    var t0 := s.work[0];
    var t := if t0.count == 0 then t0.(sector := Spot(s.bits)) else t0;
    var lba := if t0.count == 0 then t.sector else s.lba;
    if t.count == NSECTORS then FinishOut(s)
    else if !ready then s.(work := [t] + s.work[1..], lba := lba)
    else
      s.(work := [t.(count := t.count + 1)] + s.work[1..],
         disk := PutSector(s.disk, lba, s.frames[t.frame].data[t.count]),
         lba := lba + 1,
         bits := Toggle(s.bits, t.sector + t.count))
  }

  ghost function FinishIn(s: State): State
    requires Shape(s) && s.work != []
  {
    var t, rest := s.work[0], s.work[1..];
    var f := s.frames[t.frame];
    if t.loc !in s.ptes then s.(halted := true)
    else
      s.(work := rest,
         ptes := s.ptes[t.loc := Word(t.frame % NUM_LIMIT, InFlags(s.ptes[t.loc].flags))],
         frames := s.frames[t.frame := f.(ref := f.ref + 1)],
         asleep := s.asleep - {t.loc.env})
  }

  ghost function PageInStep(s: State, ready: bool): State
    requires Shape(s) && s.work != []
  {
    var t := s.work[0];
    var lba := if t.count == 0 then t.sector else s.lba;
    if t.count == NSECTORS then FinishIn(s)
    else if !ready then s.(lba := lba)
    else
      var f := s.frames[t.frame];
      s.(work := [t.(count := t.count + 1)] + s.work[1..],
         frames := s.frames[t.frame := f.(data := f.data[t.count := GetSector(s.disk, lba)])],
         lba := lba + 1,
         bits := Toggle(s.bits, t.sector + t.count))
  }

  ghost function KtaskStep(s: State, ready: bool): (s': State)
    requires Shape(s)
    ensures Shape(s')
  {
    if s.work == [] then s
    else if s.work[0].kind.PageOut? then PageOutStep(s, ready)
    else PageInStep(s, ready)
  }

  // ---------- all steps ----------

  /** Reclaim: reclaim_pgs queues the eviction of the page at loc (`stale` is the old sector field
      of the tasklet). Fault: swap_in. Write: a user store of one sector's worth of bytes.
      MapPage: a demand page. Unmap: page_remove. Forget: env_free drops a swapped entry. */
  datatype Step =
    | Ktask(ready: bool)
    | Reclaim(loc: Loc, stale: nat)
    | Fault(loc: Loc, frame: nat)
    | Write(loc: Loc, k: nat, bytes: Sector)
    | MapPage(loc: Loc, frame: nat, flags: Flags, data: seq<Sector>)
    | Unmap(loc: Loc)
    | Forget(loc: Loc)

  ghost predicate Queued(work: seq<Task>, l: Loc) {
    exists i :: 0 <= i < |work| && work[i].loc == l
  }

  predicate Present(s: State, l: Loc) {
    l in s.ptes && s.ptes[l].flags.p && s.ptes[l].num < |s.frames|
  }

  /** The tasklet whose transfer is part-way, if any. */
  datatype Transfer = Idle | Moving(task: Task)

  function Current(work: seq<Task>): Transfer {
    if work != [] && work[0].count > 0 then Moving(work[0]) else Idle
  }

  /** The write hits a sector of the page being evicted that has already been sent to disk. */
  predicate TooLate(s: State, l: Loc, k: nat) {
    var c := Current(s.work);
    c.Moving? && c.task.kind.PageOut? && c.task.loc == l && k < c.task.count
  }

  /** When the kernel or the hardware takes the step, within the limits of the protocol: a free run
      exists when an eviction starts, a queued page is neither queued again nor unmapped, and no
      write comes too late. */
  ghost predicate Enabled(s: State, step: Step) {
    match step
    case Ktask(_) =>
      s.work != [] && s.work[0].kind.PageOut? && s.work[0].count == 0 ==> |UsedSlots(s.bits)| < SLOTS
    case Reclaim(l, _) => |s.work| < NTASKS && Present(s, l) && !Queued(s.work, l)
    case Fault(l, f) =>
      && |s.work| < NTASKS && l in s.ptes && FaultSwapsIn(s.ptes[l].flags) && l.env !in s.asleep
      && f < |s.frames| && !s.frames[f].alloc
    case Write(l, k, x) => Present(s, l) && k < NSECTORS && !TooLate(s, l, k)
    case MapPage(l, f, fl, d) =>
      && l !in s.ptes && f < |s.frames| && !s.frames[f].alloc && |d| == NSECTORS
      && fl.p && !fl.g && fl.avail == 0
    case Unmap(l) => Present(s, l) && !Queued(s.work, l)
    case Forget(l) => l in s.ptes && !s.ptes[l].flags.p && !Queued(s.work, l)
  }

  ghost function DoWrite(s: State, l: Loc, k: nat, x: Sector): State
    requires Shape(s) && Present(s, l) && k < NSECTORS
  {
    var n := s.ptes[l].num;
    s.(frames := s.frames[n := s.frames[n].(data := s.frames[n].data[k := x])])
  }

  ghost function Apply(s: State, step: Step): (s': State)
    requires Shape(s) && Enabled(s, step)
    ensures Shape(s')
  {
    match step
    case Ktask(ready) => KtaskStep(s, ready)
    case Reclaim(l, stale) =>
      s.(work := s.work + [Task(PageOut, 0, stale, s.ptes[l].num, l)])
    case Fault(l, f) =>
      var w := s.ptes[l];
      s.(work := s.work + [Task(PageIn, 0, w.num, f, l)],
         ptes := s.ptes[l := w.(flags := MarkFlags(w.flags))],
         frames := s.frames[f := s.frames[f].(alloc := true, ref := 0)],
         asleep := s.asleep + {l.env})
    case Write(l, k, x) => DoWrite(s, l, k, x)
    case MapPage(l, f, fl, d) =>
      s.(ptes := s.ptes[l := Word(f, fl)], frames := s.frames[f := Frame(true, 1, d)])
    case Unmap(l) =>
      var n := s.ptes[l].num;
      s.(ptes := s.ptes - {l}, frames := s.frames[n := s.frames[n].(alloc := false, ref := 0)])
    case Forget(l) => s.(ptes := s.ptes - {l})
  }

  // ---------- what a user sees ----------

  datatype PageView = PageView(flags: Flags, data: seq<Sector>)

  /** The page behind a word: in its frame when present, else in the eight sectors of its slot. */
  ghost function ViewOf(s: State, w: Word): PageView {
    if w.flags.p then
      PageView(w.flags, if w.num < |s.frames| then s.frames[w.num].data else [])
    else
      PageView(w.flags.(p := true, g := false, avail := 0),
               if w.num + NSECTORS <= |s.disk| then s.disk[w.num..w.num + NSECTORS] else [])
  }

  ghost function View(s: State): map<Loc, PageView> {
    map l | l in s.ptes :: if l in s.ptes then ViewOf(s, s.ptes[l]) else PageView(NO_FLAGS, [])
  }

  /** The same steps on plain private pages: swapping does not exist here. */
  ghost function SpecStep(m: map<Loc, PageView>, step: Step): map<Loc, PageView> {
    match step
    case Write(l, k, x) =>
      if l in m && k < |m[l].data| then m[l := m[l].(data := m[l].data[k := x])] else m
    case MapPage(l, _, fl, d) => m[l := PageView(fl, d)]
    case Unmap(l) => m - {l}
    case Forget(l) => m - {l}
    case _ => m
  }
}
