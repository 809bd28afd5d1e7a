/** Copy-on-write memory over flat page maps, and its refinement to private memories that fork
    copies eagerly. PageTables.dfy refines these steps to two-level page tables. */
module CowModel {
  import opened Mmu

  const PAGE_WORDS: nat := 1024

  /** A user virtual page: environment, and the directory and table indices of its address. */
  datatype Loc = Loc(env: nat, d: nat, t: nat)
  type Page = seq<Word>

  function ZeroPage(): Page {
    seq(PAGE_WORDS, _ => ZERO)
  }

  /** `pt` holds the present entries, `vma` the permissions of the mapped areas page by page,
      `ref` and `data` the frames in use for user pages. */
  datatype State = State(pt: map<Loc, Word>, vma: map<Loc, Flags>, ref: map<nat, nat>, data: map<nat, Page>)

  function Mappers(pt: map<Loc, Word>, f: nat): set<Loc> {
    set l | l in pt && pt[l].num == f
  }

  /** Mappings of frame f by one environment. */
  function MappersOf(pt: map<Loc, Word>, f: nat, e: nat): set<Loc> {
    set l | l in pt && pt[l].num == f && l.env == e
  }

  // ---------- what every step keeps ----------

  predicate EntryOk(l: Loc, w: Word, vma: map<Loc, Flags>, ref: map<nat, nat>) {
    && w.flags.p && w.num in ref && l in vma
    && w.flags == vma[l].(p := true, w := w.flags.w)
    && (w.flags.w ==> vma[l].w && ref[w.num] == 1)
  }

  /** A present entry grants what its area grants, except perhaps writing; a writable one owns its
      frame. */
  ghost predicate EntryInv(pt: map<Loc, Word>, vma: map<Loc, Flags>, ref: map<nat, nat>) {
    forall l {:trigger EntryOk(l, pt[l], vma, ref)} :: l in pt ==> EntryOk(l, pt[l], vma, ref)
  }

  predicate CountOk(pt: map<Loc, Word>, ref: map<nat, nat>, f: nat)
    requires f in ref
  {
    ref[f] == |Mappers(pt, f)| && ref[f] > 0
  }

  /** Reference counts are exact. */
  ghost predicate CountInv(pt: map<Loc, Word>, ref: map<nat, nat>) {
    forall f {:trigger CountOk(pt, ref, f)} :: f in ref ==> CountOk(pt, ref, f)
  }

  ghost predicate DataInv(ref: map<nat, nat>, data: map<nat, Page>) {
    data.Keys == ref.Keys && forall f :: f in data ==> |data[f]| == PAGE_WORDS
  }

  ghost predicate Inv(s: State) {
    EntryInv(s.pt, s.vma, s.ref) && CountInv(s.pt, s.ref) && DataInv(s.ref, s.data)
  }

  // ---------- steps ----------

  /** Store: a user store through a writable entry. Demand: a fault on an absent page. Dedup: a write
      fault on a page the area allows to write. Fork and Exit: env_cpy_pgdir_cow and env_free.
      MapArea and Unmap: one page of an area is created or destroyed. */
  datatype Step =
    | Store(l: Loc, k: nat, x: Word)
    | Demand(l: Loc, f: nat)
    | Dedup(l: Loc, f: nat)
    | Fork(parent: nat, child: nat)
    | Exit(e: nat)
    | MapArea(l: Loc, perm: Flags)
    | Unmap(l: Loc)

  predicate Enabled(s: State, step: Step) {
    match step
    case Store(l, k, x) => l in s.pt && s.pt[l].flags.w && k < PAGE_WORDS
    case Demand(l, f) => l in s.vma && l !in s.pt && f !in s.ref && f < NUM_LIMIT
    case Dedup(l, f) =>
      l in s.pt && !s.pt[l].flags.w && l in s.vma && s.vma[l].w && f !in s.ref && f < NUM_LIMIT
    case Fork(p, c) => p != c && forall l :: l in s.vma ==> l.env != c
    case Exit(e) => true
    case MapArea(l, perm) => l !in s.vma && l !in s.pt
    case Unmap(l) => l in s.vma
  }

  /** page_insert of a fresh frame. */
  function DoDemand(s: State, l: Loc, f: nat): State
    requires Enabled(s, Demand(l, f))
  {
    s.(pt := s.pt[l := Word(f, s.vma[l].(p := true))], ref := s.ref[f := 1], data := s.data[f := ZeroPage()])
  }

  /** page_dedup: an unshared page becomes writable, a shared one is copied. */
  function DoDedup(s: State, l: Loc, f: nat): State
    requires Enabled(s, Dedup(l, f))
  {
    var w := s.pt[l];
    if w.num !in s.ref || w.num !in s.data || s.ref[w.num] == 0 then s
    else if s.ref[w.num] == 1 then s.(pt := s.pt[l := w.(flags := w.flags.(w := true))])
    else s.(pt := s.pt[l := Word(f, s.vma[l].(p := true))],
            ref := s.ref[w.num := s.ref[w.num] - 1][f := 1],
            data := s.data[f := s.data[w.num]])
  }

  /** The entry a fork leaves behind in the parent and puts into the child. */
  function Shared(w: Word): Word {
    w.(flags := w.flags.(w := false))
  }

  /** The page of the parent that a page of the child comes from. */
  function Twin(l: Loc, e: nat): Loc {
    l.(env := e)
  }

  /** The pages of environment c that mirror those of p. */
  function Copies(keys: set<Loc>, p: nat, c: nat): set<Loc> {
    set l | l in keys && l.env == p :: Twin(l, c)
  }

  function ForkEntries(pt: map<Loc, Word>, p: nat, c: nat): map<Loc, Word> {
    map l | l in pt.Keys + Copies(pt.Keys, p, c) ::
      if l.env == c && Twin(l, p) in pt then Shared(pt[Twin(l, p)])
      else if l !in pt then ZERO
      else if l.env == p then Shared(pt[l]) else pt[l]
  }

  function ForkAreas(vma: map<Loc, Flags>, p: nat, c: nat): map<Loc, Flags> {
    map l | l in vma.Keys + Copies(vma.Keys, p, c) ::
      if l in vma then vma[l] else if l.env == c && Twin(l, p) in vma then vma[Twin(l, p)] else NO_FLAGS
  }

  function ForkRefs(ref: map<nat, nat>, pt: map<Loc, Word>, p: nat): map<nat, nat> {
    map f | f in ref :: if f in ref then ref[f] + |MappersOf(pt, f, p)| else 0
  }

  function DoFork(s: State, p: nat, c: nat): State {
    State(ForkEntries(s.pt, p, c),
          ForkAreas(s.vma, p, c),
          ForkRefs(s.ref, s.pt, p),
          s.data)
  }

  /** The entries of all environments but e. */
  function Without(pt: map<Loc, Word>, e: nat): map<Loc, Word> {
    map l | l in pt && l.env != e :: if l in pt && l.env != e then pt[l] else ZERO
  }

  function AreasWithout(vma: map<Loc, Flags>, e: nat): map<Loc, Flags> {
    map l | l in vma && l.env != e :: if l in vma && l.env != e then vma[l] else NO_FLAGS
  }

  /** Frame f stays in use when the mappings of e go. */
  predicate Remains(ref: map<nat, nat>, pt: map<Loc, Word>, e: nat, f: nat) {
    f in ref && ref[f] > |MappersOf(pt, f, e)|
  }

  function ExitRefs(ref: map<nat, nat>, pt: map<Loc, Word>, e: nat): map<nat, nat> {
    map f | f in ref && Remains(ref, pt, e, f) :: if Remains(ref, pt, e, f) then ref[f] - |MappersOf(pt, f, e)| else 0
  }

  function ExitData(data: map<nat, Page>, ref: map<nat, nat>, pt: map<Loc, Word>, e: nat): map<nat, Page> {
    map f | f in data && Remains(ref, pt, e, f) :: if f in data && Remains(ref, pt, e, f) then data[f] else []
  }

  /** env_free: each present entry is removed; frames whose count reaches zero are freed. */
  function DoExit(s: State, e: nat): State {
    State(Without(s.pt, e),
          AreasWithout(s.vma, e),
          ExitRefs(s.ref, s.pt, e),
          ExitData(s.data, s.ref, s.pt, e))
  }

  /** page_remove: one mapping less; the last one frees the frame. */
  function DoRemove(s: State, l: Loc): State {
    if l !in s.pt || s.pt[l].num !in s.ref then s
    else
      var n := s.pt[l].num;
      var s := s.(pt := s.pt - {l});
      if s.ref[n] <= 1 then s.(ref := s.ref - {n}, data := s.data - {n})
      else s.(ref := s.ref[n := s.ref[n] - 1])
  }

  /** page_insert of a frame that holds `page`: a page already there is removed first, unless it is
      the same frame, whose flags then change. */
  function DoInsert(s: State, l: Loc, f: Num20, page: Page, flags: Flags): State {
    if l in s.pt && s.pt[l].num == f then s.(pt := s.pt[l := Word(f, flags)])
    else
      var s := DoRemove(s, l);
      s.(pt := s.pt[l := Word(f, flags)],
         ref := s.ref[f := if f in s.ref then s.ref[f] + 1 else 1],
         data := s.data[f := page])
  }

  /** page_remove and the loss of the area's page. */
  function DoUnmap(s: State, l: Loc): State {
    DoRemove(s, l).(vma := s.vma - {l})
  }

  function DoStore(s: State, l: Loc, k: nat, x: Word): State
    requires l in s.pt
  {
    var n := s.pt[l].num;
    if n in s.data && k < |s.data[n]| then s.(data := s.data[n := s.data[n][k := x]]) else s
  }

  function Apply(s: State, step: Step): State
    requires Enabled(s, step)
  {
    match step
    case Store(l, k, x) => DoStore(s, l, k, x)
    case Demand(l, f) => DoDemand(s, l, f)
    case Dedup(l, f) => DoDedup(s, l, f)
    case Fork(p, c) => DoFork(s, p, c)
    case Exit(e) => DoExit(s, e)
    case MapArea(l, perm) => s.(vma := s.vma[l := perm])
    case Unmap(l) => DoUnmap(s, l)
  }

  // ---------- the specification: private memories, eager copies ----------

  /** What an environment reads: pages never touched read as zero. */
  function PageAt(s: State, l: Loc): Page {
    if l in s.pt && s.pt[l].num in s.data then s.data[s.pt[l].num] else ZeroPage()
  }

  /** A page of an environment: what it may be used for, and its words. */
  datatype PageUse = PageUse(perm: Flags, data: Page)

  const NO_PAGE := PageUse(NO_FLAGS, [])

  function View(s: State): map<Loc, PageUse> {
    map l | l in s.vma :: if l in s.vma then PageUse(s.vma[l], PageAt(s, l)) else NO_PAGE
  }

  function EagerFork(m: map<Loc, PageUse>, p: nat, c: nat): map<Loc, PageUse> {
    map l | l in m.Keys + Copies(m.Keys, p, c) ::
      if l in m then m[l] else if l.env == c && Twin(l, p) in m then m[Twin(l, p)] else NO_PAGE
  }

  /** Each environment owns its pages, with their permissions; fork copies all of them at once. */
  function EagerStep(m: map<Loc, PageUse>, step: Step): map<Loc, PageUse> {
    match step
    case Store(l, k, x) =>
      if l in m && m[l].perm.w && k < |m[l].data| then m[l := m[l].(data := m[l].data[k := x])] else m
    case Demand(_, _) => m
    case Dedup(_, _) => m
    case Fork(p, c) => EagerFork(m, p, c)
    case Exit(e) => map l | l in m && l.env != e :: if l in m && l.env != e then m[l] else NO_PAGE
    case MapArea(l, perm) => m[l := PageUse(perm, ZeroPage())]
    case Unmap(l) => m - {l}
  }
}
