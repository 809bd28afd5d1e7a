/** Exact reference counts and isolation of copy-on-write memory over every run. */
module CowSafety {
  import opened Mmu
  import opened CowModel

  // ---------- counting ----------

  lemma Sole(pt: map<Loc, Word>, f: nat, l: Loc)
    requires l in pt && pt[l].num == f && |Mappers(pt, f)| == 1
    ensures forall m :: m in pt && m != l ==> pt[m].num != f
  {
    var ms := Mappers(pt, f);
    assert l in ms;
    assert |ms - {l}| == 0;
    assert forall m :: m in pt && m != l && pt[m].num == f ==> m in ms - {l};
  }

  lemma {:induction false} TwinCount(s: set<Loc>, p: nat, c: nat)
    requires forall l :: l in s ==> l.env == p
    ensures |Copies(s, p, c)| == |s|
    decreases s
  {
    if s == {} {
      assert Copies(s, p, c) == {};
    } else {
      var l :| l in s;
      TwinCount(s - {l}, p, c);
      assert Twin(l, c) !in Copies(s - {l}, p, c) by {
        assert forall m :: m in s && Twin(m, c) == Twin(l, c) ==> m == l;
      }
      assert Copies(s, p, c) == Copies(s - {l}, p, c) + {Twin(l, c)};
    }
  }

  // ---------- steps ----------

  /** A frame without a count has no mapper. */
  lemma Unmapped(s: State, f: nat)
    requires EntryInv(s.pt, s.vma, s.ref) && f !in s.ref
    ensures Mappers(s.pt, f) == {} && forall m :: m in s.pt ==> s.pt[m].num != f
  {
    forall m | m in s.pt ensures s.pt[m].num != f {
      assert EntryOk(m, s.pt[m], s.vma, s.ref);
    }
  }

  lemma StoreRefines(s: State, l: Loc, k: nat, x: Word)
    requires Inv(s) && Enabled(s, Store(l, k, x))
    ensures Inv(DoStore(s, l, k, x)) && View(DoStore(s, l, k, x)) == EagerStep(View(s), Store(l, k, x))
  {
    var s', n := DoStore(s, l, k, x), s.pt[l].num;
    assert EntryOk(l, s.pt[l], s.vma, s.ref) && CountOk(s.pt, s.ref, n);
    Sole(s.pt, n, l);
    assert forall m :: m in s.vma && m != l ==> PageAt(s', m) == PageAt(s, m);
  }

  /** Pointing l at an unused frame f with count one, which takes l from frame n's mappers. */
  lemma Repoint(pt: map<Loc, Word>, l: Loc, w: Word)
    requires Mappers(pt, w.num) == {}
    ensures Mappers(pt[l := w], w.num) == {l}
    ensures forall g :: g != w.num ==> Mappers(pt[l := w], g) == Mappers(pt, g) - {l}
  {
    forall m | m in pt ensures pt[m].num != w.num {
      assert pt[m].num == w.num ==> m in Mappers(pt, w.num);
    }
  }

  lemma DemandRefines(s: State, l: Loc, f: nat)
    requires Inv(s) && Enabled(s, Demand(l, f))
    ensures Inv(DoDemand(s, l, f)) && View(DoDemand(s, l, f)) == View(s)
  {
    var s' := DoDemand(s, l, f);
    Unmapped(s, f);
    Repoint(s.pt, l, s'.pt[l]);
    assert EntryInv(s'.pt, s'.vma, s'.ref) by {
      forall m | m in s'.pt ensures EntryOk(m, s'.pt[m], s'.vma, s'.ref) {
        assert m != l ==> EntryOk(m, s.pt[m], s.vma, s.ref);
      }
    }
    assert CountInv(s'.pt, s'.ref) by {
      forall g | g in s'.ref ensures CountOk(s'.pt, s'.ref, g) {
        assert g != f ==> CountOk(s.pt, s.ref, g) && Mappers(s.pt, g) - {l} == Mappers(s.pt, g);
      }
    }
    assert forall m :: m in s.vma ==> PageAt(s', m) == PageAt(s, m);
  }

  lemma CopyInv(s: State, l: Loc, f: nat)
    requires Inv(s) && Enabled(s, Dedup(l, f)) && s.pt[l].num in s.ref && s.ref[s.pt[l].num] > 1
    ensures Inv(DoDedup(s, l, f))
  {
    var s', n := DoDedup(s, l, f), s.pt[l].num;
    assert CountOk(s.pt, s.ref, n) && l in Mappers(s.pt, n);
    Unmapped(s, f);
    Repoint(s.pt, l, s'.pt[l]);
    assert EntryInv(s'.pt, s'.vma, s'.ref) by {
      forall m | m in s'.pt ensures EntryOk(m, s'.pt[m], s'.vma, s'.ref) {
        assert m != l ==> EntryOk(m, s.pt[m], s.vma, s.ref);
      }
    }
    assert CountInv(s'.pt, s'.ref) by {
      forall g | g in s'.ref ensures CountOk(s'.pt, s'.ref, g) {
        assert g != f ==> CountOk(s.pt, s.ref, g);
        assert g != n && g != f ==> Mappers(s.pt, g) - {l} == Mappers(s.pt, g);
      }
    }
  }

  lemma DedupRefines(s: State, l: Loc, f: nat)
    requires Inv(s) && Enabled(s, Dedup(l, f))
    ensures Inv(DoDedup(s, l, f)) && View(DoDedup(s, l, f)) == View(s)
    ensures DoDedup(s, l, f).pt[l].flags.w
  {
    var s', n := DoDedup(s, l, f), s.pt[l].num;
    assert EntryOk(l, s.pt[l], s.vma, s.ref) && CountOk(s.pt, s.ref, n);
    Unmapped(s, f);
    if s.ref[n] > 1 {
      CopyInv(s, l, f);
    } else {
      FlagsKeepCounts(s.pt, s.ref, l, s'.pt[l]);
      forall m | m in s'.pt ensures EntryOk(m, s'.pt[m], s'.vma, s'.ref) {
        assert EntryOk(m, s.pt[m], s.vma, s.ref);
      }
    }
    assert forall m :: m in s.vma ==> PageAt(s', m) == PageAt(s, m);
  }

  lemma FlagsKeepCounts(pt: map<Loc, Word>, ref: map<nat, nat>, l: Loc, w: Word)
    requires l in pt && w.num == pt[l].num && CountInv(pt, ref)
    ensures CountInv(pt[l := w], ref)
  {
    forall g | g in ref ensures CountOk(pt[l := w], ref, g) {
      assert CountOk(pt, ref, g);
      assert Mappers(pt[l := w], g) == Mappers(pt, g);
    }
  }

  /** Forking adds to each frame one mapper per mapping of the parent. */
  lemma ForkCount(pt: map<Loc, Word>, p: nat, c: nat, f: nat)
    requires p != c && forall l :: l in pt ==> l.env != c
    ensures |Mappers(ForkEntries(pt, p, c), f)| == |Mappers(pt, f)| + |MappersOf(pt, f, p)|
  {
    var pt' := ForkEntries(pt, p, c);
    var mine := MappersOf(pt, f, p);
    var twins := Copies(mine, p, c);
    forall l | l in Mappers(pt', f) ensures l in Mappers(pt, f) + twins {
      if l.env == c {
        assert l == Twin(Twin(l, p), c) && Twin(l, p) in pt;
      }
    }
    forall l | l in twins ensures l in Mappers(pt', f) {
      var m :| m in mine && l == Twin(m, c);
      assert Twin(l, p) == m;
    }
    assert Mappers(pt', f) == Mappers(pt, f) + twins;
    assert Mappers(pt, f) !! twins;
    TwinCount(mine, p, c);
  }

  lemma ForkInv(s: State, p: nat, c: nat)
    requires Inv(s) && Enabled(s, Fork(p, c))
    ensures Inv(DoFork(s, p, c))
  {
    var s' := DoFork(s, p, c);
    forall l | l in s.pt ensures l.env != c {
      assert EntryOk(l, s.pt[l], s.vma, s.ref);
    }
    assert CountInv(s'.pt, s'.ref) by {
      forall f | f in s'.ref ensures CountOk(s'.pt, s'.ref, f) {
        assert CountOk(s.pt, s.ref, f);
        ForkCount(s.pt, p, c, f);
      }
    }
    assert EntryInv(s'.pt, s'.vma, s'.ref) by {
      forall l | l in s'.pt ensures EntryOk(l, s'.pt[l], s'.vma, s'.ref) {
        ForkEntry(s, p, c, l);
      }
    }
  }

  lemma ForkEntry(s: State, p: nat, c: nat, l: Loc)
    requires Inv(s) && Enabled(s, Fork(p, c)) && l in DoFork(s, p, c).pt
    requires forall l :: l in s.pt ==> l.env != c
    ensures var s' := DoFork(s, p, c); EntryOk(l, s'.pt[l], s'.vma, s'.ref)
  {
    var s' := DoFork(s, p, c);
    if l in s.pt {
      assert EntryOk(l, s.pt[l], s.vma, s.ref) && (Twin(l, p) == l || l.env != p);
      var n := s.pt[l].num;
      if s'.pt[l].flags.w {
        assert CountOk(s.pt, s.ref, n);
        Sole(s.pt, n, l);
        assert MappersOf(s.pt, n, p) == {};
      }
    } else {
      assert l == Twin(Twin(l, p), c) && EntryOk(Twin(l, p), s.pt[Twin(l, p)], s.vma, s.ref);
    }
  }

  lemma ForkRefines(s: State, p: nat, c: nat)
    requires Inv(s) && Enabled(s, Fork(p, c))
    ensures Inv(DoFork(s, p, c)) && View(DoFork(s, p, c)) == EagerStep(View(s), Fork(p, c))
  {
    ForkInv(s, p, c);
    forall l | l in s.pt ensures l in s.vma && l.env != c {
      assert EntryOk(l, s.pt[l], s.vma, s.ref);
    }
    ForkView(s, p, c);
  }

  lemma ForkView(s: State, p: nat, c: nat)
    requires Enabled(s, Fork(p, c)) && forall l :: l in s.pt ==> l in s.vma && l.env != c
    ensures View(DoFork(s, p, c)) == EagerStep(View(s), Fork(p, c))
  {
    var s', v := DoFork(s, p, c), View(s);
    forall l | l in s'.vma ensures View(s')[l] == if l in s.vma then v[l] else v[Twin(l, p)] {
      ForkPage(s, p, c, l);
    }
    ForkViewIs(v, View(s'), p, c);
  }

  lemma ForkViewIs(v: map<Loc, PageUse>, v': map<Loc, PageUse>, p: nat, c: nat)
    requires forall l :: l in v' <==> l in v || l in Copies(v.Keys, p, c)
    requires forall l :: l in v' ==> v'[l] == (if l in v then v[l] else if Twin(l, p) in v then v[Twin(l, p)] else NO_PAGE)
    ensures v' == EagerFork(v, p, c)
  {
  }

  lemma ForkPage(s: State, p: nat, c: nat, l: Loc)
    requires Enabled(s, Fork(p, c)) && l in DoFork(s, p, c).vma
    requires forall l :: l in s.pt ==> l in s.vma && l.env != c
    ensures PageAt(DoFork(s, p, c), l) == (if l in s.vma then PageAt(s, l) else PageAt(s, Twin(l, p)))
  {
    var s' := DoFork(s, p, c);
    if l in s.vma {
      assert l in s'.pt <==> l in s.pt;
      assert l in s.pt ==> s'.pt[l].num == s.pt[l].num;
    } else {
      assert l == Twin(Twin(l, p), c) && l.env == c;
      assert l in s'.pt <==> Twin(l, p) in s.pt;
      assert l in s'.pt ==> s'.pt[l].num == s.pt[Twin(l, p)].num;
    }
  }

  /** Exit takes from each frame the environment's own mappings. */
  lemma ExitCount(s: State, e: nat, f: nat)
    requires CountInv(s.pt, s.ref) && f in s.ref
    ensures f in DoExit(s, e).ref ==> CountOk(DoExit(s, e).pt, DoExit(s, e).ref, f)
    ensures f !in DoExit(s, e).ref <==> forall l :: l in s.pt && s.pt[l].num == f ==> l.env == e
  {
    assert CountOk(s.pt, s.ref, f);
    var all, mine := Mappers(s.pt, f), MappersOf(s.pt, f, e);
    assert mine <= all;
    assert Mappers(DoExit(s, e).pt, f) == all - mine;
    assert |all - mine| == |all| - |mine|;
    assert forall l :: l in s.pt && s.pt[l].num == f && l.env != e ==> l in all - mine;
    assert forall l :: l in all - mine ==> l in s.pt && s.pt[l].num == f && l.env != e;
  }

  /** env_free frees exactly the frames that only this environment mapped. */
  lemma ExitFrees(s: State, e: nat, f: nat)
    requires Inv(s) && f in s.ref
    ensures f !in DoExit(s, e).ref <==> forall l :: l in s.pt && s.pt[l].num == f ==> l.env == e
  {
    ExitCount(s, e, f);
  }

  lemma ExitRefines(s: State, e: nat)
    requires Inv(s)
    ensures Inv(DoExit(s, e)) && View(DoExit(s, e)) == EagerStep(View(s), Exit(e))
  {
    var s' := DoExit(s, e);
    assert CountInv(s'.pt, s'.ref) by {
      forall f | f in s'.ref ensures CountOk(s'.pt, s'.ref, f) { ExitCount(s, e, f); }
    }
    forall l | l in s'.pt ensures EntryOk(l, s'.pt[l], s'.vma, s'.ref) && PageAt(s', l) == PageAt(s, l) {
      ExitEntry(s, e, l);
    }
    assert DataInv(s'.ref, s'.data);
    ExitView(s, e);
  }

  lemma ExitEntry(s: State, e: nat, l: Loc)
    requires Inv(s) && l in DoExit(s, e).pt
    ensures var s' := DoExit(s, e); EntryOk(l, s'.pt[l], s'.vma, s'.ref) && PageAt(s', l) == PageAt(s, l)
  {
    assert EntryOk(l, s.pt[l], s.vma, s.ref);
    var n := s.pt[l].num;
    ExitCount(s, e, n);
    assert CountOk(s.pt, s.ref, n);
    if s.pt[l].flags.w {
      Sole(s.pt, n, l);
      assert MappersOf(s.pt, n, e) == {};
    }
  }

  lemma ExitView(s: State, e: nat)
    requires forall l :: l in DoExit(s, e).pt ==> PageAt(DoExit(s, e), l) == PageAt(s, l)
    ensures View(DoExit(s, e)) == EagerStep(View(s), Exit(e))
  {
  }


  /** Removing one mapping keeps the counts exact and every other page. */
  lemma RemoveKeeps(s: State, l: Loc)
    requires Inv(s) && l in s.pt
    ensures var s' := DoRemove(s, l);
            && EntryInv(s'.pt, s.vma, s'.ref) && CountInv(s'.pt, s'.ref) && DataInv(s'.ref, s'.data)
            && s'.pt == s.pt - {l} && s'.vma == s.vma
            && forall m :: m in s.vma && m != l ==> PageAt(s', m) == PageAt(s, m)
  {
    var s', n := DoRemove(s, l), s.pt[l].num;
    assert EntryOk(l, s.pt[l], s.vma, s.ref) && CountOk(s.pt, s.ref, n) && l in Mappers(s.pt, n);
    RemoveCounts(s, l);
    if s.ref[n] == 1 {
      Sole(s.pt, n, l);
    }
    forall m | m in s'.pt ensures EntryOk(m, s'.pt[m], s.vma, s'.ref) {
      assert EntryOk(m, s.pt[m], s.vma, s.ref);
    }
  }

  lemma RemoveCounts(s: State, l: Loc)
    requires CountInv(s.pt, s.ref) && l in s.pt && s.pt[l].num in s.ref
    ensures CountInv(DoRemove(s, l).pt, DoRemove(s, l).ref)
  {
    var s', n := DoRemove(s, l), s.pt[l].num;
    assert CountOk(s.pt, s.ref, n) && l in Mappers(s.pt, n);
    forall g | g in s'.ref ensures CountOk(s'.pt, s'.ref, g) {
      assert CountOk(s.pt, s.ref, g) && Mappers(s'.pt, g) == Mappers(s.pt, g) - {l};
      assert g != n ==> Mappers(s.pt, g) - {l} == Mappers(s.pt, g);
    }
  }

  lemma UnmapRefines(s: State, l: Loc)
    requires Inv(s) && Enabled(s, Unmap(l))
    ensures Inv(DoUnmap(s, l)) && View(DoUnmap(s, l)) == View(s) - {l}
  {
    var s1, s' := DoRemove(s, l), DoUnmap(s, l);
    if l in s.pt {
      RemoveKeeps(s, l);
    }
    assert EntryInv(s'.pt, s'.vma, s'.ref) by {
      forall m | m in s'.pt ensures EntryOk(m, s'.pt[m], s'.vma, s'.ref) {
        assert EntryOk(m, s1.pt[m], s.vma, s1.ref);
      }
    }
    assert forall m :: m in s'.vma ==> PageAt(s', m) == PageAt(s, m);
  }

  lemma MapAreaRefines(s: State, l: Loc, perm: Flags)
    requires Inv(s) && Enabled(s, MapArea(l, perm))
    ensures Inv(Apply(s, MapArea(l, perm))) && View(Apply(s, MapArea(l, perm))) == EagerStep(View(s), MapArea(l, perm))
  {
    var s' := Apply(s, MapArea(l, perm));
    forall m | m in s'.pt ensures EntryOk(m, s'.pt[m], s'.vma, s'.ref) {
      assert EntryOk(m, s.pt[m], s.vma, s.ref);
    }
  }

  /** One step: counts stay exact, writable entries stay unshared, and every environment sees what
      it would see with private memory. */
  lemma StepRefines(s: State, step: Step)
    requires Inv(s) && Enabled(s, step)
    ensures Inv(Apply(s, step)) && View(Apply(s, step)) == EagerStep(View(s), step)
  {
    match step
    case Store(l, k, x) => StoreRefines(s, l, k, x);
    case Demand(l, f) => DemandRefines(s, l, f);
    case Dedup(l, f) => DedupRefines(s, l, f);
    case Fork(p, c) => ForkRefines(s, p, c);
    case Exit(e) => ExitRefines(s, e);
    case MapArea(l, perm) => MapAreaRefines(s, l, perm);
    case Unmap(l) => UnmapRefines(s, l);
  }

  // ---------- runs ----------

  predicate CanRun(s: State, steps: seq<Step>)
    decreases |steps|
  {
    steps == [] || (Enabled(s, steps[0]) && CanRun(Apply(s, steps[0]), steps[1..]))
  }

  function Run(s: State, steps: seq<Step>): State
    requires CanRun(s, steps)
    decreases |steps|
  {
    if steps == [] then s else Run(Apply(s, steps[0]), steps[1..])
  }

  function EagerRun(m: map<Loc, PageUse>, steps: seq<Step>): map<Loc, PageUse>
    decreases |steps|
  {
    if steps == [] then m else EagerRun(EagerStep(m, steps[0]), steps[1..])
  }

  /** Copy-on-write refines eager copy over every run. */
  lemma {:induction false} CowRefinesEager(s: State, steps: seq<Step>)
    requires Inv(s) && CanRun(s, steps)
    ensures Inv(Run(s, steps)) && View(Run(s, steps)) == EagerRun(View(s), steps)
    decreases |steps|
  {
    if steps != [] {
      StepRefines(s, steps[0]);
      CowRefinesEager(Apply(s, steps[0]), steps[1..]);
    }
  }

  /** The state after the faults that a store to a page can take: a demand fault if it is absent, a
      write fault if it is read-only. */
  function Faulted(s: State, l: Loc, f: nat, g: nat): State {
    var s1 := if Enabled(s, Demand(l, f)) then DoDemand(s, l, f) else s;
    if Enabled(s1, Dedup(l, g)) then DoDedup(s1, l, g) else s1
  }

  /** A store succeeds after these two faults exactly if the area permits writing, whether or not the
      page is shared. */
  lemma StoreGranted(s: State, l: Loc, f: nat, g: nat)
    requires Inv(s) && l in s.vma && f !in s.ref && g !in s.ref && f != g && f < NUM_LIMIT && g < NUM_LIMIT
    ensures Inv(Faulted(s, l, f, g)) && View(Faulted(s, l, f, g)) == View(s)
    ensures Enabled(Faulted(s, l, f, g), Store(l, 0, ZERO)) <==> s.vma[l].w
  {
    assert l in s.pt ==> EntryOk(l, s.pt[l], s.vma, s.ref);
    var s1 := if l in s.pt then s else DoDemand(s, l, f);
    if l !in s.pt {
      DemandRefines(s, l, f);
    }
    assert EntryOk(l, s1.pt[l], s1.vma, s1.ref) && CountOk(s1.pt, s1.ref, s1.pt[l].num);
    if Enabled(s1, Dedup(l, g)) {
      DedupRefines(s1, l, g);
    }
  }

  lemma BootInv()
    ensures Inv(State(map[], map[], map[], map[]))
  {
  }

  // ---------- outside the limits ----------

  /** vma_change_perm re-inserts a present page with the new permissions. */
  function DoProtect(s: State, l: Loc, perm: Flags): State
    requires l in s.pt
  {
    s.(pt := s.pt[l := Word(s.pt[l].num, perm.(p := true))], vma := s.vma[l := perm])
  }

  /** Changing the permissions of a present page keeps the invariant exactly when it does not make
      a shared page writable. */
  lemma ProtectExact(s: State, l: Loc, perm: Flags)
    requires Inv(s) && l in s.pt && s.pt[l].num in s.ref
    ensures Inv(DoProtect(s, l, perm)) <==> perm.w ==> s.ref[s.pt[l].num] == 1
    ensures l in s.vma && View(DoProtect(s, l, perm)) == View(s)[l := PageUse(perm, PageAt(s, l))]
  {
    var s' := DoProtect(s, l, perm);
    assert EntryOk(l, s.pt[l], s.vma, s.ref);
    FlagsKeepCounts(s.pt, s.ref, l, s'.pt[l]);
    ProtectEntries(s, l, perm);
    ProtectView(s, l, perm);
  }

  lemma ProtectEntries(s: State, l: Loc, perm: Flags)
    requires EntryInv(s.pt, s.vma, s.ref) && l in s.pt && s.pt[l].num in s.ref
    ensures var s' := DoProtect(s, l, perm);
            EntryInv(s'.pt, s'.vma, s'.ref) <==> perm.w ==> s.ref[s.pt[l].num] == 1
  {
    var s' := DoProtect(s, l, perm);
    forall m | m in s.pt && m != l ensures EntryOk(m, s'.pt[m], s'.vma, s'.ref) {
      assert EntryOk(m, s.pt[m], s.vma, s.ref);
    }
    assert EntryOk(l, s'.pt[l], s'.vma, s'.ref) <==> perm.w ==> s.ref[s.pt[l].num] == 1;
  }

  lemma ProtectView(s: State, l: Loc, perm: Flags)
    requires l in s.pt && l in s.vma
    ensures View(DoProtect(s, l, perm)) == View(s)[l := PageUse(perm, PageAt(s, l))]
  {
  }

  /** If it does, a store through that page is seen through another page. */
  lemma ProtectBreaksIsolation(s: State, l: Loc, perm: Flags, k: nat, x: Word) returns (m: Loc)
    requires Inv(s) && l in s.pt && s.pt[l].num in s.ref && perm.w && s.ref[s.pt[l].num] > 1 && k < PAGE_WORDS
    ensures m != l && m in s.vma && l in s.vma && |PageAt(s, m)| == PAGE_WORDS
    ensures PageAt(DoStore(DoProtect(s, l, perm), l, k, x), m) == PageAt(s, m)[k := x]
  {
    var n := s.pt[l].num;
    assert EntryOk(l, s.pt[l], s.vma, s.ref) && CountOk(s.pt, s.ref, n) && l in Mappers(s.pt, n);
    assert |Mappers(s.pt, n) - {l}| == |Mappers(s.pt, n)| - 1;
    m :| m in Mappers(s.pt, n) - {l};
    assert EntryOk(m, s.pt[m], s.vma, s.ref);
  }

  /** page_dedup when no frame can be allocated: the count is already lower, the entry is not
      changed. */
  function DedupNoMemory(s: State, l: Loc): State
    requires l in s.pt && s.pt[l].num in s.ref
  {
    var n := s.pt[l].num;
    if s.ref[n] == 1 then s.(pt := s.pt[l := s.pt[l].(flags := s.pt[l].flags.(w := true))])
    else if s.ref[n] > 1 then s.(ref := s.ref[n := s.ref[n] - 1])
    else s
  }

  /** The counts then stay exact exactly when the page was not shared. */
  lemma DedupNoMemoryExact(s: State, l: Loc)
    requires Inv(s) && l in s.pt && l in s.vma && s.vma[l].w && s.pt[l].num in s.ref
    ensures Inv(DedupNoMemory(s, l)) <==> s.ref[s.pt[l].num] == 1
  {
    var s', n := DedupNoMemory(s, l), s.pt[l].num;
    assert EntryOk(l, s.pt[l], s.vma, s.ref) && CountOk(s.pt, s.ref, n);
    if s.ref[n] == 1 {
      FlagsKeepCounts(s.pt, s.ref, l, s'.pt[l]);
      forall m | m in s'.pt ensures EntryOk(m, s'.pt[m], s'.vma, s'.ref) {
        assert EntryOk(m, s.pt[m], s.vma, s.ref);
      }
    } else {
      assert !CountOk(s'.pt, s'.ref, n);
    }
  }
}
