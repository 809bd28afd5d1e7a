/** Whole-address-space operations on the flat map, as loops perform them page by page, and the
    copy-on-write states they end in. */
module ForkExit {
  import opened Mmu
  import opened CowModel
  import opened CowSafety
  import opened FrameUse
  import opened PageWalk

  // ---------- single pages ----------

  ghost function Stored(m: Machine, l: Loc, k: nat, x: Word): Machine
    requires l in m.flat && m.flat[l].num < |m.mem| && k < |m.mem[m.flat[l].num]|
  {
    var n := m.flat[l].num;
    m.(mem := m.mem[n := m.mem[n][k := x]])
  }

  /** A user store changes the words of one user page and no translation. */
  lemma StoredSound(m: Machine, l: Loc, k: nat, x: Word)
    requires Sound(m) && l in m.flat && k < PAGE_WORDS
    ensures m.flat[l].num < |m.mem| && k < |m.mem[m.flat[l].num]|
    ensures Sound(Stored(m, l, k, x)) && AbsOf(Stored(m, l, k, x)) == DoStore(AbsOf(m), l, k, x)
  {
    var n := m.flat[l].num;
    assert DataOk(m.flat[l], |m.mem|, m.owner);
    DataEdit(m.mem, m.roots, m.owner, m.flat, n, m.mem[n][k := x]);
    assert UserData(m.owner, m.mem[n := m.mem[n][k := x]]) == UserData(m.owner, m.mem)[n := m.mem[n][k := x]];
  }

  /** Copying a page into a fresh frame. */
  lemma FilledSound(m: Machine, f: nat, page: Page)
    requires Sound(m) && f in m.owner && m.owner[f] == Fresh && f < |m.mem| && |page| == PAGE_WORDS
    ensures Sound(m.(mem := m.mem[f := page])) && AbsOf(m.(mem := m.mem[f := page])) == AbsOf(m)
  {
    DataEdit(m.mem, m.roots, m.owner, m.flat, f, page);
    TableWrite(m.owner, m.mem, f, page);
  }

  /** Frame 0 is reserved: its count, which fork bumps for absent entries, does not matter. */
  lemma BumpedSound(m: Machine)
    requires Sound(m)
    ensures Sound(m.(ref := m.ref[0 := m.ref[0] + 1])) && AbsOf(m.(ref := m.ref[0 := m.ref[0] + 1])) == AbsOf(m)
  {
    var ref' := m.ref[0 := m.ref[0] + 1];
    forall g | g in m.owner ensures FrameOk(g, m.owner, ref', m.alloc, m.flat) {
      assert FrameOk(g, m.owner, m.ref, m.alloc, m.flat);
    }
    forall i | 0 <= i < |m.free| ensures FreeFrame(m.free[i], m.owner, ref', m.alloc) {
      assert FreeFrame(m.free[i], m.owner, m.ref, m.alloc);
    }
  }

  /** Pointing an entry from a shared page to a private copy is page_dedup's step. */
  lemma DedupParts(s: State, l: Loc, f: Num20)
    requires l in s.pt && l in s.vma && s.vma[l].w && !s.pt[l].flags.w && f !in s.ref
    requires s.pt[l].num in s.ref && s.pt[l].num in s.data && s.ref[s.pt[l].num] > 1
    ensures DoDedup(s, l, f) == DoInsert(DoRemove(s, l), l, f, s.data[s.pt[l].num], s.vma[l].(p := true))
  {
  }

  // ---------- fork ----------

  /** The entries after the pages in `done` have been shared with the child. */
  function ForkPart(pt: map<Loc, Word>, p: nat, c: nat, done: set<Loc>): map<Loc, Word> {
    map l | l in pt.Keys + Copies(pt.Keys * done, p, c) ::
      if l.env == c && Twin(l, p) in pt && Twin(l, p) in done then Shared(pt[Twin(l, p)])
      else if l !in pt then ZERO
      else if l.env == p && l in done then Shared(pt[l]) else pt[l]
  }

  lemma ForkPartStart(pt: map<Loc, Word>, p: nat, c: nat)
    ensures ForkPart(pt, p, c, {}) == pt
  {
    assert Copies(pt.Keys * {}, p, c) == {};
  }

  lemma ForkPartStep(pt: map<Loc, Word>, p: nat, c: nat, done: set<Loc>, l: Loc)
    requires p != c && l.env == p && l !in done && forall k :: k in pt ==> k.env != c
    ensures ForkPart(pt, p, c, done + {l})
            == if l in pt then ForkPart(pt, p, c, done)[l := Shared(pt[l])][Twin(l, c) := Shared(pt[l])]
               else ForkPart(pt, p, c, done)
  {
    var a, b := ForkPart(pt, p, c, done), ForkPart(pt, p, c, done + {l});
    var expected := if l in pt then a[l := Shared(pt[l])][Twin(l, c) := Shared(pt[l])] else a;
    forall k ensures (k in b <==> k in expected) && (k in b ==> b[k] == expected[k]) {
      if k.env == c {
        assert k == Twin(Twin(k, p), c);
      }
    }
  }

  /** A page not yet shared is as before, and its twin is absent. */
  lemma ForkPartAt(pt: map<Loc, Word>, p: nat, c: nat, done: set<Loc>, l: Loc)
    requires p != c && l.env == p && l !in done && forall k :: k in pt ==> k.env != c
    ensures var a := ForkPart(pt, p, c, done);
            Twin(l, c) !in a && (l in a <==> l in pt) && (l in a ==> a[l] == pt[l])
  {
    assert Twin(Twin(l, c), p) == l;
    assert forall k: Loc :: k.env == p && Twin(k, c) == Twin(l, c) ==> k == l;
  }

  /** Sharing one page more, from the entries as they are by then. */
  lemma ForkPartMore(pt: map<Loc, Word>, p: nat, c: nat, done: set<Loc>, l: Loc, a: map<Loc, Word>, b: map<Loc, Word>)
    requires p != c && l.env == p && l !in done && (forall k :: k in pt ==> k.env != c) && a == ForkPart(pt, p, c, done)
    requires b == if l in a then a[l := Shared(a[l])][Twin(l, c) := Shared(a[l])] else a
    ensures b == ForkPart(pt, p, c, done + {l}) && (l in a <==> l in pt)
  {
    ForkPartAt(pt, p, c, done, l);
    ForkPartStep(pt, p, c, done, l);
  }

  lemma ForkPartEnd(pt: map<Loc, Word>, p: nat, c: nat, done: set<Loc>)
    requires p != c && forall k :: k in pt ==> k.env != c && (k.env == p ==> k in done)
    ensures ForkPart(pt, p, c, done) == ForkEntries(pt, p, c)
  {
    assert Copies(pt.Keys * done, p, c) == Copies(pt.Keys, p, c);
  }

  /** Exact counts before and after make a forked machine the fork of the abstract state. */
  lemma ForkAbs(m: Machine, m': Machine, p: nat, c: nat)
    requires Sound(m) && Sound(m') && p != c && forall l :: l in m.flat ==> l.env != c
    requires m'.flat == ForkEntries(m.flat, p, c) && m'.vma == ForkAreas(m.vma, p, c)
    requires AbsOf(m').data == AbsOf(m).data
    ensures AbsOf(m') == DoFork(AbsOf(m), p, c)
  {
    var s, s' := AbsOf(m), AbsOf(m');
    SameFrames(m);
    SameFrames(m');
    forall f | f in s.ref ensures s'.ref[f] == s.ref[f] + |MappersOf(m.flat, f, p)| {
      ForkFrame(m, m', p, c, f);
    }
    ForkRefsAre(s.ref, s'.ref, m.flat, p);
  }

  lemma ForkRefsAre(ref: map<nat, nat>, ref': map<nat, nat>, pt: map<Loc, Word>, p: nat)
    requires ref'.Keys == ref.Keys && forall f :: f in ref ==> ref'[f] == ref[f] + |MappersOf(pt, f, p)|
    ensures ref' == ForkRefs(ref, pt, p)
  {
  }

  lemma SameFrames(m: Machine)
    requires Sound(m)
    ensures AbsOf(m).ref.Keys == AbsOf(m).data.Keys
  {
    assert |m.mem| == |m.ref|;
  }

  lemma ForkFrame(m: Machine, m': Machine, p: nat, c: nat, f: nat)
    requires Sound(m) && Sound(m') && p != c && forall l :: l in m.flat ==> l.env != c
    requires m'.flat == ForkEntries(m.flat, p, c) && f in AbsOf(m).ref && f in AbsOf(m').ref
    ensures AbsOf(m').ref[f] == AbsOf(m).ref[f] + |MappersOf(m.flat, f, p)|
  {
    assert FrameOk(f, m.owner, m.ref, m.alloc, m.flat) && FrameOk(f, m'.owner, m'.ref, m'.alloc, m'.flat);
    ForkCount(m.flat, p, c, f);
  }

  // ---------- exit ----------

  /** Page l comes before table index t of directory index d in env_free's double loop. */
  predicate Before(l: Loc, e: nat, d: nat, t: nat) {
    l.env == e && (l.d < d || (l.d == d && l.t < t))
  }

  function ExitPart(pt: map<Loc, Word>, e: nat, d: nat, t: nat): map<Loc, Word> {
    map l | l in pt && !Before(l, e, d, t) :: if l in pt && !Before(l, e, d, t) then pt[l] else ZERO
  }

  lemma ExitPartStep(pt: map<Loc, Word>, e: nat, d: nat, t: nat)
    ensures ExitPart(pt, e, d, t + 1) == ExitPart(pt, e, d, t) - {Loc(e, d, t)}
  {
    assert forall l :: Before(l, e, d, t + 1) <==> Before(l, e, d, t) || l == Loc(e, d, t);
  }

  /** Exact counts before and after make the machine without environment e the exit of e. */
  lemma ExitAbs(m: Machine, m': Machine, e: nat)
    requires Sound(m) && Sound(m')
    requires m'.flat == Without(m.flat, e)
    requires m'.vma == AreasWithout(m.vma, e)
    requires forall f :: f in AbsOf(m').data ==> f in AbsOf(m).data && AbsOf(m').data[f] == AbsOf(m).data[f]
    ensures AbsOf(m') == DoExit(AbsOf(m), e)
  {
    var s, s' := AbsOf(m), AbsOf(m');
    SameFrames(m);
    SameFrames(m');
    forall f | f in s.ref
      ensures f in s'.ref <==> Remains(s.ref, s.pt, e, f)
      ensures f in s'.ref ==> s'.ref[f] == s.ref[f] - |MappersOf(m.flat, f, e)|
    {
      ExitFrame(m, m', e, f);
    }
    ExitRefsAre(s.ref, s'.ref, s.pt, e);
    ExitDataAre(s.data, s'.data, s.ref, s.pt, e);
  }

  lemma ExitRefsAre(ref: map<nat, nat>, ref': map<nat, nat>, pt: map<Loc, Word>, e: nat)
    requires forall f :: f in ref' ==> f in ref
    requires forall f :: f in ref ==> (f in ref' <==> Remains(ref, pt, e, f)) && (f in ref' ==> ref'[f] == ref[f] - |MappersOf(pt, f, e)|)
    ensures ref' == ExitRefs(ref, pt, e)
  {
  }

  lemma ExitDataAre(data: map<nat, Page>, data': map<nat, Page>, ref: map<nat, nat>, pt: map<Loc, Word>, e: nat)
    requires forall f :: f in data' ==> f in data && data'[f] == data[f]
    requires forall f :: f in data ==> (f in data' <==> Remains(ref, pt, e, f))
    ensures data' == ExitData(data, ref, pt, e)
  {
  }

  lemma ExitFrame(m: Machine, m': Machine, e: nat, f: nat)
    requires Sound(m) && Sound(m') && f in AbsOf(m).ref
    requires m'.flat == Without(m.flat, e)
    ensures f in AbsOf(m').ref <==> m.ref[f] > |MappersOf(m.flat, f, e)|
    ensures f in AbsOf(m').ref ==> m'.ref[f] == m.ref[f] - |MappersOf(m.flat, f, e)|
  {
    assert FrameOk(f, m.owner, m.ref, m.alloc, m.flat);
    var all, mine, left := Mappers(m.flat, f), MappersOf(m.flat, f, e), Mappers(m'.flat, f);
    assert mine <= all && left == all - mine;
    assert |left| == |all| - |mine|;
    if f in AbsOf(m').ref {
      assert FrameOk(f, m'.owner, m'.ref, m'.alloc, m'.flat);
    }
    if |left| > 0 {
      var l :| l in left;
      assert DataOk(m'.flat[l], |m'.mem|, m'.owner);
    }
  }

  /** The frames that only environment e uses: its directory, its tables, and the pages that nobody
      else maps. */
  ghost function OnlyOf(m: Machine, e: nat): set<nat> {
    set f | f in m.owner && UsedOnlyBy(m.flat, m.owner[f], f, e)
  }

  ghost predicate UsedOnlyBy(flat: map<Loc, Word>, o: Owner, f: nat, e: nat) {
    match o
    case Root(x) => x == e
    case Table(x, _) => x == e
    case Data => forall l :: l in flat && flat[l].num == f ==> l.env == e
    case _ => false
  }

  ghost function FreeSet(m: Machine): set<nat> {
    set f | f in m.free
  }

  /** The frames in use shrink by pages, and by the directory and tables of e. */
  ghost predicate UseShrinks(owner': map<nat, Owner>, owner: map<nat, Owner>, e: nat) {
    && (forall f :: f in owner' ==> f in owner && owner'[f] == owner[f])
    && (forall f :: f in owner && f !in owner' ==> owner[f].Data? || owner[f] == Root(e) || (owner[f].Table? && owner[f].env == e))
  }

  /** No user page appears or changes its contents. */
  ghost predicate DataShrinks(s': State, s: State) {
    forall f :: f in s'.data ==> f in s.data && s'.data[f] == s.data[f]
  }

  /** The part of env_free up to the directory, or a step of it. */
  ghost predicate Shrinks(m': Machine, m: Machine, e: nat) {
    && m'.roots == m.roots && m'.vma == m.vma && |m'.mem| == |m.mem|
    && UseShrinks(m'.owner, m.owner, e) && DataShrinks(AbsOf(m'), AbsOf(m))
  }

  lemma ShrinksOn(m2: Machine, m1: Machine, m: Machine, e: nat)
    requires Shrinks(m2, m1, e) && Shrinks(m1, m, e)
    ensures Shrinks(m2, m, e)
  {
  }

  /** After environment e is gone the free list holds what it held and exactly the frames that only
      e used. */
  lemma ExitFree(m: Machine, m': Machine, e: nat)
    requires Sound(m) && Sound(m') && |m'.ref| == |m.ref| && e !in m'.roots && UseShrinks(m'.owner, m.owner, e)
    requires m'.flat == Without(m.flat, e)
    ensures FreeSet(m') == FreeSet(m) + OnlyOf(m, e)
  {
    forall f | f in m.owner ensures f in m'.owner <==> f !in OnlyOf(m, e) {
      ExitUse(m, m', e, f);
    }
    FreeAre(m);
    FreeAre(m');
  }

  lemma FreeAre(m: Machine)
    requires Sound(m)
    ensures forall f: nat :: f in m.free <==> f < |m.ref| && f !in m.owner
    ensures forall f :: f in m.owner ==> f < |m.ref|
  {
    forall f | f in m.owner ensures f < |m.ref| {
      assert FrameOk(f, m.owner, m.ref, m.alloc, m.flat);
    }
    forall f: nat | f in m.free ensures f < |m.ref| && f !in m.owner {
      var i :| 0 <= i < |m.free| && m.free[i] == f;
      assert FreeFrame(m.free[i], m.owner, m.ref, m.alloc);
    }
  }

  lemma ExitUse(m: Machine, m': Machine, e: nat, f: nat)
    requires Sound(m) && Sound(m') && e !in m'.roots && UseShrinks(m'.owner, m.owner, e) && f in m.owner
    requires m'.flat == Without(m.flat, e)
    ensures f in m'.owner <==> !UsedOnlyBy(m.flat, m.owner[f], f, e)
  {
    forall l | l in m'.flat ensures m'.flat[l].num in m'.owner {
      assert DataOk(m'.flat[l], |m'.mem|, m'.owner);
    }
    if f in m'.owner {
      assert UseOk(m'.mem, m'.roots, m'.owner[f], f) && FrameOk(f, m'.owner, m'.ref, m'.alloc, m'.flat);
      if m.owner[f].Data? {
        var l :| l in Mappers(m'.flat, f);
        assert l in m.flat && m.flat[l].num == f && l.env != e;
      }
    } else if m.owner[f].Data? {
      assert forall l :: l in m.flat && l.env != e ==> l in m'.flat && m'.flat[l] == m.flat[l];
    }
  }
}
