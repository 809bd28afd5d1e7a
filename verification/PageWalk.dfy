/** Two-level page tables inside physical memory, and the flat map they stand for.

    Tables are ordinary frames of words; nothing but the ownership invariant keeps them apart from
    each other and from user pages. */
module PageWalk {
  import opened Mmu
  import opened CowModel

  /** Page-directory entries below UTOP: PDX(0xEEC00000). */
  const USER_PDES: nat := 955

  /** What a frame is used for. Fresh: allocated, not yet mapped. Reserved: never given to page_alloc. */
  datatype Owner = Root(env: nat) | Table(env: nat, d: nat) | Data | Fresh | Reserved

  function At(mem: seq<Page>, f: nat, i: nat): Word {
    if f < |mem| && i < |mem[f]| then mem[f][i] else ZERO
  }

  /** The page-directory entry for page l. */
  function Pde(mem: seq<Page>, root: nat, l: Loc): Word {
    At(mem, root, l.d)
  }

  /** The page-table entry for page l, or zero where there is no table. */
  function Entry(mem: seq<Page>, root: nat, l: Loc): Word {
    if Pde(mem, root, l).flags.p then At(mem, Pde(mem, root, l).num, l.t) else ZERO
  }

  predicate InUser(roots: map<nat, nat>, l: Loc) {
    l.env in roots && l.d < USER_PDES && l.t < NENTRIES
  }

  /** Page l translates in the tables as in `flat`; an absent entry is zero. */
  predicate FlatAt(mem: seq<Page>, roots: map<nat, nat>, flat: map<Loc, Word>, l: Loc) {
    if !InUser(roots, l) then l !in flat
    else
      var w := Entry(mem, roots[l.env], l);
      if w.flags.p then l in flat && flat[l] == w else l !in flat && w == ZERO
  }

  /** `flat` is the map of present translations that the tables stand for. */
  ghost predicate FlatIs(mem: seq<Page>, roots: map<nat, nat>, flat: map<Loc, Word>) {
    forall l {:trigger FlatAt(mem, roots, flat, l)} :: FlatAt(mem, roots, flat, l)
  }

  /** The tables stand for one flat map only. */
  lemma FlatUnique(mem: seq<Page>, roots: map<nat, nat>, a: map<Loc, Word>, b: map<Loc, Word>)
    requires FlatIs(mem, roots, a) && FlatIs(mem, roots, b)
    ensures a == b
  {
    forall l ensures (l in a <==> l in b) && (l in a ==> a[l] == b[l]) {
      assert FlatAt(mem, roots, a, l) && FlatAt(mem, roots, b, l);
    }
  }

  /** The directory entries below UTOP that have a page table. */
  ghost function Dirs(mem: seq<Page>, root: nat): set<nat> {
    set d | 0 <= d < USER_PDES && At(mem, root, d).flags.p
  }

  /** The processor's check of a user access (section 5.6 of Intel SDM volume 3A): both levels must be
      present and grant user access, and writing as well for a store. */
  predicate UserMay(mem: seq<Page>, root: nat, l: Loc, store: bool) {
    var pde, pte := Pde(mem, root, l), Entry(mem, root, l);
    pde.flags.p && pde.flags.u && pte.flags.p && pte.flags.u && (store ==> pde.flags.w && pte.flags.w)
  }

  // ---------- no frame is used twice ----------

  predicate RootOk(mem: seq<Page>, root: nat, owner: map<nat, Owner>, e: nat) {
    root < |mem| && root in owner && owner[root] == Root(e)
  }

  predicate PdeOk(mem: seq<Page>, root: nat, owner: map<nat, Owner>, e: nat, d: nat) {
    var w := At(mem, root, d);
    w.flags.p ==> !w.flags.ps && w.flags.w && w.flags.u && w.num < |mem| && w.num in owner && owner[w.num] == Table(e, d)
  }

  /** A frame called a directory or a table is one that its environment uses. */
  predicate UseOk(mem: seq<Page>, roots: map<nat, nat>, o: Owner, f: nat) {
    match o
    case Root(e) => e in roots && roots[e] == f
    case Table(e, d) => e in roots && d < USER_PDES && At(mem, roots[e], d).flags.p && At(mem, roots[e], d).num == f
    case _ => true
  }

  /** Directories and tables are exactly where the ownership map says, and translate as `flat` says. */
  ghost predicate TablesOk(mem: seq<Page>, roots: map<nat, nat>, owner: map<nat, Owner>, flat: map<Loc, Word>) {
    && (forall f :: 0 <= f < |mem| ==> |mem[f]| == PAGE_WORDS)
    && (forall e {:trigger RootOk(mem, roots[e], owner, e)} :: e in roots ==> RootOk(mem, roots[e], owner, e))
    && (forall e, d {:trigger PdeOk(mem, roots[e], owner, e, d)} ::
          e in roots && 0 <= d < USER_PDES ==> PdeOk(mem, roots[e], owner, e, d))
    && (forall f {:trigger UseOk(mem, roots, owner[f], f)} :: f in owner ==> UseOk(mem, roots, owner[f], f))
    && FlatIs(mem, roots, flat)
  }

  predicate DataOk(w: Word, size: nat, owner: map<nat, Owner>) {
    w.flags.p && w.num < size && w.num in owner && owner[w.num] == Data
  }

  /** Every translation leads to a user page. */
  ghost predicate LeavesOk(flat: map<Loc, Word>, size: nat, owner: map<nat, Owner>) {
    forall l {:trigger DataOk(flat[l], size, owner)} :: l in flat ==> DataOk(flat[l], size, owner)
  }

  /** The tables keep their places under a change of ownership that leaves roots and tables alone. */
  lemma OtherOwner(mem: seq<Page>, roots: map<nat, nat>, owner: map<nat, Owner>, owner': map<nat, Owner>, flat: map<Loc, Word>)
    requires TablesOk(mem, roots, owner, flat)
    requires forall f :: f in owner && (owner[f].Root? || owner[f].Table?) ==> f in owner' && owner'[f] == owner[f]
    requires forall f :: f in owner' && (owner'[f].Root? || owner'[f].Table?) ==> f in owner && owner'[f] == owner[f]
    ensures TablesOk(mem, roots, owner', flat)
  {
    forall f | f in owner' ensures UseOk(mem, roots, owner'[f], f) {
      assert f in owner ==> UseOk(mem, roots, owner[f], f);
    }
    forall e | e in roots ensures RootOk(mem, roots[e], owner', e) {
      assert RootOk(mem, roots[e], owner, e);
    }
    forall e, d | e in roots && 0 <= d < USER_PDES ensures PdeOk(mem, roots[e], owner', e, d) {
      assert PdeOk(mem, roots[e], owner, e, d);
    }
  }

  /** What the processor grants at page l is what the flat entry grants: no table restricts it. */
  lemma AccessExact(mem: seq<Page>, roots: map<nat, nat>, owner: map<nat, Owner>, flat: map<Loc, Word>, l: Loc, store: bool)
    requires TablesOk(mem, roots, owner, flat) && InUser(roots, l)
    ensures UserMay(mem, roots[l.env], l, store) <==> l in flat && flat[l].flags.u && (store ==> flat[l].flags.w)
  {
    assert FlatAt(mem, roots, flat, l) && PdeOk(mem, roots[l.env], owner, l.env, l.d);
  }

  /** Changing a frame that is neither a root nor a table changes no translation. */
  lemma DataEdit(mem: seq<Page>, roots: map<nat, nat>, owner: map<nat, Owner>, flat: map<Loc, Word>, f: nat, page: Page)
    requires TablesOk(mem, roots, owner, flat) && f < |mem| && |page| == PAGE_WORDS
    requires f in owner ==> !owner[f].Root? && !owner[f].Table?
    ensures TablesOk(mem[f := page], roots, owner, flat)
  {
    var mem' := mem[f := page];
    forall g | g in owner ensures UseOk(mem', roots, owner[g], g) {
      assert UseOk(mem, roots, owner[g], g);
      assert owner[g].Table? ==> RootOk(mem, roots[owner[g].env], owner, owner[g].env);
    }
    forall e | e in roots ensures RootOk(mem', roots[e], owner, e) {
      assert RootOk(mem, roots[e], owner, e);
    }
    forall e, d | e in roots && 0 <= d < USER_PDES ensures PdeOk(mem', roots[e], owner, e, d) {
      assert RootOk(mem, roots[e], owner, e) && PdeOk(mem, roots[e], owner, e, d);
    }
    forall l ensures FlatAt(mem', roots, flat, l) {
      assert FlatAt(mem, roots, flat, l);
      if InUser(roots, l) {
        assert RootOk(mem, roots[l.env], owner, l.env) && PdeOk(mem, roots[l.env], owner, l.env, l.d);
      }
    }
  }

  /** The flat map after writing one entry. */
  function Set(flat: map<Loc, Word>, l: Loc, w: Word): map<Loc, Word> {
    if w.flags.p then flat[l := w] else flat - {l}
  }

  /** Writing one page-table entry changes the translation of one page and of no other. */
  lemma SetLeaf(mem: seq<Page>, roots: map<nat, nat>, owner: map<nat, Owner>, flat: map<Loc, Word>, l: Loc, w: Word)
    requires TablesOk(mem, roots, owner, flat) && InUser(roots, l) && Pde(mem, roots[l.env], l).flags.p
    requires w.flags.p || w == ZERO
    ensures var t := Pde(mem, roots[l.env], l).num;
            && t < |mem| && |mem[t]| == PAGE_WORDS && t in owner && owner[t] == Table(l.env, l.d)
            && TablesOk(mem[t := mem[t][l.t := w]], roots, owner, Set(flat, l, w))
  {
    assert PdeOk(mem, roots[l.env], owner, l.env, l.d);
    var t := Pde(mem, roots[l.env], l).num;
    var mem' := mem[t := mem[t][l.t := w]];
    forall g | g in owner ensures UseOk(mem', roots, owner[g], g) {
      assert UseOk(mem, roots, owner[g], g);
      assert owner[g].Table? ==> RootOk(mem, roots[owner[g].env], owner, owner[g].env);
    }
    forall e | e in roots ensures RootOk(mem', roots[e], owner, e) {
      assert RootOk(mem, roots[e], owner, e);
    }
    forall e, d | e in roots && 0 <= d < USER_PDES ensures PdeOk(mem', roots[e], owner, e, d) {
      assert RootOk(mem, roots[e], owner, e) && PdeOk(mem, roots[e], owner, e, d);
    }
    forall m ensures FlatAt(mem', roots, Set(flat, l, w), m) {
      assert FlatAt(mem, roots, flat, m);
      if InUser(roots, m) {
        assert RootOk(mem, roots[m.env], owner, m.env) && PdeOk(mem, roots[m.env], owner, m.env, m.d);
      }
    }
  }

  /** Installing a zeroed frame as a page table adds no translation. */
  lemma AddTable(mem: seq<Page>, roots: map<nat, nat>, owner: map<nat, Owner>, flat: map<Loc, Word>,
                 e: nat, d: nat, f: nat, w: Word)
    requires TablesOk(mem, roots, owner, flat) && e in roots && d < USER_PDES
    requires !At(mem, roots[e], d).flags.p
    requires f < |mem| && mem[f] == ZeroPage() && (f in owner ==> owner[f] == Fresh)
    requires w.num == f && w.flags.p && !w.flags.ps && w.flags.w && w.flags.u
    ensures roots[e] < |mem| && |mem[roots[e]]| == PAGE_WORDS && roots[e] in owner && owner[roots[e]] == Root(e)
    ensures TablesOk(mem[roots[e] := mem[roots[e]][d := w]], roots, owner[f := Table(e, d)], flat)
  {
    assert RootOk(mem, roots[e], owner, e);
    var mem', owner' := mem[roots[e] := mem[roots[e]][d := w]], owner[f := Table(e, d)];
    forall g | g in owner' ensures UseOk(mem', roots, owner'[g], g) {
      assert g != f ==> UseOk(mem, roots, owner[g], g);
      assert g != f && owner[g].Table? ==> RootOk(mem, roots[owner[g].env], owner, owner[g].env);
    }
    forall a | a in roots
      ensures RootOk(mem', roots[a], owner', a) && (a != e ==> roots[a] != roots[e])
    {
      assert RootOk(mem, roots[a], owner, a);
    }
    forall a, b | a in roots && 0 <= b < USER_PDES ensures PdeOk(mem', roots[a], owner', a, b) {
      assert PdeOk(mem, roots[a], owner, a, b);
    }
    forall m ensures FlatAt(mem', roots, flat, m) {
      assert FlatAt(mem, roots, flat, m);
      if InUser(roots, m) {
        assert PdeOk(mem, roots[m.env], owner, m.env, m.d);
      }
    }
  }

  /** Removing a page table whose entries are all absent removes no translation. */
  lemma DropTable(mem: seq<Page>, roots: map<nat, nat>, owner: map<nat, Owner>, flat: map<Loc, Word>, e: nat, d: nat)
    requires TablesOk(mem, roots, owner, flat) && e in roots && d < USER_PDES && At(mem, roots[e], d).flags.p
    requires forall t :: 0 <= t < NENTRIES ==> Loc(e, d, t) !in flat
    ensures roots[e] < |mem| && |mem[roots[e]]| == PAGE_WORDS && roots[e] in owner && owner[roots[e]] == Root(e)
    ensures var t := At(mem, roots[e], d).num;
            && t < |mem| && t in owner && owner[t] == Table(e, d)
            && TablesOk(mem[roots[e] := mem[roots[e]][d := ZERO]], roots, owner - {t}, flat)
  {
    assert RootOk(mem, roots[e], owner, e) && PdeOk(mem, roots[e], owner, e, d);
    var t := At(mem, roots[e], d).num;
    var mem', owner' := mem[roots[e] := mem[roots[e]][d := ZERO]], owner - {t};
    forall g | g in owner' ensures UseOk(mem', roots, owner'[g], g) {
      assert UseOk(mem, roots, owner[g], g);
      assert owner[g].Table? ==> RootOk(mem, roots[owner[g].env], owner, owner[g].env);
    }
    forall a | a in roots
      ensures RootOk(mem', roots[a], owner', a) && (a != e ==> roots[a] != roots[e])
    {
      assert RootOk(mem, roots[a], owner, a);
    }
    forall a, b | a in roots && 0 <= b < USER_PDES ensures PdeOk(mem', roots[a], owner', a, b) {
      assert PdeOk(mem, roots[a], owner, a, b);
    }
    forall m ensures FlatAt(mem', roots, flat, m) {
      assert FlatAt(mem, roots, flat, m);
      if InUser(roots, m) {
        assert PdeOk(mem, roots[m.env], owner, m.env, m.d);
        assert m.env == e && m.d == d ==> m == Loc(e, d, m.t);
      }
    }
  }

  /** A page directory without user entries adds no translation. */
  lemma AddRoot(mem: seq<Page>, roots: map<nat, nat>, owner: map<nat, Owner>, flat: map<Loc, Word>, e: nat, f: nat)
    requires TablesOk(mem, roots, owner, flat) && e !in roots && f < |mem| && (f in owner ==> owner[f] == Fresh)
    requires forall d :: 0 <= d < USER_PDES ==> At(mem, f, d) == ZERO
    ensures TablesOk(mem, roots[e := f], owner[f := Root(e)], flat)
  {
    var roots', owner' := roots[e := f], owner[f := Root(e)];
    forall g | g in owner' ensures UseOk(mem, roots', owner'[g], g) {
      assert g != f ==> UseOk(mem, roots, owner[g], g);
    }
    forall a | a in roots' ensures RootOk(mem, roots'[a], owner', a) {
      assert a != e ==> RootOk(mem, roots[a], owner, a);
    }
    forall a, b | a in roots' && 0 <= b < USER_PDES ensures PdeOk(mem, roots'[a], owner', a, b) {
      assert a != e ==> PdeOk(mem, roots[a], owner, a, b);
    }
    forall m ensures FlatAt(mem, roots', flat, m) {
      assert FlatAt(mem, roots, flat, m);
      assert m.env == e && m.d < USER_PDES ==> At(mem, f, m.d) == ZERO;
    }
  }

  /** Dropping a page directory without present user entries drops no translation. */
  lemma DropRoot(mem: seq<Page>, roots: map<nat, nat>, owner: map<nat, Owner>, flat: map<Loc, Word>, e: nat)
    requires TablesOk(mem, roots, owner, flat) && e in roots
    requires forall d :: 0 <= d < USER_PDES ==> !At(mem, roots[e], d).flags.p
    ensures roots[e] < |mem| && roots[e] in owner && owner[roots[e]] == Root(e)
    ensures TablesOk(mem, roots - {e}, owner - {roots[e]}, flat)
  {
    assert RootOk(mem, roots[e], owner, e);
    var roots', owner' := roots - {e}, owner - {roots[e]};
    forall g | g in owner' ensures UseOk(mem, roots', owner'[g], g) {
      assert UseOk(mem, roots, owner[g], g);
    }
    forall a | a in roots' ensures RootOk(mem, roots'[a], owner', a) {
      assert RootOk(mem, roots[a], owner, a);
    }
    forall a, b | a in roots' && 0 <= b < USER_PDES ensures PdeOk(mem, roots'[a], owner', a, b) {
      assert PdeOk(mem, roots[a], owner, a, b);
    }
    forall m ensures FlatAt(mem, roots', flat, m) {
      assert FlatAt(mem, roots, flat, m);
      assert m.env == e && m.d < USER_PDES ==> !At(mem, roots[e], m.d).flags.p;
    }
  }
}
