/** Sharing pages at fork: which page tables the child needs, how far the free list goes, and what
    holds after some of the parent's pages are shared. */
module ForkShare {
  import opened Mmu
  import opened CowModel
  import opened CowSafety
  import opened FrameUse
  import opened PageWalk
  import opened ForkExit
  import opened TableGrowth

  /** Sharing page l needs a page table that the child does not have yet. */
  ghost predicate NeedsTable(m: Machine, l: Loc, child: nat)
    requires l.env in m.roots && child in m.roots
  {
    l.d in Dirs(m.mem, m.roots[l.env]) && l.d !in Dirs(m.mem, m.roots[child])
  }

  /** The machine after one page of the parent has been shared with the child. */
  ghost predicate PageShared(m: Machine, m': Machine, l: Loc, child: nat)
    requires l.env in m.roots && child in m.roots && |m.ref| > 0 && |m'.ref| > 0 && m'.roots == m.roots
  {
    && m'.vma == m.vma && AbsOf(m').data == AbsOf(m).data
    && m'.flat == (if l in m.flat then m.flat[l := Shared(m.flat[l])][Twin(l, child) := Shared(m.flat[l])] else m.flat)
    && (forall e :: e in m.roots && e != child ==> Dirs(m'.mem, m.roots[e]) == Dirs(m.mem, m.roots[e]))
    && Dirs(m'.mem, m.roots[child]) == Dirs(m.mem, m.roots[child]) + (if NeedsTable(m, l, child) then {l.d} else {})
    && |m'.free| == |m.free| - (if NeedsTable(m, l, child) then 1 else 0)
    && m'.ref[0] == m.ref[0] + (if l.d in Dirs(m.mem, m.roots[l.env]) && l !in m.flat then 1 else 0)
  }

  ghost function Seen(pages: seq<Loc>): set<Loc> {
    set l | l in pages
  }

  lemma SeenMore(seen: seq<Loc>, l: Loc)
    ensures Seen(seen + [l]) == Seen(seen) + {l}
  {
  }

  /** env_cpy_pgdir_cow after some pages: they are shared, and the child has the tables they need. */
  ghost predicate SharedUpTo(m: Machine, m': Machine, seen: seq<Loc>, parent: nat, child: nat)
    requires parent in m.roots && child in m.roots && |m.ref| > 0
  {
    && m'.roots == m.roots && m'.vma == m.vma && AbsOf(m').data == AbsOf(m).data && |m'.ref| > 0
    && m'.flat == ForkPart(m.flat, parent, child, Seen(seen))
    && TablesUpTo(m, m', seen, Dirs(m.mem, m.roots[parent]), Dirs(m.mem, m.roots[child]), parent, child)
  }

  ghost predicate TablesUpTo(m: Machine, m': Machine, seen: seq<Loc>, theirs: set<nat>, mine: set<nat>, parent: nat, child: nat)
    requires parent in m.roots && child in m.roots && |m.ref| > 0 && |m'.ref| > 0
  {
    && Dirs(m'.mem, m.roots[parent]) == theirs && Dirs(m'.mem, m.roots[child]) == mine + Needed(seen, theirs, mine)
    && |m'.free| == |m.free| - |Needed(seen, theirs, mine)|
    && m'.ref[0] == m.ref[0] + |AbsentUnder(seen, theirs, m.flat.Keys)|
  }

  /** A page not yet shared is as before the fork, and absent in the child. */
  lemma TwinAbsent(m: Machine, m1: Machine, seen: seq<Loc>, l: Loc, parent: nat, child: nat)
    requires parent in m.roots && child in m.roots && parent != child && |m.ref| > 0
    requires SharedUpTo(m, m1, seen, parent, child) && l !in seen && l.env == parent
    requires forall k :: k in m.flat ==> k.env != child
    ensures Twin(l, child) !in m1.flat && (l in m1.flat <==> l in m.flat) && (l in m.flat ==> m1.flat[l] == m.flat[l])
  {
    ForkPartAt(m.flat, parent, child, Seen(seen), l);
  }

  lemma Advance(m: Machine, m1: Machine, m2: Machine, seen: seq<Loc>, l: Loc, parent: nat, child: nat)
    requires parent in m.roots && child in m.roots && parent != child && |m.ref| > 0
    requires SharedUpTo(m, m1, seen, parent, child) && l !in seen && l.env == parent
    requires forall k :: k in m.flat ==> k.env != child
    requires |m2.ref| > 0 && m2.roots == m1.roots && PageShared(m1, m2, l, child)
    ensures SharedUpTo(m, m2, seen + [l], parent, child)
  {
    SeenMore(seen, l);
    ForkPartMore(m.flat, parent, child, Seen(seen), l, m1.flat, m2.flat);
    AdvanceTables(m, m1, m2, seen, l, Dirs(m.mem, m.roots[parent]), Dirs(m.mem, m.roots[child]), parent, child);
  }

  lemma AdvanceTables(m: Machine, m1: Machine, m2: Machine, seen: seq<Loc>, l: Loc, theirs: set<nat>, mine: set<nat>, parent: nat, child: nat)
    requires parent in m.roots && child in m.roots && parent != child && |m.ref| > 0 && |m1.ref| > 0 && |m2.ref| > 0
    requires TablesUpTo(m, m1, seen, theirs, mine, parent, child) && l !in seen && l.env == parent
    requires m1.roots == m.roots == m2.roots && (l in m1.flat <==> l in m.flat) && PageShared(m1, m2, l, child)
    ensures TablesUpTo(m, m2, seen + [l], theirs, mine, parent, child)
  {
    AdvanceCounts(seen, l, theirs, mine, Dirs(m1.mem, m.roots[child]), Dirs(m2.mem, m.roots[child]), |m.free|, |m1.free|, |m2.free|);
    AbsentStep(seen, l, theirs, m.flat.Keys);
  }

  /** The directory entries of the child and the length of the free list, over one page. */
  lemma AdvanceCounts(seen: seq<Loc>, l: Loc, theirs: set<nat>, mine: set<nat>, dirs1: set<nat>, dirs2: set<nat>, free: int, free1: int, free2: int)
    requires dirs1 == mine + Needed(seen, theirs, mine) && free1 == free - |Needed(seen, theirs, mine)|
    requires var need := l.d in theirs && l.d !in dirs1;
             dirs2 == dirs1 + (if need then {l.d} else {}) && free2 == free1 - (if need then 1 else 0)
    ensures dirs2 == mine + Needed(seen + [l], theirs, mine) && free2 == free - |Needed(seen + [l], theirs, mine)|
  {
    NeededStep(seen, l, theirs, mine);
  }

  lemma ShareNone(m: Machine, parent: nat, child: nat)
    requires parent in m.roots && child in m.roots && |m.ref| > 0
    ensures SharedUpTo(m, m, [], parent, child)
  {
    assert Seen([]) == {};
    ForkPartStart(m.flat, parent, child);
    var theirs, mine := Dirs(m.mem, m.roots[parent]), Dirs(m.mem, m.roots[child]);
    assert DirsOf([]) == {} && Needed([], theirs, mine) == {} && AbsentUnder([], theirs, m.flat.Keys) == {};
  }

  lemma ShareAll(m: Machine, m': Machine, pages: seq<Loc>, parent: nat, child: nat)
    requires parent in m.roots && child in m.roots && parent != child && |m.ref| > 0
    requires SharedUpTo(m, m', pages, parent, child)
    requires forall l :: l in m.flat ==> l.env != child && (l.env == parent ==> l in pages)
    ensures m'.flat == ForkEntries(m.flat, parent, child)
  {
    ForkPartEnd(m.flat, parent, child, Seen(pages));
  }

  /** The machine after env_setup_vm. */
  ghost predicate RootAdded(m: Machine, m': Machine, e: nat) {
    && (forall x :: x in m'.roots <==> x in m.roots || x == e) && m'.vma == m.vma && m'.flat == m.flat && |m'.free| == |m.free| - 1
    && |m.ref| > 0 && |m'.ref| > 0 && m'.ref[0] == m.ref[0]
    && (forall x :: x in m.roots && x != e ==> m'.roots[x] == m.roots[x] && Dirs(m'.mem, m.roots[x]) == Dirs(m.mem, m.roots[x]))
    && Dirs(m'.mem, m'.roots[e]) == {}
  }

  lemma SetupRoot(m: Machine, e: nat, page: Page)
    requires Sound(m) && e !in m.roots && m.free != [] && |page| == PAGE_WORDS && forall d :: 0 <= d < USER_PDES ==> page[d] == ZERO
    ensures m.free[0] < |m.mem| == |m.ref| == |m.alloc| && RootAdded(m, WithRoot(Allocated(m, ZeroPage()), e, m.free[0], page), e)
  {
    assert FreeFrame(m.free[0], m.owner, m.ref, m.alloc);
    forall x | x in m.roots ensures m.roots[x] != m.free[0] && m.roots[x] < |m.mem| {
      assert RootOk(m.mem, m.roots[x], m.owner, x);
    }
  }

  lemma PartView(s: State, s': State, p: nat, c: nat, done: set<Loc>)
    requires s'.pt == ForkPart(s.pt, p, c, done) && s'.data == s.data && forall l :: l in s.pt ==> l.env != c
    ensures forall l: Loc :: l.env != c ==> PageAt(s', l) == PageAt(s, l)
  {
    assert forall l: Loc :: l.env != c ==> l !in Copies(s.pt.Keys * done, p, c);
  }

  /** Sharing some of the parent's pages keeps every writable entry the only mapping of its frame. */
  lemma PartInv(m: Machine, m': Machine, p: nat, c: nat, done: set<Loc>)
    requires Sound(m) && Sound(m') && Inv(AbsOf(m)) && p != c && forall l :: l in m.vma ==> l.env != c
    requires m'.flat == ForkPart(m.flat, p, c, done) && m'.vma == ForkAreas(m.vma, p, c)
    ensures Inv(AbsOf(m'))
  {
    var s, s' := AbsOf(m), AbsOf(m');
    CountsExact(m');
    forall l | l in s.pt ensures l.env != c {
      assert EntryOk(l, s.pt[l], s.vma, s.ref);
    }
    forall l | l in s'.pt ensures EntryOk(l, s'.pt[l], s'.vma, s'.ref) {
      assert DataOk(m'.flat[l], |m'.mem|, m'.owner) && |m'.ref| == |m'.mem|;
      assert s'.pt[l].num in s'.ref;
      PartEntry(s, s', p, c, done, l);
    }
  }

  lemma CountsExact(m: Machine)
    requires Sound(m)
    ensures CountInv(AbsOf(m).pt, AbsOf(m).ref) && DataInv(AbsOf(m).ref, AbsOf(m).data)
  {
    var s := AbsOf(m);
    SameFrames(m);
    forall f | f in s.ref ensures CountOk(s.pt, s.ref, f) {
      assert FrameOk(f, m.owner, m.ref, m.alloc, m.flat);
    }
  }

  lemma PartEntry(s: State, s': State, p: nat, c: nat, done: set<Loc>, l: Loc)
    requires EntryInv(s.pt, s.vma, s.ref) && CountInv(s.pt, s.ref) && CountInv(s'.pt, s'.ref) && p != c && forall k :: k in s.pt ==> k.env != c
    requires s'.pt == ForkPart(s.pt, p, c, done) && s'.vma == ForkAreas(s.vma, p, c) && l in s'.pt && s'.pt[l].num in s'.ref
    requires forall k :: k in s.vma ==> k.env != c
    ensures EntryOk(l, s'.pt[l], s'.vma, s'.ref)
  {
    var n := s'.pt[l].num;
    var k := if l.env == c then Twin(l, p) else l;
    assert k in s.pt && s.pt[k].num == n;
    assert EntryOk(k, s.pt[k], s.vma, s.ref);
    assert l in s'.vma && s'.vma[l] == s.vma[k];
    if s'.pt[l].flags.w {
      assert k == l && s.pt[l].flags.w && (l.env == p ==> l !in done);
      assert CountOk(s.pt, s.ref, n) && CountOk(s'.pt, s'.ref, n);
      Sole(s.pt, n, l);
      PartSole(s.pt, p, c, done, l);
    }
  }

  /** The only mapping of a frame stays the only one unless its page is shared. */
  lemma PartSole(pt: map<Loc, Word>, p: nat, c: nat, done: set<Loc>, l: Loc)
    requires p != c && l in pt && l.env != c && (l.env == p ==> l !in done) && forall k :: k in pt ==> k.env != c
    requires forall k :: k in pt && k != l ==> pt[k].num != pt[l].num
    ensures Mappers(ForkPart(pt, p, c, done), pt[l].num) == {l}
  {
    var pt' := ForkPart(pt, p, c, done);
    forall k | k in pt' && pt'[k].num == pt[l].num ensures k == l {
      var j := if k.env == c then Twin(k, p) else k;
      assert j in pt && pt[j].num == pt'[k].num;
    }
  }

  lemma NeedsIff(m: Machine, l: Loc, child: nat)
    requires Sound(m) && InUser(m.roots, l) && child in m.roots
    ensures NeedsTable(m, l, child) <==> Pde(m.mem, m.roots[l.env], l).flags.p && !Pde(m.mem, m.roots[child], Twin(l, child)).flags.p
    ensures !Pde(m.mem, m.roots[l.env], l).flags.p ==> l !in m.flat && PageShared(m, m, l, child)
  {
    assert FlatAt(m.mem, m.roots, m.flat, l);
  }

  /** Creating the table first makes no difference to what is shared. */
  lemma GrownShared(m: Machine, m1: Machine, m2: Machine, l: Loc, child: nat)
    requires Sound(m) && InUser(m.roots, l) && child in m.roots && child != l.env && |m1.ref| > 0 && |m2.ref| > 0
    requires Pde(m.mem, m.roots[l.env], l).flags.p
    requires if NeedsTable(m, l, child) then CanTable(m, Twin(l, child)) && m1 == NewTable(m, Twin(l, child)) else m1 == m
    requires m2.roots == m1.roots && PageShared(m1, m2, l, child) && AbsOf(m1) == AbsOf(m)
    ensures PageShared(m, m2, l, child)
  {
    NeedsIff(m, l, child);
    if NeedsTable(m, l, child) {
      NewTableSound(m, Twin(l, child));
    }
  }

  /** The machine after page l is shared with the child. */
  lemma ShareSound(m: Machine, l: Loc, child: nat)
    requires Sound(m) && InUser(m.roots, l) && child in m.roots && child != l.env && l in m.flat && Twin(l, child) !in m.flat
    requires Pde(m.mem, m.roots[child], Twin(l, child)).flags.p
    ensures Pde(m.mem, m.roots[l.env], l).flags.p
    ensures var tp, tc, w, c := Pde(m.mem, m.roots[l.env], l).num, Pde(m.mem, m.roots[child], Twin(l, child)).num, Shared(m.flat[l]), Twin(l, child);
            && tp < |m.mem| && |m.mem[tp]| == PAGE_WORDS && m.mem[tp][l.t] == m.flat[l] && m.flat[l].flags.p
            && var m1 := WithPte(m, l, tp, w);
               && tc < |m1.mem| && |m1.mem[tc]| == PAGE_WORDS && w.num < |m1.ref| <= NUM_LIMIT && m1.mem[tp][l.t] == w
               && var m2 := Inserted(m1, c, tc, w.num, w.flags);
                  && Sound(m2) && AbsOf(m2).data == AbsOf(m).data && m2.flat == m.flat[l := w][c := w] && m2.ref[0] == m.ref[0]
                  && (forall e :: e in m.roots ==> Dirs(m2.mem, m.roots[e]) == Dirs(m.mem, m.roots[e]))
  {
    var tp, w, c := Pde(m.mem, m.roots[l.env], l).num, Shared(m.flat[l]), Twin(l, child);
    ShareClear(m, l, child);
    ShareInsert(WithPte(m, l, tp, w), c, w);
  }

  /** The first half: the parent's entry becomes read-only. */
  lemma ShareClear(m: Machine, l: Loc, child: nat)
    requires Sound(m) && InUser(m.roots, l) && child in m.roots && child != l.env && l in m.flat && Twin(l, child) !in m.flat
    requires Pde(m.mem, m.roots[child], Twin(l, child)).flags.p
    ensures Pde(m.mem, m.roots[l.env], l).flags.p
    ensures var tp, w, c := Pde(m.mem, m.roots[l.env], l).num, Shared(m.flat[l]), Twin(l, child);
            && tp < |m.mem| && |m.mem[tp]| == PAGE_WORDS && m.mem[tp][l.t] == m.flat[l] && m.flat[l].flags.p
            && var m1 := WithPte(m, l, tp, w);
               && Sound(m1) && m1.flat == m.flat[l := w] && c !in m1.flat && AbsOf(m1).data == AbsOf(m).data && m1.mem[tp][l.t] == w
               && Pde(m1.mem, m.roots[child], c) == Pde(m.mem, m.roots[child], c)
               && w.num in m.owner && m.owner[w.num] == Data && w.num < |m.mem|
               && (forall e :: e in m.roots ==> Dirs(m1.mem, m.roots[e]) == Dirs(m.mem, m.roots[e]))
  {
    DedupStart(m, l);
    ReflaggedSound(m, l, Shared(m.flat[l]));
    RootsApart(m, l);
  }

  /** The second half: the child gets an entry for a frame in use. */
  lemma ShareInsert(m: Machine, c: Loc, w: Word)
    requires Sound(m) && InUser(m.roots, c) && c !in m.flat && Pde(m.mem, m.roots[c.env], c).flags.p && w.flags.p
    requires w.num in m.owner && m.owner[w.num] == Data && w.num < |m.mem|
    ensures var tc := Pde(m.mem, m.roots[c.env], c).num;
            && tc < |m.mem| && |m.mem[tc]| == PAGE_WORDS && w.num < |m.ref| <= NUM_LIMIT
            && var m2 := Inserted(m, c, tc, w.num, w.flags);
               && Sound(m2) && AbsOf(m2).data == AbsOf(m).data && m2.flat == m.flat[c := w] && m2.ref[0] == m.ref[0]
               && (forall e :: e in m.roots ==> Dirs(m2.mem, m.roots[e]) == Dirs(m.mem, m.roots[e]))
  {
    InsertedSound(m, c, w.num, w.flags);
    RootsApart(m, c);
    assert FrameOk(w.num, m.owner, m.ref, m.alloc, m.flat);
    assert AbsOf(m).data[w.num := m.mem[w.num]] == AbsOf(m).data;
  }

  /** Directory indices of pages. */
  ghost function DirsOf(pages: seq<Loc>): set<nat> {
    set i | 0 <= i < |pages| :: pages[i].d
  }

  /** The directory indices among the pages where the parent has a table and the child has none. */
  ghost function Needed(pages: seq<Loc>, theirs: set<nat>, mine: set<nat>): set<nat> {
    DirsOf(pages) * theirs - mine
  }

  /** Pages that are absent although the parent has their page table: fork counts them as mappings of
      frame 0. */
  ghost function AbsentUnder(pages: seq<Loc>, theirs: set<nat>, present: set<Loc>): set<Loc> {
    set l | l in pages && l.d in theirs && l !in present
  }

  /** One page more: at most one table more, at most one absent page more. */
  lemma NeededStep(pages: seq<Loc>, l: Loc, theirs: set<nat>, mine: set<nat>)
    ensures var some := Needed(pages, theirs, mine); var more := Needed(pages + [l], theirs, mine);
            && more == some + (if l.d in theirs && l.d !in mine + some then {l.d} else {})
            && |more| == |some| + (if l.d in theirs && l.d !in mine + some then 1 else 0)
  {
    DirsOfMore(pages, l);
    OneMore(DirsOf(pages), l.d, theirs, mine);
  }

  lemma OneMore(dirs: set<nat>, d: nat, theirs: set<nat>, mine: set<nat>)
    ensures var some, more := dirs * theirs - mine, (dirs + {d}) * theirs - mine; var new_ := d in theirs && d !in mine + some;
            more == some + (if new_ then {d} else {}) && |more| == |some| + (if new_ then 1 else 0)
  {
    var some, more := dirs * theirs - mine, (dirs + {d}) * theirs - mine;
    if d in theirs && d !in mine + some {
      assert more == some + {d};
    } else {
      assert more == some;
    }
  }

  lemma AbsentStep(pages: seq<Loc>, l: Loc, theirs: set<nat>, present: set<Loc>)
    requires l !in pages
    ensures |AbsentUnder(pages + [l], theirs, present)|
         == |AbsentUnder(pages, theirs, present)| + (if l.d in theirs && l !in present then 1 else 0)
  {
    var some := AbsentUnder(pages, theirs, present);
    assert AbsentUnder(pages + [l], theirs, present) == some + (if l.d in theirs && l !in present then {l} else {});
  }

  lemma DirsOfMore(pages: seq<Loc>, l: Loc)
    ensures DirsOf(pages + [l]) == DirsOf(pages) + {l.d}
  {
    var more := pages + [l];
    forall d | d in DirsOf(pages) + {l.d} ensures d in DirsOf(more) {
      if d in DirsOf(pages) {
        var i :| 0 <= i < |pages| && pages[i].d == d;
        assert more[i].d == d;
      } else {
        assert more[|pages|].d == d;
      }
    }
  }

  /** A page table is needed that the pages before did not need: more are needed in all. */
  lemma NeededMore(pages: seq<Loc>, i: nat, theirs: set<nat>, mine: set<nat>)
    requires i < |pages| && pages[i].d in theirs && pages[i].d !in mine + Needed(pages[..i], theirs, mine)
    ensures |Needed(pages, theirs, mine)| > |Needed(pages[..i], theirs, mine)|
  {
    var some, all, d := Needed(pages[..i], theirs, mine), Needed(pages, theirs, mine), pages[i].d;
    forall x | x in DirsOf(pages[..i]) ensures x in DirsOf(pages) {
      var j :| 0 <= j < i && pages[..i][j].d == x;
      assert pages[j].d == x;
    }
    assert d in all && d !in some && some <= all;
    SmallerSet(some + {d}, all);
  }

  lemma {:induction false} SmallerSet<T>(a: set<T>, b: set<T>)
    requires a <= b
    ensures |a| <= |b|
  {
    if a != {} {
      var x :| x in a;
      SmallerSet(a - {x}, b - {x});
    }
  }

  lemma ForkStart(m: Machine, child: nat)
    requires Sound(m) && child !in m.roots && Inv(AbsOf(m))
    ensures forall l :: l in m.flat ==> l.env != child && l in m.vma && InUser(m.roots, l)
    ensures forall l :: l in m.vma ==> l.env != child
  {
    forall l | l in m.flat ensures l.env != child && l in m.vma && InUser(m.roots, l) {
      assert FlatAt(m.mem, m.roots, m.flat, l);
      assert EntryOk(l, AbsOf(m).pt[l], AbsOf(m).vma, AbsOf(m).ref);
    }
  }

  /** Each page of the parent's areas is there twice, with the same permissions; the child has no
      other pages, and no other area has changed. */
  ghost predicate AreasForked(vma: map<Loc, Flags>, vma': map<Loc, Flags>, p: nat, c: nat) {
    && (forall l :: l in vma && l.env == p ==> Twin(l, c) in vma' && vma'[Twin(l, c)] == vma[l])
    && (forall l :: l in vma' && l.env == c ==> Twin(l, p) in vma)
    && (forall l: Loc :: l.env != c ==> (l in vma' <==> l in vma) && (l in vma' ==> vma'[l] == vma[l]))
  }

  lemma AreasTwice(vma: map<Loc, Flags>, p: nat, c: nat)
    requires p != c && forall l :: l in vma ==> l.env != c
    ensures AreasForked(vma, ForkAreas(vma, p, c), p, c)
  {
    assert forall l: Loc :: l.env == p ==> Twin(Twin(l, c), p) == l;
  }

  lemma AreasSound(m: Machine, p: nat, c: nat)
    requires Sound(m) && c in m.roots
    ensures Sound(m.(vma := ForkAreas(m.vma, p, c)))
  {
    forall l | l in ForkAreas(m.vma, p, c) ensures InUser(m.roots, l) {
      if l !in m.vma {
        assert l in Copies(m.vma.Keys, p, c);
      }
    }
  }
}
