/** pgdir_walk's new page tables, and what a present page looks like in memory. */
module TableGrowth {
  import opened Mmu
  import opened CowModel
  import opened CowSafety
  import opened FrameUse
  import opened PageWalk

  const TABLE_FLAGS := NO_FLAGS.(p := true, w := true, u := true)

  /** The page behind a present entry is a user page with an exact count. */
  lemma DedupStart(m: Machine, l: Loc)
    requires Sound(m) && l in m.flat
    ensures var n := m.flat[l].num;
            && m.flat[l].flags.p && n < |m.ref| == |m.mem| && n in m.owner && m.owner[n] == Data && m.ref[n] > 0
            && n in AbsOf(m).ref && n in AbsOf(m).data && AbsOf(m).ref[n] == m.ref[n] && AbsOf(m).data[n] == m.mem[n]
    ensures InUser(m.roots, l) && Pde(m.mem, m.roots[l.env], l).flags.p
    ensures var t := Pde(m.mem, m.roots[l.env], l).num; t < |m.mem| && |m.mem[t]| == PAGE_WORDS && m.mem[t][l.t] == m.flat[l]
  {
    assert DataOk(m.flat[l], |m.mem|, m.owner) && FrameOk(m.flat[l].num, m.owner, m.ref, m.alloc, m.flat);
    assert FlatAt(m.mem, m.roots, m.flat, l);
    assert PdeOk(m.mem, m.roots[l.env], m.owner, l.env, l.d);
  }

  /** The page table of a page is no directory, and its frames are not frame 0. */
  lemma RootsApart(m: Machine, l: Loc)
    requires Sound(m) && InUser(m.roots, l) && Pde(m.mem, m.roots[l.env], l).flags.p
    ensures forall e :: e in m.roots ==> m.roots[e] < |m.mem| && m.roots[e] != Pde(m.mem, m.roots[l.env], l).num
    ensures forall k :: k in m.flat ==> m.flat[k].num != 0
  {
    assert PdeOk(m.mem, m.roots[l.env], m.owner, l.env, l.d);
    forall e | e in m.roots ensures m.roots[e] < |m.mem| && m.roots[e] != Pde(m.mem, m.roots[l.env], l).num {
      assert RootOk(m.mem, m.roots[e], m.owner, e);
    }
    forall k | k in m.flat ensures m.flat[k].num != 0 {
      assert DataOk(m.flat[k], |m.mem|, m.owner) && FrameOk(m.flat[k].num, m.owner, m.ref, m.alloc, m.flat);
    }
  }

  ghost predicate CanTable(m: Machine, l: Loc) {
    && m.free != [] && m.free[0] < |m.mem| && m.free[0] < |m.alloc| && m.free[0] < |m.ref| <= NUM_LIMIT && l.d < USER_PDES
    && l.env in m.roots && m.roots[l.env] < |m.mem| && m.roots[l.env] != m.free[0] && |m.mem[m.roots[l.env]]| == PAGE_WORDS
  }

  /** The head of the free list becomes the page table for page l. */
  ghost function NewTable(m: Machine, l: Loc): Machine
    requires CanTable(m, l)
  {
    WithTable(Allocated(m, ZeroPage()), l.env, l.d, m.free[0], Word(m.free[0], TABLE_FLAGS))
  }

  lemma NewTableSound(m: Machine, l: Loc)
    requires Sound(m) && InUser(m.roots, l) && !Pde(m.mem, m.roots[l.env], l).flags.p && m.free != []
    ensures CanTable(m, l) && Sound(NewTable(m, l)) && AbsOf(NewTable(m, l)) == AbsOf(m)
    ensures var t := m.free[0]; t != 0 && t !in m.owner && Pde(NewTable(m, l).mem, m.roots[l.env], l) == Word(t, TABLE_FLAGS)
    ensures var m' := NewTable(m, l);
            && m'.free == m.free[1..] && m'.ref[0] == m.ref[0] && Dirs(m'.mem, m.roots[l.env]) == Dirs(m.mem, m.roots[l.env]) + {l.d}
            && (forall e :: e in m.roots && e != l.env ==> Dirs(m'.mem, m.roots[e]) == Dirs(m.mem, m.roots[e]))
  {
    assert RootOk(m.mem, m.roots[l.env], m.owner, l.env);
    AllocatedSound(m, ZeroPage());
    var m1, t := Allocated(m, ZeroPage()), m.free[0];
    assert FreeFrame(m.free[0], m.owner, m.ref, m.alloc);
    assert m1.mem[m.roots[l.env]] == m.mem[m.roots[l.env]];
    WithTableSound(m1, l.env, l.d, t, Word(t, TABLE_FLAGS));
    var m' := NewTable(m, l);
    forall e | e in m.roots && e != l.env ensures Dirs(m'.mem, m.roots[e]) == Dirs(m.mem, m.roots[e]) {
      assert RootOk(m.mem, m.roots[e], m.owner, e);
      assert m'.mem[m.roots[e]] == m.mem[m.roots[e]];
    }
  }

  /** A walk that may create a table leaves the frames of user pages alone. */
  lemma WalkKeeps(m: Machine, l: Loc, f: nat)
    requires Sound(m) && InUser(m.roots, l) && f in m.owner && (m.owner[f] == Data || m.owner[f] == Fresh) && f < |m.mem|
    ensures !Pde(m.mem, m.roots[l.env], l).flags.p && m.free != [] ==>
              CanTable(m, l) && var m' := NewTable(m, l); f in m'.owner && m'.owner[f] == m.owner[f] && m'.mem[f] == m.mem[f]
  {
    assert RootOk(m.mem, m.roots[l.env], m.owner, l.env);
    if !Pde(m.mem, m.roots[l.env], l).flags.p && m.free != [] {
      NewTableSound(m, l);
      NewTableKeeps(m, l, f);
    }
  }

  /** A new table leaves every other frame in use alone. */
  lemma NewTableKeeps(m: Machine, l: Loc, f: nat)
    requires CanTable(m, l) && m.free[0] !in m.owner && f in m.owner && f != m.roots[l.env] && f < |m.mem|
    ensures var m' := NewTable(m, l); f in m'.owner && m'.owner[f] == m.owner[f] && m'.mem[f] == m.mem[f]
  {
  }
}
