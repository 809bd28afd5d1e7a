/** Reference counts and the free list of physical frames, as predicates over the kernel's arrays,
    and how each elementary change keeps them. */
module FrameUse {
  import opened Mmu
  import opened CowModel
  import opened PageWalk

  /** pp_ref of a frame, by its use: one for tables and directories, one per present entry for
      user pages. */
  predicate RefOk(o: Owner, n: nat, mappers: set<Loc>) {
    match o
    case Root(_) => n == 1
    case Table(_, _) => n == 1
    case Data => n == |mappers| && n > 0
    case Fresh => n == 0
    case Reserved => true
  }

  predicate FrameOk(f: nat, owner: map<nat, Owner>, ref: seq<nat>, alloc: seq<bool>, flat: map<Loc, Word>)
    requires f in owner
  {
    && f < |ref| && f < |alloc| && RefOk(owner[f], ref[f], Mappers(flat, f))
    && (!owner[f].Reserved? ==> 0 < f && alloc[f])
  }

  ghost predicate RefsOk(owner: map<nat, Owner>, ref: seq<nat>, alloc: seq<bool>, flat: map<Loc, Word>) {
    |alloc| == |ref| && forall f {:trigger FrameOk(f, owner, ref, alloc, flat)} ::
      f in owner ==> FrameOk(f, owner, ref, alloc, flat)
  }

  predicate FreeFrame(f: nat, owner: map<nat, Owner>, ref: seq<nat>, alloc: seq<bool>) {
    0 < f < |ref| && f < |alloc| && f !in owner && !alloc[f] && ref[f] == 0
  }

  /** page_free_list, head first: the unowned frames, each of them once. */
  ghost predicate FreeOk(free: seq<nat>, owner: map<nat, Owner>, ref: seq<nat>, alloc: seq<bool>) {
    && (forall i {:trigger FreeFrame(free[i], owner, ref, alloc)} ::
          0 <= i < |free| ==> FreeFrame(free[i], owner, ref, alloc))
    && (forall i, j :: 0 <= i < j < |free| ==> free[i] != free[j])
    && (forall f: nat :: f < |ref| ==> f in owner || f in free)
  }

  /** All of physical memory and its bookkeeping, with the use of each frame and the translations
      that the tables stand for. */
  datatype Machine = Machine(mem: seq<Page>, ref: seq<nat>, alloc: seq<bool>, free: seq<nat>,
                             roots: map<nat, nat>, vma: map<Loc, Flags>,
                             owner: map<nat, Owner>, flat: map<Loc, Word>)

  ghost predicate Sound(m: Machine) {
    && 0 < |m.mem| == |m.ref| <= NUM_LIMIT
    && TablesOk(m.mem, m.roots, m.owner, m.flat)
    && LeavesOk(m.flat, |m.mem|, m.owner)
    && RefsOk(m.owner, m.ref, m.alloc, m.flat)
    && FreeOk(m.free, m.owner, m.ref, m.alloc)
    && (forall l :: l in m.vma ==> InUser(m.roots, l))
  }

  predicate IsUser(owner: map<nat, Owner>, f: nat, size: nat) {
    f in owner && owner[f].Data? && f < size
  }

  ghost function UserRefs(owner: map<nat, Owner>, ref: seq<nat>): map<nat, nat> {
    map f | f in owner && IsUser(owner, f, |ref|) :: if IsUser(owner, f, |ref|) then ref[f] else 0
  }

  ghost function UserData(owner: map<nat, Owner>, mem: seq<Page>): map<nat, Page> {
    map f | f in owner && IsUser(owner, f, |mem|) :: if IsUser(owner, f, |mem|) then mem[f] else []
  }

  /** The copy-on-write state that memory stands for. */
  ghost function AbsOf(m: Machine): State {
    State(m.flat, m.vma, UserRefs(m.owner, m.ref), UserData(m.owner, m.mem))
  }

  // ---------- allocation ----------

  ghost function Allocated(m: Machine, page: Page): Machine
    requires m.free != [] && m.free[0] < |m.mem| && m.free[0] < |m.alloc|
  {
    var f := m.free[0];
    m.(mem := m.mem[f := page], free := m.free[1..], alloc := m.alloc[f := true], owner := m.owner[f := Fresh])
  }

  /** Taking the head of the free list, with any new contents, changes no user page. */
  lemma AllocatedSound(m: Machine, page: Page)
    requires Sound(m) && m.free != [] && |page| == PAGE_WORDS
    ensures var f := m.free[0];
            0 < f < |m.mem| && f < |m.alloc| && f !in m.owner
            && Sound(Allocated(m, page)) && AbsOf(Allocated(m, page)) == AbsOf(m)
  {
    var f := m.free[0];
    assert FreeFrame(m.free[0], m.owner, m.ref, m.alloc);
    var m' := Allocated(m, page);
    DataEdit(m.mem, m.roots, m.owner, m.flat, f, page);
    OtherOwner(m'.mem, m.roots, m.owner, m'.owner, m.flat);
    LeavesKeep(m.flat, |m.mem|, m.owner, m'.owner);
    forall g | g in m'.owner ensures FrameOk(g, m'.owner, m'.ref, m'.alloc, m'.flat) {
      assert g != f ==> FrameOk(g, m.owner, m.ref, m.alloc, m.flat);
    }
    forall i | 0 <= i < |m'.free| ensures FreeFrame(m'.free[i], m'.owner, m'.ref, m'.alloc) {
      assert FreeFrame(m.free[i + 1], m.owner, m.ref, m.alloc);
    }
    OtherUse(m.owner, f, Fresh, m.ref, m.mem, page);
  }

  lemma LeavesKeep(flat: map<Loc, Word>, size: nat, owner: map<nat, Owner>, owner': map<nat, Owner>)
    requires LeavesOk(flat, size, owner)
    requires forall f :: f in owner && owner[f] == Data ==> f in owner' && owner'[f] == Data
    ensures LeavesOk(flat, size, owner')
  {
    forall l | l in flat ensures DataOk(flat[l], size, owner') {
      assert DataOk(flat[l], size, owner);
    }
  }

  /** A frame that is not a user page before or after leaves the user pages alone. */
  lemma OtherUse(owner: map<nat, Owner>, f: nat, o: Owner, ref: seq<nat>, mem: seq<Page>, page: Page)
    requires (f in owner ==> !owner[f].Data?) && !o.Data? && f < |mem|
    ensures UserRefs(owner[f := o], ref) == UserRefs(owner, ref)
    ensures UserData(owner[f := o], mem[f := page]) == UserData(owner, mem)
  {
  }

  // ---------- tables and directories ----------

  /** A fresh frame counted once and used as a table or directory. */
  lemma CountedOnce(m: Machine, f: nat, o: Owner)
    requires Sound(m) && f in m.owner && m.owner[f] == Fresh && (o.Table? || o.Root?)
    ensures f < |m.ref|
    ensures RefsOk(m.owner[f := o], m.ref[f := m.ref[f] + 1], m.alloc, m.flat)
    ensures FreeOk(m.free, m.owner[f := o], m.ref[f := m.ref[f] + 1], m.alloc)
    ensures LeavesOk(m.flat, |m.mem|, m.owner[f := o])
    ensures UserRefs(m.owner[f := o], m.ref[f := m.ref[f] + 1]) == UserRefs(m.owner, m.ref)
    ensures UserData(m.owner[f := o], m.mem) == UserData(m.owner, m.mem)
  {
    assert FrameOk(f, m.owner, m.ref, m.alloc, m.flat);
    var owner', ref' := m.owner[f := o], m.ref[f := m.ref[f] + 1];
    LeavesKeep(m.flat, |m.mem|, m.owner, owner');
    forall g | g in owner' ensures FrameOk(g, owner', ref', m.alloc, m.flat) {
      assert FrameOk(g, m.owner, m.ref, m.alloc, m.flat);
    }
    forall i | 0 <= i < |m.free| ensures FreeFrame(m.free[i], owner', ref', m.alloc) {
      assert FreeFrame(m.free[i], m.owner, m.ref, m.alloc);
    }
  }

  /** Rewriting a frame that is not a user page. */
  lemma TableWrite(owner: map<nat, Owner>, mem: seq<Page>, t: nat, table: Page)
    requires t < |mem| && (t in owner ==> !owner[t].Data?)
    ensures UserData(owner, mem[t := table]) == UserData(owner, mem)
  {
  }

  ghost function WithTable(m: Machine, e: nat, d: nat, f: nat, w: Word): Machine
    requires e in m.roots && m.roots[e] < |m.mem| && |m.mem[m.roots[e]]| == PAGE_WORDS && d < USER_PDES && f < |m.ref|
  {
    m.(mem := m.mem[m.roots[e] := m.mem[m.roots[e]][d := w]],
       ref := m.ref[f := m.ref[f] + 1], owner := m.owner[f := Table(e, d)])
  }

  /** pgdir_walk's new table: no translation and no user page changes. */
  lemma WithTableSound(m: Machine, e: nat, d: nat, f: nat, w: Word)
    requires Sound(m) && e in m.roots && d < USER_PDES && !At(m.mem, m.roots[e], d).flags.p
    requires f in m.owner && m.owner[f] == Fresh && f < |m.mem| && m.mem[f] == ZeroPage()
    requires w.num == f && w.flags.p && !w.flags.ps && w.flags.w && w.flags.u
    ensures m.roots[e] < |m.mem| && |m.mem[m.roots[e]]| == PAGE_WORDS && f < |m.ref|
    ensures Sound(WithTable(m, e, d, f, w)) && AbsOf(WithTable(m, e, d, f, w)) == AbsOf(m)
  {
    AddTable(m.mem, m.roots, m.owner, m.flat, e, d, f, w);
    CountedOnce(m, f, Table(e, d));
    TableWrite(m.owner[f := Table(e, d)], m.mem, m.roots[e], m.mem[m.roots[e]][d := w]);
  }

  ghost function WithRoot(m: Machine, e: nat, f: nat, page: Page): Machine
    requires f < |m.mem| && f < |m.ref|
  {
    m.(mem := m.mem[f := page], ref := m.ref[f := m.ref[f] + 1], roots := m.roots[e := f],
       owner := m.owner[f := Root(e)])
  }

  /** env_setup_vm's directory: no translation and no user page changes. */
  lemma WithRootSound(m: Machine, e: nat, f: nat, page: Page)
    requires Sound(m) && e !in m.roots && f in m.owner && m.owner[f] == Fresh && f < |m.mem|
    requires |page| == PAGE_WORDS && forall d :: 0 <= d < USER_PDES ==> page[d] == ZERO
    ensures f < |m.ref| && Sound(WithRoot(m, e, f, page)) && AbsOf(WithRoot(m, e, f, page)) == AbsOf(m)
  {
    var mem' := m.mem[f := page];
    DataEdit(m.mem, m.roots, m.owner, m.flat, f, page);
    assert forall d :: 0 <= d < USER_PDES ==> At(mem', f, d) == ZERO;
    AddRoot(mem', m.roots, m.owner, m.flat, e, f);
    CountedOnce(m, f, Root(e));
    TableWrite(m.owner[f := Root(e)], m.mem, f, page);
  }

  // ---------- giving a frame back ----------

  /** A frame whose count drops to zero goes back to the head of the free list. */
  ghost function Released(m: Machine, n: nat): Machine
    requires n < |m.ref| == |m.alloc|
  {
    m.(ref := m.ref[n := 0], alloc := m.alloc[n := false], free := [n] + m.free, owner := m.owner - {n})
  }

  lemma ReleasedCounts(m: Machine, n: nat, flat': map<Loc, Word>)
    requires RefsOk(m.owner, m.ref, m.alloc, m.flat) && FreeOk(m.free, m.owner, m.ref, m.alloc)
    requires n in m.owner && !m.owner[n].Reserved? && n < |m.ref|
    requires forall g :: g in m.owner && g != n ==> Mappers(flat', g) == Mappers(m.flat, g)
    ensures var m' := Released(m, n);
            RefsOk(m'.owner, m'.ref, m'.alloc, flat') && FreeOk(m'.free, m'.owner, m'.ref, m'.alloc)
  {
    var m' := Released(m, n);
    assert FrameOk(n, m.owner, m.ref, m.alloc, m.flat);
    forall g | g in m'.owner ensures FrameOk(g, m'.owner, m'.ref, m'.alloc, flat') {
      assert FrameOk(g, m.owner, m.ref, m.alloc, m.flat);
    }
    forall i | 0 <= i < |m'.free| ensures FreeFrame(m'.free[i], m'.owner, m'.ref, m'.alloc) && (i > 0 ==> m'.free[i] != n) {
      if i > 0 {
        assert m'.free[i] == m.free[i - 1] && FreeFrame(m.free[i - 1], m.owner, m.ref, m.alloc);
      }
    }
  }

  ghost function WithoutTable(m: Machine, e: nat, d: nat, t: nat): Machine
    requires e in m.roots && m.roots[e] < |m.mem| && |m.mem[m.roots[e]]| == PAGE_WORDS && d < USER_PDES
    requires t < |m.ref| == |m.alloc|
  {
    Released(m.(mem := m.mem[m.roots[e] := m.mem[m.roots[e]][d := ZERO]]), t)
  }

  /** env_free gives back an empty page table. */
  lemma WithoutTableSound(m: Machine, e: nat, d: nat)
    requires Sound(m) && e in m.roots && d < USER_PDES && At(m.mem, m.roots[e], d).flags.p
    requires forall t :: 0 <= t < NENTRIES ==> Loc(e, d, t) !in m.flat
    ensures var t := At(m.mem, m.roots[e], d).num;
            && m.roots[e] < |m.mem| && |m.mem[m.roots[e]]| == PAGE_WORDS && t < |m.ref| == |m.alloc|
            && m.ref[t] == 1
            && Sound(WithoutTable(m, e, d, t)) && AbsOf(WithoutTable(m, e, d, t)) == AbsOf(m)
  {
    var t := At(m.mem, m.roots[e], d).num;
    DropTable(m.mem, m.roots, m.owner, m.flat, e, d);
    assert FrameOk(t, m.owner, m.ref, m.alloc, m.flat);
    ReleasedCounts(m, t, m.flat);
    ReleasedUse(m, t);
    TableWrite(m.owner - {t}, m.mem, m.roots[e], m.mem[m.roots[e]][d := ZERO]);
  }

  /** Giving back a frame that is not a user page leaves the user pages alone. */
  lemma ReleasedUse(m: Machine, t: nat)
    requires LeavesOk(m.flat, |m.mem|, m.owner) && t in m.owner && !m.owner[t].Data? && t < |m.ref|
    ensures LeavesOk(m.flat, |m.mem|, m.owner - {t})
    ensures UserRefs(m.owner - {t}, m.ref[t := 0]) == UserRefs(m.owner, m.ref)
    ensures UserData(m.owner - {t}, m.mem) == UserData(m.owner, m.mem)
  {
    LeavesKeep(m.flat, |m.mem|, m.owner, m.owner - {t});
  }

  ghost function WithoutRoot(m: Machine, e: nat): Machine
    requires e in m.roots && m.roots[e] < |m.ref| == |m.alloc|
  {
    Released(m, m.roots[e]).(roots := m.roots - {e}, vma := AreasWithout(m.vma, e))
  }

  /** env_free gives back the empty directory and the areas go. */
  lemma WithoutRootSound(m: Machine, e: nat)
    requires Sound(m) && e in m.roots && forall d :: 0 <= d < USER_PDES ==> !At(m.mem, m.roots[e], d).flags.p
    ensures m.roots[e] < |m.ref| == |m.alloc| && m.ref[m.roots[e]] == 1 && Sound(WithoutRoot(m, e))
    ensures AbsOf(WithoutRoot(m, e)) == AbsOf(m).(vma := WithoutRoot(m, e).vma)
  {
    DropRoot(m.mem, m.roots, m.owner, m.flat, e);
    assert FrameOk(m.roots[e], m.owner, m.ref, m.alloc, m.flat);
    ReleasedCounts(m, m.roots[e], m.flat);
    ReleasedUse(m, m.roots[e]);
  }

  // ---------- user pages ----------

  /** `*pte = w` in table t. */
  ghost function WithPte(m: Machine, l: Loc, t: nat, w: Word): Machine
    requires t < |m.mem| && |m.mem[t]| == PAGE_WORDS && l.t < NENTRIES
  {
    m.(mem := m.mem[t := m.mem[t][l.t := w]], flat := Set(m.flat, l, w))
  }

  /** page_remove: the entry goes, the count drops, and the last mapping frees the frame. */
  ghost function Removed(m: Machine, l: Loc, t: nat, n: nat): Machine
    requires t < |m.mem| && |m.mem[t]| == PAGE_WORDS && l.t < NENTRIES && n < |m.ref| == |m.alloc|
  {
    var m' := WithPte(m, l, t, ZERO);
    if m.ref[n] <= 1 then Released(m', n) else m'.(ref := m.ref[n := m.ref[n] - 1])
  }

  lemma RemovedSound(m: Machine, l: Loc)
    requires Sound(m) && InUser(m.roots, l) && l in m.flat
    ensures Pde(m.mem, m.roots[l.env], l).flags.p
    ensures var t, n := Pde(m.mem, m.roots[l.env], l).num, m.flat[l].num;
            && t < |m.mem| && |m.mem[t]| == PAGE_WORDS && n < |m.ref| == |m.alloc| && m.ref[n] > 0
            && m.mem[t][l.t] == m.flat[l]
            && Sound(Removed(m, l, t, n)) && AbsOf(Removed(m, l, t, n)) == DoRemove(AbsOf(m), l)
  {
    assert FlatAt(m.mem, m.roots, m.flat, l);
    var t, n, flat' := Pde(m.mem, m.roots[l.env], l).num, m.flat[l].num, m.flat - {l};
    SetLeaf(m.mem, m.roots, m.owner, m.flat, l, ZERO);
    assert DataOk(m.flat[l], |m.mem|, m.owner) && FrameOk(n, m.owner, m.ref, m.alloc, m.flat);
    RemovedAbs(m, l, t, n);
    if m.ref[n] == 1 {
      RemovedLast(m, l, t, n);
    } else {
      RemovedMore(m, l, t, n);
    }
  }

  lemma RemovedAbs(m: Machine, l: Loc, t: nat, n: nat)
    requires l in m.flat && m.flat[l].num == n && n in m.owner && m.owner[n] == Data && t in m.owner && m.owner[t].Table?
    requires t < |m.mem| && |m.mem[t]| == PAGE_WORDS && l.t < NENTRIES && n < |m.ref| == |m.alloc| && |m.ref| == |m.mem| && m.ref[n] > 0
    ensures AbsOf(Removed(m, l, t, n)) == DoRemove(AbsOf(m), l)
  {
    RemoveUser(AbsOf(m), l, m.owner, m.ref, m.mem, t, m.mem[t][l.t := ZERO]);
  }

  /** The last mapping of a frame goes: the frame is free. */
  lemma RemovedLast(m: Machine, l: Loc, t: nat, n: nat)
    requires Sound(m) && l in m.flat && m.flat[l].num == n && n in m.owner && m.owner[n] == Data
    requires t < |m.mem| && |m.mem[t]| == PAGE_WORDS && l.t < NENTRIES && n < |m.ref| == |m.alloc| && m.ref[n] == 1
    requires TablesOk(m.mem[t := m.mem[t][l.t := ZERO]], m.roots, m.owner, m.flat - {l})
    ensures Sound(Removed(m, l, t, n))
  {
    var flat', owner' := m.flat - {l}, m.owner - {n};
    assert FrameOk(n, m.owner, m.ref, m.alloc, m.flat);
    LessMappers(m.flat, l);
    ReleasedCounts(m, n, flat');
    OneMapper(m.flat, l, n);
    OtherOwner(m.mem[t := m.mem[t][l.t := ZERO]], m.roots, m.owner, owner', flat');
    forall k | k in flat' ensures DataOk(flat'[k], |m.mem|, owner') {
      assert DataOk(m.flat[k], |m.mem|, m.owner);
      assert flat'[k].num == n ==> k in Mappers(flat', n);
    }
  }

  /** Another mapping is left. */
  lemma RemovedMore(m: Machine, l: Loc, t: nat, n: nat)
    requires Sound(m) && l in m.flat && m.flat[l].num == n && n in m.owner && m.owner[n] == Data
    requires t < |m.mem| && |m.mem[t]| == PAGE_WORDS && l.t < NENTRIES && n < |m.ref| == |m.alloc| && m.ref[n] > 1
    requires TablesOk(m.mem[t := m.mem[t][l.t := ZERO]], m.roots, m.owner, m.flat - {l})
    ensures Sound(Removed(m, l, t, n))
  {
    var flat' := m.flat - {l};
    DecCounts(m, l);
    forall k | k in flat' ensures DataOk(flat'[k], |m.mem|, m.owner) {
      assert DataOk(m.flat[k], |m.mem|, m.owner);
    }
  }

  /** One mapping less, and the frame stays in use. */
  lemma DecCounts(m: Machine, l: Loc)
    requires RefsOk(m.owner, m.ref, m.alloc, m.flat) && FreeOk(m.free, m.owner, m.ref, m.alloc) && l in m.flat
    requires var n := m.flat[l].num; n in m.owner && m.owner[n] == Data && n < |m.ref| && m.ref[n] > 1
    ensures var n := m.flat[l].num; var ref' := m.ref[n := m.ref[n] - 1];
            RefsOk(m.owner, ref', m.alloc, m.flat - {l}) && FreeOk(m.free, m.owner, ref', m.alloc)
  {
    var n := m.flat[l].num;
    var ref', flat' := m.ref[n := m.ref[n] - 1], m.flat - {l};
    forall g | g in m.owner ensures FrameOk(g, m.owner, ref', m.alloc, flat') {
      assert FrameOk(g, m.owner, m.ref, m.alloc, m.flat);
      assert Mappers(flat', g) == Mappers(m.flat, g) - {l};
      assert g != n ==> Mappers(m.flat, g) - {l} == Mappers(m.flat, g);
      assert l in Mappers(m.flat, n);
    }
    forall i | 0 <= i < |m.free| ensures FreeFrame(m.free[i], m.owner, ref', m.alloc) {
      assert FreeFrame(m.free[i], m.owner, m.ref, m.alloc);
    }
  }

  lemma OneMapper(flat: map<Loc, Word>, l: Loc, n: nat)
    requires l in flat && flat[l].num == n && |Mappers(flat, n)| == 1
    ensures Mappers(flat - {l}, n) == {}
  {
    assert l in Mappers(flat, n) && Mappers(flat - {l}, n) == Mappers(flat, n) - {l};
    assert |Mappers(flat, n) - {l}| == 0;
  }

  lemma LessMappers(flat: map<Loc, Word>, l: Loc)
    requires l in flat
    ensures forall g :: g != flat[l].num ==> Mappers(flat - {l}, g) == Mappers(flat, g)
  {
  }

  /** The user pages without a frame given back, and with a frame counted anew. */
  lemma FewerUser(owner: map<nat, Owner>, ref: seq<nat>, mem: seq<Page>, n: nat)
    requires n in owner && owner[n] == Data && n < |ref| == |mem|
    ensures UserRefs(owner - {n}, ref[n := 0]) == UserRefs(owner, ref) - {n}
    ensures UserData(owner - {n}, mem) == UserData(owner, mem) - {n}
  {
  }

  lemma CountedUser(owner: map<nat, Owner>, ref: seq<nat>, n: nat, r: nat)
    requires n in owner && owner[n] == Data && n < |ref|
    ensures UserRefs(owner, ref[n := r]) == UserRefs(owner, ref)[n := r]
  {
  }

  /** The user pages after one mapping is removed, with the table frame t rewritten. */
  lemma RemoveUser(s: State, l: Loc, owner: map<nat, Owner>, ref: seq<nat>, mem: seq<Page>, t: nat, table: Page)
    requires l in s.pt && s.ref == UserRefs(owner, ref) && s.data == UserData(owner, mem)
    requires var n := s.pt[l].num; n in owner && owner[n] == Data && n < |ref| == |mem| && ref[n] > 0
    requires t in owner && owner[t].Table? && t < |mem|
    ensures var n := s.pt[l].num; var mem' := mem[t := table];
            if ref[n] == 1 then
              DoRemove(s, l) == State(s.pt - {l}, s.vma, UserRefs(owner - {n}, ref[n := 0]), UserData(owner - {n}, mem'))
            else
              DoRemove(s, l) == State(s.pt - {l}, s.vma, UserRefs(owner, ref[n := ref[n] - 1]), UserData(owner, mem'))
  {
    var n := s.pt[l].num;
    assert n in s.ref && s.ref[n] == ref[n];
    TableWrite(owner, mem, t, table);
    FewerUser(owner, ref, mem[t := table], n);
    CountedUser(owner, ref, n, ref[n] - 1);
  }

  /** page_insert of frame f where page l is not present. */
  ghost function Inserted(m: Machine, l: Loc, t: nat, f: nat, flags: Flags): Machine
    requires t < |m.mem| && |m.mem[t]| == PAGE_WORDS && l.t < NENTRIES && f < |m.ref| <= NUM_LIMIT
  {
    WithPte(m, l, t, Word(f, flags)).(ref := m.ref[f := m.ref[f] + 1], owner := m.owner[f := Data])
  }

  lemma LeavesMore(flat: map<Loc, Word>, size: nat, owner: map<nat, Owner>, l: Loc, w: Word)
    requires LeavesOk(flat, size, owner) && DataOk(w, size, owner[w.num := Data])
    ensures LeavesOk(flat[l := w], size, owner[w.num := Data])
  {
    var owner' := owner[w.num := Data];
    LeavesKeep(flat, size, owner, owner');
    var flat' := flat[l := w];
    forall k | k in flat' ensures DataOk(flat'[k], size, owner') {
      assert k != l ==> DataOk(flat[k], size, owner');
    }
  }

  lemma InsertedSound(m: Machine, l: Loc, f: nat, flags: Flags)
    requires Sound(m) && InUser(m.roots, l) && l !in m.flat && Pde(m.mem, m.roots[l.env], l).flags.p
    requires f in m.owner && (m.owner[f] == Data || m.owner[f] == Fresh) && f < |m.mem| && flags.p
    ensures var t := Pde(m.mem, m.roots[l.env], l).num;
            && t < |m.mem| && |m.mem[t]| == PAGE_WORDS
            && Sound(Inserted(m, l, t, f, flags))
            && AbsOf(Inserted(m, l, t, f, flags)) == DoInsert(AbsOf(m), l, f, m.mem[f], flags)
  {
    var t, w, owner' := Pde(m.mem, m.roots[l.env], l).num, Word(f, flags), m.owner[f := Data];
    SetLeaf(m.mem, m.roots, m.owner, m.flat, l, w);
    var table := m.mem[t][l.t := w];
    OtherOwner(m.mem[t := table], m.roots, m.owner, owner', m.flat[l := w]);
    IncCounts(m, l, w);
    LeavesMore(m.flat, |m.mem|, m.owner, l, w);
    InsertedAbs(m, l, t, f, flags);
  }

  lemma InsertedAbs(m: Machine, l: Loc, t: nat, f: nat, flags: Flags)
    requires l !in m.flat && t < |m.mem| == |m.ref| <= NUM_LIMIT && |m.mem[t]| == PAGE_WORDS && l.t < NENTRIES && f < |m.ref| && flags.p
    requires f in m.owner && (m.owner[f] == Data || m.owner[f] == Fresh) && (m.owner[f] == Fresh ==> m.ref[f] == 0)
    requires t in m.owner && m.owner[t].Table?
    ensures AbsOf(Inserted(m, l, t, f, flags)) == DoInsert(AbsOf(m), l, f, m.mem[f], flags)
  {
    var m' := Inserted(m, l, t, f, flags);
    InsertedParts(m, l, t, f, flags);
    InsertUser(m.owner, m.ref, m.mem, f, t, m.mem[t][l.t := Word(f, flags)]);
    InsertedUser(m, m', l, f, flags);
  }

  lemma InsertedParts(m: Machine, l: Loc, t: nat, f: nat, flags: Flags)
    requires t < |m.mem| == |m.ref| <= NUM_LIMIT && |m.mem[t]| == PAGE_WORDS && l.t < NENTRIES && f < |m.ref| && flags.p
    ensures var m' := Inserted(m, l, t, f, flags);
            && m'.flat == m.flat[l := Word(f, flags)] && m'.vma == m.vma && m'.owner == m.owner[f := Data]
            && m'.ref == m.ref[f := m.ref[f] + 1] && m'.mem == m.mem[t := m.mem[t][l.t := Word(f, flags)]]
  {
  }

  lemma InsertedUser(m: Machine, m': Machine, l: Loc, f: Num20, flags: Flags)
    requires f < |m.ref| == |m.mem| && l !in m.flat && m'.flat == m.flat[l := Word(f, flags)] && m'.vma == m.vma
    requires UserRefs(m'.owner, m'.ref) == UserRefs(m.owner, m.ref)[f := m.ref[f] + 1]
    requires UserData(m'.owner, m'.mem) == UserData(m.owner, m.mem)[f := m.mem[f]]
    requires m.ref[f] + 1 == if f in UserRefs(m.owner, m.ref) then UserRefs(m.owner, m.ref)[f] + 1 else 1
    ensures AbsOf(m') == DoInsert(AbsOf(m), l, f, m.mem[f], flags)
  {
    InsertAbs(AbsOf(m), l, f, m.mem[f], flags, m.ref[f] + 1);
  }

  /** One mapping more. */
  lemma IncCounts(m: Machine, l: Loc, w: Word)
    requires Sound(m) && l !in m.flat && w.num < |m.ref|
    requires w.num in m.owner && (m.owner[w.num] == Data || m.owner[w.num] == Fresh)
    ensures var owner', ref' := m.owner[w.num := Data], m.ref[w.num := m.ref[w.num] + 1];
            RefsOk(owner', ref', m.alloc, m.flat[l := w]) && FreeOk(m.free, owner', ref', m.alloc)
    ensures m.owner[w.num] == Fresh ==> m.ref[w.num] == 0
  {
    var owner', ref', flat' := m.owner[w.num := Data], m.ref[w.num := m.ref[w.num] + 1], m.flat[l := w];
    if m.owner[w.num] == Fresh {
      FreshUnmapped(m.flat, |m.mem|, m.owner, w.num);
    }
    MoreMappers(m.flat, l, w);
    forall g | g in owner' ensures FrameOk(g, owner', ref', m.alloc, flat') {
      assert FrameOk(g, m.owner, m.ref, m.alloc, m.flat);
    }
    IncFree(m, w.num);
    assert FrameOk(w.num, m.owner, m.ref, m.alloc, m.flat);
  }

  lemma MoreMappers(flat: map<Loc, Word>, l: Loc, w: Word)
    requires l !in flat
    ensures Mappers(flat[l := w], w.num) == Mappers(flat, w.num) + {l} && l !in Mappers(flat, w.num)
    ensures forall g :: g != w.num ==> Mappers(flat[l := w], g) == Mappers(flat, g)
  {
  }

  /** A frame in use that gets one more reference is not on the free list. */
  lemma IncFree(m: Machine, n: nat)
    requires Sound(m) && n < |m.ref| && n in m.owner
    ensures FreeOk(m.free, m.owner[n := Data], m.ref[n := m.ref[n] + 1], m.alloc)
  {
    forall i | 0 <= i < |m.free| ensures FreeFrame(m.free[i], m.owner[n := Data], m.ref[n := m.ref[n] + 1], m.alloc) {
      assert FreeFrame(m.free[i], m.owner, m.ref, m.alloc);
    }
  }

  lemma FreshUnmapped(flat: map<Loc, Word>, size: nat, owner: map<nat, Owner>, f: nat)
    requires LeavesOk(flat, size, owner) && f in owner && owner[f] == Fresh
    ensures Mappers(flat, f) == {}
  {
    forall l | l in flat ensures flat[l].num != f {
      assert DataOk(flat[l], size, owner);
    }
  }

  lemma InsertUser(owner: map<nat, Owner>, ref: seq<nat>, mem: seq<Page>, f: nat, t: nat, table: Page)
    requires f in owner && (owner[f] == Data || owner[f] == Fresh) && f < |ref| == |mem|
    requires owner[f] == Fresh ==> ref[f] == 0
    requires t < |mem| && t in owner && owner[t].Table?
    ensures UserRefs(owner[f := Data], ref[f := ref[f] + 1]) == UserRefs(owner, ref)[f := ref[f] + 1]
    ensures ref[f] + 1 == if f in UserRefs(owner, ref) then UserRefs(owner, ref)[f] + 1 else 1
    ensures UserData(owner[f := Data], mem[t := table]) == UserData(owner, mem)[f := mem[f]]
  {
    TableWrite(owner[f := Data], mem, t, table);
  }

  lemma InsertAbs(s: State, l: Loc, f: Num20, page: Page, flags: Flags, n: nat)
    requires l !in s.pt && n == if f in s.ref then s.ref[f] + 1 else 1
    ensures DoInsert(s, l, f, page, flags) == State(s.pt[l := Word(f, flags)], s.vma, s.ref[f := n], s.data[f := page])
  {
  }

  /** Rewriting the flags of a present entry. */
  lemma ReflaggedSound(m: Machine, l: Loc, w: Word)
    requires Sound(m) && InUser(m.roots, l) && l in m.flat && w.num == m.flat[l].num && w.flags.p
    ensures Pde(m.mem, m.roots[l.env], l).flags.p
    ensures var t := Pde(m.mem, m.roots[l.env], l).num;
            && t < |m.mem| && |m.mem[t]| == PAGE_WORDS && m.mem[t][l.t] == m.flat[l]
            && Sound(WithPte(m, l, t, w)) && AbsOf(WithPte(m, l, t, w)) == AbsOf(m).(pt := m.flat[l := w])
  {
    assert FlatAt(m.mem, m.roots, m.flat, l);
    SetLeaf(m.mem, m.roots, m.owner, m.flat, l, w);
    var t, flat' := Pde(m.mem, m.roots[l.env], l).num, m.flat[l := w];
    TableWrite(m.owner, m.mem, t, m.mem[t][l.t := w]);
    forall g | g in m.owner ensures FrameOk(g, m.owner, m.ref, m.alloc, flat') {
      assert FrameOk(g, m.owner, m.ref, m.alloc, m.flat);
      assert Mappers(flat', g) == Mappers(m.flat, g);
    }
    assert DataOk(m.flat[l], |m.mem|, m.owner);
    forall k | k in flat' ensures DataOk(flat'[k], |m.mem|, m.owner) {
      assert DataOk(m.flat[k], |m.mem|, m.owner);
    }
  }
}
