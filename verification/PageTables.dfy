/** Physical pages and two-level page tables as the kernel changes them: page_alloc, pgdir_walk,
    page_insert, page_remove, page_dedup, fork and env_free for 4K pages.

    Each operation is tied to a step of the flat copy-on-write model. */
module PageTables {
  import opened Chains
  import opened Mmu
  import opened CowModel
  import opened CowSafety
  import opened ForkExit
  import opened ForkShare
  import opened TableGrowth
  import opened FrameUse
  import opened PageWalk

  /** PDX(UVPT). */
  const UVPT_PDE: nat := 957

  /** A new directory in frame f: nothing below UTOP, above it the kernel's entries, and at UVPT the
      directory itself for users to read. */
  predicate SetUp(page: Page, f: nat, kern: seq<Word>)
    requires |kern| == PAGE_WORDS
  {
    && |page| == PAGE_WORDS
    && (forall d :: 0 <= d < USER_PDES ==> page[d] == ZERO)
    && (forall d :: USER_PDES <= d < PAGE_WORDS && d != UVPT_PDE ==> page[d] == kern[d])
    && page[UVPT_PDE].num == f && page[UVPT_PDE].flags == NO_FLAGS.(p := true, u := true)
  }

  /** A demand fault: the frame mapped, kill_env, or a kernel panic. */
  datatype FaultResult = Mapped(frame: nat) | Killed | Panic

  class Memory {
    var mem: seq<Page>
    var ref: seq<nat>
    var alloc: seq<bool>
    var free: seq<nat>
    /** env_pgdir of each environment. */
    var roots: map<nat, nat>
    /** Permissions of the mapped areas, page by page. */
    var vma: map<Loc, Flags>
    ghost var owner: map<nat, Owner>
    ghost var flat: map<Loc, Word>

    /** page_init: the frames of [lo, hi) that are not taken go onto the free list one by one, so that
        the last one comes first; all others stay reserved. No environment exists. */
    constructor (nframes: nat, lo: nat, hi: nat, taken: set<nat>)
      requires 0 < lo <= hi <= nframes <= NUM_LIMIT
      ensures Valid() && Abs() == State(map[], map[], map[], map[]) && roots == map[]
      ensures forall f: nat :: f in free <==> lo <= f < hi && f !in taken
      ensures forall i, j :: 0 <= i < j < |free| ==> free[i] > free[j]
    {
      mem := seq(nframes, _ => ZeroPage());
      ref := seq(nframes, _ => 0);
      alloc := seq(nframes, _ => false);
      free := [];
      roots, vma, flat := map[], map[], map[];
      owner := map f: nat | f < nframes && !(lo <= f < hi && f !in taken) :: Reserved;
      new;
      FillList(lo, hi, taken);
      assert forall i :: 0 <= i < |free| ==> free[i] in free;
      assert forall l :: FlatAt(mem, roots, flat, l);
    }

    /** The loop of page_init. */
    method FillList(lo: nat, hi: nat, taken: set<nat>)
      requires 0 < lo <= hi <= |alloc| && free == [] && forall f: nat :: f < |alloc| ==> !alloc[f]
      modifies this`free, this`alloc
      ensures forall f: nat :: f in free <==> lo <= f < hi && f !in taken
      ensures forall i, j :: 0 <= i < j < |free| ==> free[i] > free[j]
      ensures |alloc| == old(|alloc|) && forall f: nat :: f in free ==> !alloc[f]
    {
      var i := lo;
      while i < hi
        invariant lo <= i <= hi && |alloc| == old(|alloc|)
        invariant forall f: nat :: f in free <==> lo <= f < i && f !in taken
        invariant forall x, y :: 0 <= x < y < |free| ==> free[x] > free[y]
        invariant forall f: nat :: f in free || i <= f < |alloc| ==> !alloc[f]
      {
        if i in taken {
          alloc := alloc[i := true];
        } else {
          assert forall x :: 0 <= x < |free| ==> free[x] in free;
          free := [i] + free;
        }
        i := i + 1;
      }
    }

    ghost function Snapshot(): Machine
      reads this
    {
      Machine(mem, ref, alloc, free, roots, vma, owner, flat)
    }

    ghost predicate Valid()
      reads this
    {
      Sound(Snapshot())
    }

    ghost function Abs(): State
      reads this
    {
      AbsOf(Snapshot())
    }

    /** page_alloc for one 4K page: the head of the free list, zeroed on request. */
    method PageAlloc(zero: bool) returns (f: int)
      requires Valid()
      modifies this
      ensures Valid() && Abs() == old(Abs())
      ensures old(free) == [] ==> f == NULL && Snapshot() == old(Snapshot())
      ensures old(free) != [] ==>
                && 0 < f < old(|mem|) && f < old(|alloc|) && f == old(free)[0] && f !in old(owner)
                && Snapshot() == Allocated(old(Snapshot()), if zero then ZeroPage() else old(mem)[f])
    {
      if free == [] {
        return NULL;
      }
      f := free[0];
      assert FreeFrame(free[0], owner, ref, alloc);
      var page := if zero then ZeroPage() else mem[f];
      AllocatedSound(Snapshot(), page);
      mem := mem[f := page];
      free := free[1..];
      alloc := alloc[f := true];
      owner := owner[f as nat := Fresh];
    }

    /** pgdir_walk: the frame of the page table for page l, created on request. */
    method PgdirWalk(l: Loc, create: bool) returns (t: int)
      requires Valid() && InUser(roots, l)
      modifies this
      ensures Valid() && Abs() == old(Abs()) && roots == old(roots) && flat == old(flat) && vma == old(vma) && |mem| == old(|mem|)
      ensures t == NULL <==> !old(Pde(mem, roots[l.env], l)).flags.p && (!create || old(free) == [])
      ensures t != NULL ==> Pde(mem, roots[l.env], l).flags.p && Pde(mem, roots[l.env], l).num == t
      ensures t != NULL ==> 0 <= t < |mem| && |mem[t]| == PAGE_WORDS
      ensures old(Pde(mem, roots[l.env], l)).flags.p || t == NULL ==> Snapshot() == old(Snapshot())
      ensures t != NULL && !old(Pde(mem, roots[l.env], l)).flags.p ==>
                CanTable(old(Snapshot()), l) && Snapshot() == NewTable(old(Snapshot()), l)
    {
      assert RootOk(mem, roots[l.env], owner, l.env);
      assert PdeOk(mem, roots[l.env], owner, l.env, l.d);
      var pde := mem[roots[l.env]][l.d];
      if pde.flags.p {
        return pde.num;
      }
      if !create {
        return NULL;
      }
      if free != [] {
        NewTableSound(Snapshot(), l);
      }
      t := PageAlloc(true);
      if t != NULL {
        AddPde(l, t);
      }
    }

    /** pgdir_walk sets the new table in the directory. */
    method AddPde(l: Loc, t: nat)
      requires l.env in roots && roots[l.env] < |mem| && |mem[roots[l.env]]| == PAGE_WORDS && l.d < USER_PDES && t < |ref| <= NUM_LIMIT
      modifies this`mem, this`ref, this`owner
      ensures Snapshot() == WithTable(old(Snapshot()), l.env, l.d, t, Word(t, TABLE_FLAGS))
    {
      mem := mem[roots[l.env] := mem[roots[l.env]][l.d := Word(t, TABLE_FLAGS)]];
      ref := ref[t := ref[t] + 1];
      owner := owner[t := Table(l.env, l.d)];
    }

    /** `*pte = w` in the page table at frame t. */
    method SetPte(l: Loc, t: nat, w: Word)
      requires t < |mem| && |mem[t]| == PAGE_WORDS && l.t < NENTRIES
      modifies this`mem, this`flat
      ensures Snapshot() == WithPte(old(Snapshot()), l, t, w)
    {
      mem := mem[t := mem[t][l.t := w]];
      flat := Set(flat, l, w);
    }

    /** page_remove for a page that is present, or whose page table is missing. */
    method PageRemove(l: Loc)
      requires Valid() && InUser(roots, l) && (l in flat || !Pde(mem, roots[l.env], l).flags.p)
      modifies this
      ensures Valid() && Abs() == DoRemove(old(Abs()), l) && roots == old(roots) && |mem| == old(|mem|)
      ensures flat == old(flat) - {l}
      ensures if l in old(flat) then
                var t, n := old(Pde(mem, roots[l.env], l)).num, old(flat)[l].num;
                && t < old(|mem|) && old(|mem[t]|) == PAGE_WORDS && n < old(|ref|) == old(|alloc|)
                && Snapshot() == Removed(old(Snapshot()), l, t, n)
              else Snapshot() == old(Snapshot())
    {
      assert FlatAt(mem, roots, flat, l);
      var t := PgdirWalk(l, false);
      if t == NULL {
        return;
      }
      RemovedSound(Snapshot(), l);
      DropMapping(l, t, mem[t][l.t].num);
    }

    method DropMapping(l: Loc, t: nat, n: nat)
      requires t < |mem| && |mem[t]| == PAGE_WORDS && l.t < NENTRIES && n < |ref| == |alloc| && ref[n] > 0
      modifies this
      ensures Snapshot() == Removed(old(Snapshot()), l, t, n)
    {
      Decref(n);
      SetPte(l, t, ZERO);
    }

    /** The count of frame n drops by one; at zero page_free puts it at the head of the free list. */
    method Decref(n: nat)
      requires n < |ref| == |alloc| && ref[n] > 0
      modifies this`ref, this`alloc, this`free, this`owner
      ensures Snapshot() == if old(ref[n]) == 1 then Released(old(Snapshot()), n)
                            else old(Snapshot()).(ref := old(ref)[n := old(ref[n]) - 1])
    {
      ref := ref[n := ref[n] - 1];
      if ref[n] == 0 {
        alloc := alloc[n := false];
        free := [n] + free;
        owner := owner - {n};
      }
    }

    /** page_insert: maps frame f at page l with the given permissions. */
    method PageInsert(f: nat, l: Loc, perm: Flags) returns (ok: bool)
      requires Valid() && InUser(roots, l) && f < |mem|
      requires f in owner && (owner[f] == Data || owner[f] == Fresh) && !perm.p && !perm.ps
      modifies this
      ensures Valid() && roots == old(roots)
      ensures ok <==> old(Pde(mem, roots[l.env], l)).flags.p || old(free) != []
      ensures Abs() == if ok then DoInsert(old(Abs()), l, f, old(mem)[f], perm.(p := true)) else old(Abs())
      ensures ok ==> flat == old(flat)[l := Word(f, perm.(p := true))]
      ensures !ok ==> Snapshot() == old(Snapshot())
    {
      var t := WalkFor(f, l);
      ok := t != NULL;
      if ok {
        ghost var s := Abs();
        InsertAt(f, l, t, perm.(p := true));
        InsertEntry(s, l, f, old(mem)[f], perm.(p := true));
      }
    }

    /** page_insert's walk; the frame to be inserted is not touched. */
    method WalkFor(f: nat, l: Loc) returns (t: int)
      requires Valid() && InUser(roots, l) && f < |mem| && f in owner && (owner[f] == Data || owner[f] == Fresh)
      modifies this
      ensures Valid() && Abs() == old(Abs()) && roots == old(roots) && |mem| == old(|mem|)
      ensures t == NULL <==> !old(Pde(mem, roots[l.env], l)).flags.p && old(free) == []
      ensures t == NULL ==> Snapshot() == old(Snapshot())
      ensures t != NULL ==>
                && 0 <= t < |mem| && |mem[t]| == PAGE_WORDS && Pde(mem, roots[l.env], l).flags.p && Pde(mem, roots[l.env], l).num == t
                && f in owner && owner[f] == old(owner[f]) && mem[f] == old(mem[f])
    {
      WalkKeeps(Snapshot(), l, f);
      t := PgdirWalk(l, true);
    }

    /** page_insert once the page table is there. */
    method InsertAt(f: nat, l: Loc, t: nat, flags: Flags)
      requires Valid() && InUser(roots, l) && f < |mem| && flags.p && t < |mem| && |mem[t]| == PAGE_WORDS
      requires f in owner && (owner[f] == Data || owner[f] == Fresh)
      requires Pde(mem, roots[l.env], l).flags.p && Pde(mem, roots[l.env], l).num == t
      modifies this
      ensures Valid() && roots == old(roots) && Abs() == DoInsert(old(Abs()), l, f, old(mem)[f], flags)
    {
      assert FlatAt(mem, roots, flat, l) && FrameOk(f, owner, ref, alloc, flat);
      var pte := mem[t][l.t];
      var reInsert := pte.num != f;
      if l in flat {
        DedupStart(Snapshot(), l);
      }
      InsertParts(Abs(), l, f, mem[f], flags);
      if pte.flags.p && reInsert {
        RemoveFirst(f, l, t);
      }
      if reInsert {
        AddMapping(f, l, t, flags);
      } else {
        ReflaggedSound(Snapshot(), l, Word(f, flags));
        SetPte(l, t, Word(f, flags));
      }
    }

    /** `pp->pp_ref++` and `*pte = page2pa(pp) | flags` where nothing is mapped. */
    method AddMapping(f: nat, l: Loc, t: nat, flags: Flags)
      requires Valid() && InUser(roots, l) && l !in flat && flags.p
      requires Pde(mem, roots[l.env], l).flags.p && Pde(mem, roots[l.env], l).num == t
      requires f in owner && (owner[f] == Data || owner[f] == Fresh) && f < |mem|
      modifies this`mem, this`ref, this`owner, this`flat
      ensures Valid() && Abs() == DoInsert(old(Abs()), l, f, old(mem)[f], flags)
      ensures t < old(|mem|) && old(|mem[t]|) == PAGE_WORDS && Snapshot() == Inserted(old(Snapshot()), l, t, f, flags)
    {
      InsertedSound(Snapshot(), l, f, flags);
      SetMapping(l, t, f, flags);
    }

    method SetMapping(l: Loc, t: nat, f: nat, flags: Flags)
      requires t < |mem| && |mem[t]| == PAGE_WORDS && l.t < NENTRIES && f < |ref| <= NUM_LIMIT && flags.p
      modifies this`mem, this`ref, this`owner, this`flat
      ensures Snapshot() == Inserted(old(Snapshot()), l, t, f, flags)
    {
      ref := ref[f := ref[f] + 1];
      owner := owner[f := Data];
      SetPte(l, t, Word(f, flags));
    }

    /** page_insert's removal of another page at l: frame f and the page table stay. */
    method RemoveFirst(f: nat, l: Loc, t: nat)
      requires Valid() && InUser(roots, l) && l in flat && flat[l].num != f
      requires f in owner && f < |mem| && (owner[f] == Data || owner[f] == Fresh)
      requires Pde(mem, roots[l.env], l).flags.p && Pde(mem, roots[l.env], l).num == t
      modifies this
      ensures Valid() && Abs() == DoRemove(old(Abs()), l) && roots == old(roots) && |mem| == old(|mem|)
      ensures Pde(mem, roots[l.env], l) == old(Pde(mem, roots[l.env], l)) && l !in flat
      ensures f in owner && owner[f] == old(owner[f]) && mem[f] == old(mem[f]) && t < |mem| && |mem[t]| == PAGE_WORDS
    {
      RemovedKeeps(Snapshot(), l, f);
      PageRemove(l);
    }

    /** A user store through a present, writable entry. */
    method UserStore(l: Loc, k: nat, x: Word)
      requires Valid() && l in flat && flat[l].flags.w && k < PAGE_WORDS
      modifies this`mem
      ensures Valid() && Abs() == DoStore(old(Abs()), l, k, x)
    {
      StoredSound(Snapshot(), l, k, x);
      assert FlatAt(mem, roots, flat, l);
      var table := mem[roots[l.env]][l.d].num;
      var n := mem[table][l.t].num;
      mem := mem[n := mem[n][k := x]];
    }

    /** alloc_page_after_fault for an anonymous 4K area. Without a frame for the page, page_insert
        panics on NULL; without one for the page table the environment is killed, and the frame
        taken for the page stays allocated without being mapped. */
    method DemandFault(l: Loc) returns (r: FaultResult)
      requires Valid() && l in vma && l !in flat && !vma[l].p && !vma[l].ps
      modifies this
      ensures Valid() && roots == old(roots)
      ensures r == if old(free) == [] then Panic
                   else if |old(free)| == 1 && !old(Pde(mem, roots[l.env], l)).flags.p then Killed
                   else Mapped(old(free)[0])
      ensures r.Mapped? ==> Enabled(old(Abs()), Demand(l, r.frame)) && Abs() == DoDemand(old(Abs()), l, r.frame)
      ensures !r.Mapped? ==> Abs() == old(Abs())
      ensures r == Killed ==> free == [] && old(free)[0] in owner && owner[old(free)[0]] == Fresh
    {
      var page := PageAlloc(true);
      if page == NULL {
        return Panic;
      }
      assert RootOk(old(mem), roots[l.env], old(owner), l.env);
      var ok := PageInsert(page, l, vma[l]);
      DemandParts(old(Abs()), l, page);
      r := if ok then Mapped(page) else Killed;
    }

    /** page_dedup on a write fault. When the copy cannot be allocated the old frame's count has
        already been dropped. */
    method PageDedup(l: Loc) returns (ok: bool, ghost f: int)
      requires Valid() && l in flat && l in vma && vma[l].w && !flat[l].flags.w
      modifies this
      ensures ok <==> old(flat)[l].num < old(|ref|) && (old(ref[flat[l].num]) == 1 || old(free) != [])
      ensures ok ==> Valid() && f >= 0 && Enabled(old(Abs()), Dedup(l, f)) && Abs() == DoDedup(old(Abs()), l, f)
      ensures !ok ==> old(flat)[l].num in old(Abs()).ref && Abs() == DedupNoMemory(old(Abs()), l)
    {
      assert FlatAt(mem, roots, flat, l);
      DedupStart(Snapshot(), l);
      var t := PgdirWalk(l, true);
      var n := mem[t][l.t].num;
      if ref[n] == 1 {
        MakeWritable(l, t);
        return true, 0;
      }
      ok, f := DedupShared(l, t, n);
    }

    /** page_dedup of a shared page. */
    method DedupShared(l: Loc, t: nat, n: nat) returns (ok: bool, ghost f: int)
      requires Valid() && l in flat && InUser(roots, l) && l in vma && vma[l].w && !flat[l].flags.w
      requires Pde(mem, roots[l.env], l).flags.p && Pde(mem, roots[l.env], l).num == t
      requires flat[l].num == n && n < |ref| && ref[n] > 1
      modifies this
      ensures ok <==> old(free) != []
      ensures ok ==> Valid() && f >= 0 && Enabled(old(Abs()), Dedup(l, f)) && Abs() == DoDedup(old(Abs()), l, f)
      ensures !ok ==> n in old(Abs()).ref && Abs() == DedupNoMemory(old(Abs()), l)
    {
      DedupStart(Snapshot(), l);
      var copy := PageAlloc(true);
      f := copy;
      if copy == NULL {
        DropShared(l, n);
        return false, f;
      }
      DedupAllocated(old(Snapshot()), l);
      CopyShared(l, t, n, copy);
      return true, f;
    }

    /** page_dedup gives its reference up although no copy could be allocated. */
    method DropShared(l: Loc, n: nat)
      requires Valid() && l in flat && flat[l].num == n && n < |ref| && ref[n] > 1
      modifies this`ref
      ensures n in old(Abs()).ref && Abs() == DedupNoMemory(old(Abs()), l)
    {
      NoMemoryAbs(Snapshot(), l);
      ref := ref[n := ref[n] - 1];
    }

    /** The part of page_dedup behind the allocation. */
    method CopyShared(l: Loc, t: nat, n: nat, copy: nat)
      requires Valid() && l in flat && InUser(roots, l) && l in vma && vma[l].w && !flat[l].flags.w
      requires flat[l].num == n && n < |ref| == |mem| && ref[n] > 1 && Pde(mem, roots[l.env], l).num == t
      requires copy in owner && owner[copy] == Fresh && copy < |mem| && copy < NUM_LIMIT && copy !in Abs().ref
      modifies this
      ensures Valid() && Enabled(old(Abs()), Dedup(l, copy)) && Abs() == DoDedup(old(Abs()), l, copy)
    {
      DedupStart(Snapshot(), l);
      CopyInto(l, t, n, copy);
      DedupParts(old(Abs()), l, copy);
    }

    /** The copy goes into a fresh frame, which replaces the shared one. */
    method CopyInto(l: Loc, t: nat, n: nat, copy: nat)
      requires Valid() && l in flat && InUser(roots, l) && l in vma && flat[l].num == n && n < |ref| == |mem| && ref[n] > 1
      requires Pde(mem, roots[l.env], l).num == t && copy in owner && owner[copy] == Fresh && copy < |mem|
      modifies this
      ensures Valid() && Abs() == DoInsert(DoRemove(old(Abs()), l), l, copy, old(mem)[n], old(vma)[l].(p := true))
    {
      CopiedSound(Snapshot(), l, copy, vma[l].(p := true));
      CopyPage(l, t, n, copy, vma[l].(p := true));
    }

    /** `*pte |= PTE_W` for a page that nobody shares. */
    method MakeWritable(l: Loc, t: nat)
      requires Valid() && l in flat && InUser(roots, l) && l in vma && vma[l].w && !flat[l].flags.w
      requires Pde(mem, roots[l.env], l).flags.p && Pde(mem, roots[l.env], l).num == t
      requires flat[l].num < |ref| && ref[flat[l].num] == 1
      modifies this
      ensures Valid() && Enabled(old(Abs()), Dedup(l, 0)) && Abs() == DoDedup(old(Abs()), l, 0)
    {
      DedupStart(Snapshot(), l);
      ReflaggedSound(Snapshot(), l, flat[l].(flags := flat[l].flags.(w := true)));
      NullUnused(Snapshot());
      var w := mem[t][l.t];
      SetPte(l, t, w.(flags := w.flags.(w := true)));
    }

    /** The copying half of page_dedup. */
    method CopyPage(l: Loc, t: nat, n: nat, copy: nat, flags: Flags)
      requires t < |mem| && |mem[t]| == PAGE_WORDS && l.t < NENTRIES && n < |mem| == |ref| <= NUM_LIMIT && t != copy
      requires copy < |mem| && ref[n] > 0 && copy != n
      modifies this
      ensures Snapshot() == Copied(old(Snapshot()), l, t, n, copy, flags)
    {
      ref := ref[n := ref[n] - 1];
      mem := mem[copy := mem[n]];
      SetPte(l, t, Word(copy, flags));
      ref := ref[copy := ref[copy] + 1];
      owner := owner[copy := Data];
    }

    /** env_setup_vm: a zeroed directory with the kernel's entries above UTOP and the directory
        itself at UVPT. */
    method EnvSetupVm(e: nat, kern: seq<Word>) returns (ok: bool)
      requires Valid() && e !in roots && |kern| == PAGE_WORDS
      modifies this
      ensures Valid() && Abs() == old(Abs()) && ok == (old(free) != [])
      ensures ok ==> RootAdded(old(Snapshot()), Snapshot(), e)
      ensures ok ==> roots[e] == old(free)[0] < |mem| && SetUp(mem[roots[e]], roots[e], kern)
    {
      ghost var m := Snapshot();
      var f := PageAlloc(true);
      if f == NULL {
        return false;
      }
      var page := mem[f];
      var i := USER_PDES;
      while i < PAGE_WORDS
        invariant USER_PDES <= i <= PAGE_WORDS && |page| == PAGE_WORDS
        invariant forall d :: 0 <= d < i ==> page[d] == if d < USER_PDES then ZERO else kern[d]
      {
        page := page[i := kern[i]];
        i := i + 1;
      }
      page := page[UVPT_PDE := Word(f, NO_FLAGS.(p := true, u := true))];
      WithRootSound(Snapshot(), e, f, page);
      SetupRoot(m, e, page);
      SetRoot(e, f, page);
      return true;
    }

    method SetRoot(e: nat, f: nat, page: Page)
      requires f < |mem| && f < |ref|
      modifies this`mem, this`ref, this`roots, this`owner
      ensures Snapshot() == WithRoot(old(Snapshot()), e, f, page)
    {
      mem := mem[f := page];
      ref := ref[f := ref[f] + 1];
      roots := roots[e := f];
      owner := owner[f := Root(e)];
    }

    /** env_cpy_pgdir_cow for one page of the parent. An absent entry in an existing table counts
        as a mapping of the reserved frame 0. */
    method SharePage(l: Loc, child: nat) returns (ok: bool)
      requires Valid() && InUser(roots, l) && child in roots && child != l.env && Twin(l, child) !in flat
      modifies this
      ensures Valid() && |ref| > 0 && roots == old(roots)
      ensures ok <==> !NeedsTable(old(Snapshot()), l, child) || old(free) != []
      ensures if ok then PageShared(old(Snapshot()), Snapshot(), l, child) else Snapshot() == old(Snapshot())
    {
      NeedsIff(Snapshot(), l, child);
      var tp := PgdirWalk(l, false);
      if tp == NULL {
        return true;
      }
      var tc := PgdirWalk(Twin(l, child), true);
      if tc == NULL {
        return false;
      }
      WalkedPde(old(Snapshot()), Twin(l, child), l);
      ghost var m1 := Snapshot();
      CopyEntry(l, child, tp, tc);
      GrownShared(old(Snapshot()), m1, Snapshot(), l, child);
      ok := true;
    }

    /** `*pte_c = *pte_p` without PTE_W, and the count of what the entry names. */
    method CopyEntry(l: Loc, child: nat, tp: nat, tc: nat)
      requires Valid() && InUser(roots, l) && child in roots && child != l.env && Twin(l, child) !in flat
      requires Pde(mem, roots[l.env], l).flags.p && Pde(mem, roots[l.env], l).num == tp
      requires Pde(mem, roots[child], Twin(l, child)).flags.p && Pde(mem, roots[child], Twin(l, child)).num == tc
      modifies this
      ensures Valid() && |ref| > 0 && roots == old(roots) && PageShared(old(Snapshot()), Snapshot(), l, child)
    {
      assert FlatAt(mem, roots, flat, l) && PdeOk(mem, roots[l.env], owner, l.env, l.d);
      var w := mem[tp][l.t];
      if w.flags.p {
        ShareFrame(l, child, tp, tc);
      } else {
        SkipFrame(l, child, tc);
      }
    }

    /** The parent's entry loses PTE_W, the child gets the same entry, the count goes up. */
    method ShareFrame(l: Loc, child: nat, tp: nat, tc: nat)
      requires Valid() && InUser(roots, l) && child in roots && child != l.env && l in flat && Twin(l, child) !in flat
      requires Pde(mem, roots[l.env], l).flags.p && Pde(mem, roots[l.env], l).num == tp
      requires Pde(mem, roots[child], Twin(l, child)).flags.p && Pde(mem, roots[child], Twin(l, child)).num == tc
      modifies this
      ensures Valid() && roots == old(roots) && vma == old(vma) && Abs().data == old(Abs()).data
      ensures flat == old(flat)[l := Shared(old(flat)[l])][Twin(l, child) := Shared(old(flat)[l])]
      ensures free == old(free) && ref[0] == old(ref[0])
      ensures forall e :: e in roots ==> Dirs(mem, roots[e]) == old(Dirs(mem, roots[e]))
    {
      ShareSound(Snapshot(), l, child);
      var n := ClearWrite(l, tp);
      SetMapping(Twin(l, child), tc, n, mem[tp][l.t].flags);
    }

    /** `*pte &= ~PTE_W` in the parent, if it is set. */
    method ClearWrite(l: Loc, tp: nat) returns (n: Num20)
      requires tp < |mem| && |mem[tp]| == PAGE_WORDS && l.t < NENTRIES && l in flat && mem[tp][l.t] == flat[l] && flat[l].flags.p
      modifies this`mem, this`flat
      ensures n == old(flat)[l].num && Snapshot() == WithPte(old(Snapshot()), l, tp, Shared(old(flat)[l]))
    {
      var w := mem[tp][l.t];
      if w.flags.w {
        SetPte(l, tp, Shared(w));
      } else {
        assert mem[tp][l.t := w] == mem[tp];
        assert mem[tp := mem[tp][l.t := w]] == mem;
        assert flat[l := w] == flat;
      }
      return w.num;
    }

    /** An absent entry is copied like a present one: the count that goes up is that of frame 0. */
    method SkipFrame(l: Loc, child: nat, tc: nat)
      requires Valid() && InUser(roots, Twin(l, child)) && Twin(l, child) !in flat
      requires Pde(mem, roots[child], Twin(l, child)).flags.p && Pde(mem, roots[child], Twin(l, child)).num == tc
      modifies this
      ensures Valid() && roots == old(roots) && vma == old(vma) && Abs() == old(Abs()) && flat == old(flat)
      ensures free == old(free) && mem == old(mem) && ref[0] == old(ref[0]) + 1
    {
      var c := Twin(l, child);
      assert FlatAt(mem, roots, flat, c) && PdeOk(mem, roots[child], owner, child, l.d);
      BumpedSound(Snapshot());
      ghost var target := Snapshot().(ref := ref[0 := ref[0] + 1]);
      assert mem[tc][c.t := ZERO] == mem[tc];
      assert mem[tc := mem[tc][c.t := ZERO]] == mem && flat - {c} == flat;
      SetPte(c, tc, ZERO);
      ref := ref[0 := ref[0] + 1];
      assert Snapshot() == target;
    }

    /** One turn of env_cpy_pgdir_cow's loop. */
    method ShareNext(pages: seq<Loc>, i: nat, parent: nat, child: nat, ghost m: Machine) returns (ok: bool)
      requires parent in m.roots && child in m.roots && parent != child && |m.ref| > 0 && i < |pages|
      requires Valid() && SharedUpTo(m, Snapshot(), pages[..i], parent, child) && pages[i].env == parent && InUser(roots, pages[i])
      requires pages[i] !in pages[..i] && forall l :: l in m.flat ==> l.env != child
      modifies this
      ensures Valid() && (ok ==> SharedUpTo(m, Snapshot(), pages[..i + 1], parent, child))
      ensures !ok ==> Snapshot() == old(Snapshot()) && |m.free| < |Needed(pages, Dirs(m.mem, m.roots[parent]), Dirs(m.mem, m.roots[child]))|
    {
      var l := pages[i];
      ghost var m1, seen := Snapshot(), pages[..i];
      PrefixStep(pages, i);
      TwinAbsent(m, m1, seen, l, parent, child);
      ok := SharePage(l, child);
      if ok {
        Advance(m, m1, Snapshot(), seen, l, parent, child);
      } else {
        NeededMore(pages, i, Dirs(m.mem, m.roots[parent]), Dirs(m.mem, m.roots[child]));
      }
    }

    /** env_cpy_pgdir_cow over the pages of the parent's areas, in list order. It succeeds exactly if
        the free list suffices for the page tables that the child lacks; `done` are the pages shared
        before it ended. */
    method EnvCpyPgdirCow(child: nat, parent: nat, pages: seq<Loc>) returns (ok: bool, ghost done: set<Loc>)
      requires Valid() && child in roots && parent in roots && child != parent
      requires forall l :: l in flat ==> l.env != child && (l.env == parent ==> l in pages)
      requires forall i :: 0 <= i < |pages| ==> pages[i].env == parent && InUser(roots, pages[i])
      requires forall i, j :: 0 <= i < j < |pages| ==> pages[i] != pages[j]
      modifies this
      ensures Valid() && roots == old(roots) && vma == old(vma) && Abs().data == old(Abs()).data
      ensures flat == ForkPart(old(flat), parent, child, done)
      ensures var needed := Needed(pages, old(Dirs(mem, roots[parent])), old(Dirs(mem, roots[child])));
              && (ok <==> |needed| <= old(|free|)) && (ok ==> |free| == old(|free|) - |needed|)
      ensures ok ==>
                && flat == ForkEntries(old(flat), parent, child)
                && ref[0] == old(ref[0]) + |AbsentUnder(pages, old(Dirs(mem, roots[parent])), old(flat).Keys)|
    {
      ghost var m := Snapshot();
      ok, done := ShareLoop(child, parent, pages);
      if ok {
        ShareAll(m, Snapshot(), pages, parent, child);
      }
    }

    /** Its loop. */
    method ShareLoop(child: nat, parent: nat, pages: seq<Loc>) returns (ok: bool, ghost done: set<Loc>)
      requires Valid() && |ref| > 0 && child in roots && parent in roots && child != parent && forall l :: l in flat ==> l.env != child
      requires forall i :: 0 <= i < |pages| ==> pages[i].env == parent && InUser(roots, pages[i])
      requires forall i, j :: 0 <= i < j < |pages| ==> pages[i] != pages[j]
      modifies this
      ensures Valid() && roots == old(roots) && vma == old(vma) && Abs().data == old(Abs()).data
      ensures flat == ForkPart(old(flat), parent, child, done)
      ensures ok <==> |Needed(pages, old(Dirs(mem, roots[parent])), old(Dirs(mem, roots[child])))| <= old(|free|)
      ensures ok ==> SharedUpTo(old(Snapshot()), Snapshot(), pages, parent, child) && done == Seen(pages)
    {
      var i := 0;
      ghost var m := Snapshot();
      ShareNone(m, parent, child);
      assert pages[..0] == [] && pages[..|pages|] == pages;
      while i < |pages|
        invariant 0 <= i <= |pages| && Valid() && SharedUpTo(m, Snapshot(), pages[..i], parent, child)
      {
        ok := ShareNext(pages, i, parent, child, m);
        if !ok {
          done := Seen(pages[..i]);
          return;
        }
        i := i + 1;
      }
      done := Seen(pages);
      ok := true;
    }

    /** The memory side of env_dup: a new directory, the parent's areas, the parent's pages shared.
        `pages` lists the pages of the parent's areas in list order. It succeeds exactly if the free
        list suffices for the directory and for one table per directory entry that the pages meet in
        the parent. On failure the child stays half-built; counts are exact and no byte that an
        environment sees has changed. */
    method ForkEnv(parent: nat, child: nat, kern: seq<Word>, pages: seq<Loc>) returns (ok: bool)
      requires Valid() && parent in roots && child !in roots && |kern| == PAGE_WORDS
      requires Inv(Abs())
      requires forall l :: l in pages <==> l in vma && l.env == parent
      requires forall i, j :: 0 <= i < j < |pages| ==> pages[i] != pages[j]
      modifies this
      ensures Valid() && Inv(Abs())
      ensures ok <==> old(|free|) >= 1 + |DirsOf(pages) * old(Dirs(mem, roots[parent]))|
      ensures ok ==> Enabled(old(Abs()), Fork(parent, child)) && Abs() == DoFork(old(Abs()), parent, child)
      ensures ok ==> |ref| > 0 && ref[0] == old(ref[0]) + |AbsentUnder(pages, old(Dirs(mem, roots[parent])), old(flat).Keys)|
      ensures !ok ==> forall l :: l in old(vma) ==> PageAt(Abs(), l) == old(PageAt(Abs(), l))
      ensures if old(free) == [] then vma == old(vma) else AreasForked(old(vma), vma, parent, child)
    {
      ghost var m := Snapshot();
      ForkStart(m, child);
      ok := EnvSetupVm(child, kern);
      if ok {
        CopyAreas(parent, child);
        ok := ForkPages(child, parent, pages, m);
      }
    }

    /** The parent's areas become the child's too. */
    method CopyAreas(parent: nat, child: nat)
      requires Valid() && child in roots && parent != child && forall l :: l in vma ==> l.env != child
      modifies this`vma
      ensures Valid() && Snapshot() == old(Snapshot()).(vma := ForkAreas(old(vma), parent, child)) && Abs().data == old(Abs()).data
      ensures AreasForked(old(vma), vma, parent, child)
    {
      AreasSound(Snapshot(), parent, child);
      AreasTwice(vma, parent, child);
      vma := ForkAreas(vma, parent, child);
    }

    /** Its last part, after the directory is set up. */
    method ForkPages(child: nat, parent: nat, pages: seq<Loc>, ghost m: Machine) returns (ok: bool)
      requires Valid() && Sound(m) && Inv(AbsOf(m)) && parent in m.roots && child !in m.roots && parent != child
      requires vma == ForkAreas(m.vma, parent, child) && RootAdded(m, Snapshot().(vma := m.vma), child)
      requires AbsOf(m).data == Abs().data && flat == m.flat
      requires forall l :: l in pages <==> l in m.vma && l.env == parent
      requires forall i, j :: 0 <= i < j < |pages| ==> pages[i] != pages[j]
      modifies this
      ensures Valid() && Inv(Abs())
      ensures ok <==> |m.free| >= 1 + |DirsOf(pages) * Dirs(m.mem, m.roots[parent])|
      ensures ok ==> Enabled(AbsOf(m), Fork(parent, child)) && Abs() == DoFork(AbsOf(m), parent, child)
      ensures ok ==> |ref| > 0 && ref[0] == m.ref[0] + |AbsentUnder(pages, Dirs(m.mem, m.roots[parent]), m.flat.Keys)|
      ensures vma == old(vma) && forall l :: l in m.vma ==> PageAt(Abs(), l) == PageAt(AbsOf(m), l)
    {
      ForkStart(m, child);
      assert Needed(pages, Dirs(m.mem, m.roots[parent]), {}) == DirsOf(pages) * Dirs(m.mem, m.roots[parent]);
      ghost var done;
      ok, done := EnvCpyPgdirCow(child, parent, pages);
      PartInv(m, Snapshot(), parent, child, done);
      PartView(AbsOf(m), Abs(), parent, child, done);
      if ok {
        ForkAbs(m, Snapshot(), parent, child);
      }
    }

    /** env_free's inner loop: every present entry of one page table is removed. */
    method FreeEntries(e: nat, d: nat, ghost flat0: map<Loc, Word>)
      requires Valid() && e in roots && d < USER_PDES && Pde(mem, roots[e], Loc(e, d, 0)).flags.p
      requires flat == ExitPart(flat0, e, d, 0)
      modifies this
      ensures Valid() && Shrinks(Snapshot(), old(Snapshot()), e) && flat == ExitPart(flat0, e, d, NENTRIES)
      ensures roots[e] < old(|mem|) && mem[roots[e]] == old(mem)[roots[e]]
    {
      ghost var m := Snapshot();
      assert RootOk(mem, roots[e], owner, e);
      var t := 0;
      while t < NENTRIES
        invariant 0 <= t <= NENTRIES && Valid() && Shrinks(Snapshot(), m, e) && flat == ExitPart(flat0, e, d, t)
        invariant mem[roots[e]] == m.mem[roots[e]]
      {
        ghost var m1 := Snapshot();
        FreeEntry(Loc(e, d, t));
        ShrinksOn(Snapshot(), m1, m, e);
        ExitPartStep(flat0, e, d, t);
        t := t + 1;
      }
    }

    /** One entry of env_free's inner loop. */
    method FreeEntry(l: Loc)
      requires Valid() && InUser(roots, l) && Pde(mem, roots[l.env], l).flags.p
      modifies this
      ensures Valid() && Shrinks(Snapshot(), old(Snapshot()), l.env) && flat == old(flat) - {l}
      ensures roots[l.env] < old(|mem|) && mem[roots[l.env]] == old(mem)[roots[l.env]]
    {
      assert FlatAt(mem, roots, flat, l) && RootOk(mem, roots[l.env], owner, l.env) && PdeOk(mem, roots[l.env], owner, l.env, l.d);
      var pt := mem[mem[roots[l.env]][l.d].num];
      if pt[l.t].flags.p {
        RemovedShrinks(Snapshot(), l);
        PageRemove(l);
      } else {
        assert flat == flat - {l};
      }
    }

    /** env_free gives back one page table, emptied before. */
    method FreeTable(e: nat, d: nat)
      requires Valid() && e in roots && d < USER_PDES && At(mem, roots[e], d).flags.p
      requires forall t :: 0 <= t < NENTRIES ==> Loc(e, d, t) !in flat
      modifies this
      ensures Valid() && Shrinks(Snapshot(), old(Snapshot()), e) && flat == old(flat)
      ensures roots[e] < old(|mem|) && old(|mem[roots[e]]|) == PAGE_WORDS && mem[roots[e]] == old(mem)[roots[e]][d := ZERO]
    {
      assert PdeOk(mem, roots[e], owner, e, d);
      WithoutTableSound(Snapshot(), e, d);
      DropPde(e, d, mem[roots[e]][d].num);
    }

    method DropPde(e: nat, d: nat, t: nat)
      requires e in roots && roots[e] < |mem| && |mem[roots[e]]| == PAGE_WORDS && d < USER_PDES && t < |ref| == |alloc| && ref[t] == 1
      modifies this
      ensures Snapshot() == WithoutTable(old(Snapshot()), e, d, t)
    {
      mem := mem[roots[e] := mem[roots[e]][d := ZERO]];
      Decref(t);
    }

    /** One turn of env_free's loop over page tables. */
    method FreeDirEntry(e: nat, d: nat, ghost flat0: map<Loc, Word>)
      requires Valid() && e in roots && d < USER_PDES && flat == ExitPart(flat0, e, d, 0)
      modifies this
      ensures Valid() && Shrinks(Snapshot(), old(Snapshot()), e) && flat == ExitPart(flat0, e, d + 1, 0)
      ensures roots[e] < old(|mem|) && old(|mem[roots[e]]|) == PAGE_WORDS && |mem[roots[e]]| == PAGE_WORDS
      ensures !mem[roots[e]][d].flags.p && forall i :: 0 <= i < d ==> mem[roots[e]][i] == old(mem)[roots[e]][i]
    {
      ghost var m := Snapshot();
      assert RootOk(mem, roots[e], owner, e) && At(mem, roots[e], d) == mem[roots[e]][d];
      if mem[roots[e]][d].flags.p {
        FreeEntries(e, d, flat0);
        ghost var m1 := Snapshot();
        FreeTable(e, d);
        ShrinksOn(Snapshot(), m1, m, e);
      }
      NextTable(Snapshot(), flat0, e, d);
    }

    /** The loop of env_free over page tables: afterwards the directory is empty. */
    method FreeTables(e: nat)
      requires Valid() && e in roots
      modifies this
      ensures Valid() && Shrinks(Snapshot(), old(Snapshot()), e) && flat == ExitPart(old(flat), e, USER_PDES, 0)
      ensures forall i :: 0 <= i < USER_PDES ==> !At(mem, roots[e], i).flags.p
    {
      ghost var m := Snapshot();
      assert RootOk(mem, roots[e], owner, e);
      assert ExitPart(flat, e, 0, 0) == flat;
      var d := 0;
      while d < USER_PDES
        invariant 0 <= d <= USER_PDES && Valid() && Shrinks(Snapshot(), m, e) && flat == ExitPart(m.flat, e, d, 0)
        invariant |mem[roots[e]]| == PAGE_WORDS && forall i :: 0 <= i < d ==> !mem[roots[e]][i].flags.p
      {
        ghost var m1 := Snapshot();
        FreeDirEntry(e, d, m.flat);
        ShrinksOn(Snapshot(), m1, m, e);
        d := d + 1;
      }
      assert forall i :: 0 <= i < USER_PDES ==> At(mem, roots[e], i) == mem[roots[e]][i];
    }

    /** env_free: removes every present page, the page tables and the directory. The free list gains
        exactly the frames that only this environment used. */
    method EnvFree(e: nat)
      requires Valid() && e in roots
      modifies this
      ensures Valid() && roots == old(roots) - {e} && Abs() == DoExit(old(Abs()), e)
      ensures FreeSet(Snapshot()) == FreeSet(old(Snapshot())) + OnlyOf(old(Snapshot()), e)
    {
      ghost var m := Snapshot();
      FreeTables(e);
      FreeRoot(e);
      ExitEnd(old(flat), e, Snapshot(), m);
      ExitAbs(m, Snapshot(), e);
      ExitFree(m, Snapshot(), e);
    }

    /** The end of env_free: the areas and the directory go. */
    method FreeRoot(e: nat)
      requires Valid() && e in roots && forall d :: 0 <= d < USER_PDES ==> !At(mem, roots[e], d).flags.p
      modifies this
      ensures Valid() && roots == old(roots) - {e} && flat == old(flat) && Abs().data == old(Abs()).data
      ensures UseShrinks(owner, old(owner), e) && |mem| == old(|mem|)
      ensures vma == AreasWithout(old(vma), e)
    {
      assert RootOk(mem, roots[e], owner, e);
      WithoutRootSound(Snapshot(), e);
      ghost var target := WithoutRoot(Snapshot(), e);
      var pa := roots[e];
      vma := AreasWithout(vma, e);
      roots := roots - {e};
      Decref(pa);
      assert Snapshot() == target;
    }
  }

  /** A new table for one page does not change the directory of another environment. */
  lemma WalkedPde(m: Machine, c: Loc, l: Loc)
    requires Sound(m) && InUser(m.roots, c) && InUser(m.roots, l) && c.env != l.env
    ensures !Pde(m.mem, m.roots[c.env], c).flags.p && m.free != [] ==>
              CanTable(m, c) && Pde(NewTable(m, c).mem, m.roots[l.env], l) == Pde(m.mem, m.roots[l.env], l)
  {
    if !Pde(m.mem, m.roots[c.env], c).flags.p && m.free != [] {
      NewTableSound(m, c);
      assert RootOk(m.mem, m.roots[l.env], m.owner, l.env) && RootOk(m.mem, m.roots[c.env], m.owner, c.env);
    }
  }

  lemma RemovedShrinks(m: Machine, l: Loc)
    requires Sound(m) && InUser(m.roots, l) && l in m.flat
    ensures var t, n := Pde(m.mem, m.roots[l.env], l).num, m.flat[l].num;
            && t < |m.mem| && |m.mem[t]| == PAGE_WORDS && n < |m.ref| == |m.alloc| && m.roots[l.env] < |m.mem|
            && var m' := Removed(m, l, t, n); Shrinks(m', m, l.env) && m'.mem[m.roots[l.env]] == m.mem[m.roots[l.env]]
  {
    DedupStart(m, l);
    RootsApart(m, l);
    RemovedSound(m, l);
  }

  /** Removing a page leaves its page table and other frames in use alone. */
  lemma RemovedKeeps(m: Machine, l: Loc, f: nat)
    requires Sound(m) && InUser(m.roots, l) && l in m.flat && f in m.owner && f < |m.mem| && f != m.flat[l].num
    requires m.owner[f] == Data || m.owner[f] == Fresh
    ensures var t, n := Pde(m.mem, m.roots[l.env], l).num, m.flat[l].num;
            && t < |m.mem| && |m.mem[t]| == PAGE_WORDS && n < |m.ref| == |m.alloc|
            && var m' := Removed(m, l, t, n);
               && Pde(m'.mem, m.roots[l.env], l) == Pde(m.mem, m.roots[l.env], l) && l !in m'.flat
               && f in m'.owner && m'.owner[f] == m.owner[f] && m'.mem[f] == m.mem[f] && |m'.mem[t]| == PAGE_WORDS
  {
    DedupStart(m, l);
    RootsApart(m, l);
    assert PdeOk(m.mem, m.roots[l.env], m.owner, l.env, l.d);
  }

  /** An insertion over another page is a removal and an insertion; over the same frame it changes
      the flags only. */
  lemma InsertParts(s: State, l: Loc, f: Num20, page: Page, flags: Flags)
    ensures l in s.pt && s.pt[l].num in s.ref && s.pt[l].num != f ==>
              DoInsert(s, l, f, page, flags) == DoInsert(DoRemove(s, l), l, f, page, flags)
    ensures l in s.pt && s.pt[l].num == f ==> DoInsert(s, l, f, page, flags) == s.(pt := s.pt[l := Word(f, flags)])
  {
  }

  /** Whatever was there before, the page then has the new entry and no other page has changed. */
  lemma InsertEntry(s: State, l: Loc, f: Num20, page: Page, flags: Flags)
    ensures DoInsert(s, l, f, page, flags).pt == s.pt[l := Word(f, flags)]
  {
  }

  lemma DemandParts(s: State, l: Loc, f: Num20)
    requires l in s.vma && l !in s.pt && f !in s.ref
    ensures Enabled(s, Demand(l, f)) && DoDemand(s, l, f) == DoInsert(s, l, f, ZeroPage(), s.vma[l].(p := true))
  {
  }

  /** The head of the free list is neither the shared page nor the page table. */
  lemma DedupCopyStart(m: Machine, l: Loc)
    requires Sound(m) && l in m.flat && m.free != []
    ensures InUser(m.roots, l) && m.free[0] != m.flat[l].num && m.free[0] != Pde(m.mem, m.roots[l.env], l).num
    ensures m.free[0] != m.roots[l.env] && m.free[0] !in AbsOf(m).ref && m.free[0] < NUM_LIMIT
  {
    DedupStart(m, l);
    assert FreeFrame(m.free[0], m.owner, m.ref, m.alloc);
    assert PdeOk(m.mem, m.roots[l.env], m.owner, l.env, l.d) && RootOk(m.mem, m.roots[l.env], m.owner, l.env);
  }

  ghost function Copied(m: Machine, l: Loc, t: nat, n: nat, copy: nat, flags: Flags): Machine
    requires t < |m.mem| && |m.mem[t]| == PAGE_WORDS && l.t < NENTRIES && n < |m.mem| == |m.ref| <= NUM_LIMIT && t != copy
    requires copy < |m.mem| && m.ref[n] > 0 && copy != n
  {
    var m1 := m.(mem := m.mem[copy := m.mem[n]]);
    WithPte(m1, l, t, Word(copy, flags)).(
      ref := m.ref[n := m.ref[n] - 1][copy := m.ref[copy] + 1], owner := m.owner[copy := Data])
  }

  /** Repointing a shared page to its copy: a removal and an insertion in one. */
  lemma CopiedSound(m: Machine, l: Loc, copy: nat, flags: Flags)
    requires Sound(m) && l in m.flat && copy in m.owner && m.owner[copy] == Fresh && copy < |m.mem| && flags.p
    requires m.flat[l].num < |m.ref| && m.ref[m.flat[l].num] > 1
    ensures InUser(m.roots, l)
    ensures var t, n := Pde(m.mem, m.roots[l.env], l).num, m.flat[l].num;
            && t < |m.mem| && |m.mem[t]| == PAGE_WORDS && n < |m.mem| == |m.ref| <= NUM_LIMIT && t != copy && copy != n
            && Sound(Copied(m, l, t, n, copy, flags))
            && AbsOf(Copied(m, l, t, n, copy, flags)) == DoInsert(DoRemove(AbsOf(m), l), l, copy, m.mem[n], flags)
  {
    DedupStart(m, l);
    var t, n := Pde(m.mem, m.roots[l.env], l).num, m.flat[l].num;
    assert PdeOk(m.mem, m.roots[l.env], m.owner, l.env, l.d) && RootOk(m.mem, m.roots[l.env], m.owner, l.env);
    FilledSound(m, copy, m.mem[n]);
    var m1 := m.(mem := m.mem[copy := m.mem[n]]);
    RemovedSound(m1, l);
    CopiedInserted(m, m1, l, t, n, copy, flags);
    CopiedIs(m, l, t, n, copy, flags);
  }

  lemma CopiedInserted(m: Machine, m1: Machine, l: Loc, t: nat, n: nat, copy: nat, flags: Flags)
    requires InUser(m.roots, l) && t < |m.mem| && |m.mem[t]| == PAGE_WORDS && n < |m.ref| == |m.alloc| == |m.mem| <= NUM_LIMIT
    requires copy < |m.mem| && copy != t && copy != n && t != n && m1 == m.(mem := m.mem[copy := m.mem[n]])
    requires m.roots[l.env] < |m.mem| && m.roots[l.env] != t && m.roots[l.env] != copy && Pde(m.mem, m.roots[l.env], l).flags.p
    requires Pde(m.mem, m.roots[l.env], l).num == t && m.ref[n] > 1 && flags.p
    requires copy in m.owner && m.owner[copy] == Fresh && Sound(Removed(m1, l, t, n))
    ensures Sound(Inserted(Removed(m1, l, t, n), l, t, copy, flags))
    ensures AbsOf(Inserted(Removed(m1, l, t, n), l, t, copy, flags))
            == DoInsert(AbsOf(Removed(m1, l, t, n)), l, copy, m.mem[n], flags)
  {
    InsertedSound(Removed(m1, l, t, n), l, copy, flags);
  }

  lemma CopiedIs(m: Machine, l: Loc, t: nat, n: nat, copy: nat, flags: Flags)
    requires t < |m.mem| && |m.mem[t]| == PAGE_WORDS && l.t < NENTRIES && n < |m.mem| == |m.ref| == |m.alloc| <= NUM_LIMIT
    requires copy < |m.mem| && m.ref[n] > 1 && copy != n && t != copy && l in m.flat && flags.p
    ensures Inserted(Removed(m.(mem := m.mem[copy := m.mem[n]]), l, t, n), l, t, copy, flags)
            == Copied(m, l, t, n, copy, flags)
  {
    var m3 := Inserted(Removed(m.(mem := m.mem[copy := m.mem[n]]), l, t, n), l, t, copy, flags);
    var m4 := Copied(m, l, t, n, copy, flags);
    var row, w := m.mem[t], Word(copy, flags);
    assert row[l.t := ZERO][l.t := w] == row[l.t := w];
    assert m3.mem == m4.mem && m3.flat == m4.flat;
  }

  /** Frame 0 is never a user page. */
  lemma NullUnused(m: Machine)
    requires Sound(m)
    ensures 0 !in AbsOf(m).ref
  {
    forall f | f in m.owner && m.owner[f].Data? ensures f != 0 {
      assert FrameOk(f, m.owner, m.ref, m.alloc, m.flat);
    }
  }

  /** Allocating the copy leaves everything that page_dedup looks at alone. */
  lemma DedupAllocated(m: Machine, l: Loc)
    requires Sound(m) && l in m.flat && m.free != [] && m.free[0] < |m.mem| && m.free[0] < |m.alloc|
    ensures InUser(m.roots, l) && m.free[0] !in AbsOf(m).ref && m.free[0] < NUM_LIMIT
    ensures var m' := Allocated(m, ZeroPage());
            && Pde(m'.mem, m'.roots[l.env], l) == Pde(m.mem, m.roots[l.env], l) && m'.flat == m.flat && m'.ref == m.ref
            && m.free[0] in m'.owner && m'.owner[m.free[0]] == Fresh && |m'.mem| == |m.mem| == |m.ref|
  {
    DedupCopyStart(m, l);
    DedupStart(m, l);
  }

  lemma NoMemoryAbs(m: Machine, l: Loc)
    requires Sound(m) && l in m.flat && m.flat[l].num < |m.ref| && m.ref[m.flat[l].num] > 1
    ensures var n := m.flat[l].num;
            n in AbsOf(m).ref && AbsOf(m.(ref := m.ref[n := m.ref[n] - 1])) == DedupNoMemory(AbsOf(m), l)
  {
    assert DataOk(m.flat[l], |m.mem|, m.owner);
  }

  /** Past one directory entry: either its table has been emptied and dropped, or it had none. */
  lemma NextTable(m: Machine, flat0: map<Loc, Word>, e: nat, d: nat)
    requires Sound(m) && e in m.roots && d < USER_PDES && !At(m.mem, m.roots[e], d).flags.p
    requires m.flat == ExitPart(flat0, e, d, 0) || m.flat == ExitPart(flat0, e, d, NENTRIES)
    ensures m.flat == ExitPart(flat0, e, d + 1, 0)
  {
    forall l | l in m.flat ensures !(l.env == e && l.d == d) {
      assert FlatAt(m.mem, m.roots, m.flat, l);
    }
    assert forall l :: Before(l, e, d + 1, 0) <==> Before(l, e, d, 0) || (l.env == e && l.d == d);
    forall l | l in flat0 && l !in m.flat ensures Before(l, e, d + 1, 0) {
      assert Before(l, e, d, 0) || Before(l, e, d, NENTRIES);
    }
  }

  lemma ExitEnd(flat0: map<Loc, Word>, e: nat, m: Machine, m0: Machine)
    requires Sound(m0) && m0.flat == flat0 && m.flat == ExitPart(flat0, e, USER_PDES, 0)
    ensures m.flat == Without(flat0, e)
  {
    forall l | l in flat0 ensures Before(l, e, USER_PDES, 0) <==> l.env == e {
      assert FlatAt(m0.mem, m0.roots, m0.flat, l);
    }
  }
}
