/** An environment's areas as the kernel keeps them: 105 preallocated slots on a free list and a
    list ordered by address, split, merged and relinked in place (kern/vma.c, kern/syscall.c). */
module VmaSpace {
  import opened Options
  import opened Chains
  import opened VmaAreas

  const NVMA: nat := 105

  datatype Slot = Slot(area: Area, link: int)

  const BLANK := Area(Unused, 0, 0, 0, 0, 0, 0, false)

  /** vma_consistency_check(v, VMA_UNUSED): the huge mark is not looked at. */
  predicate Blank(v: Area) {
    v.(huge := false) == BLANK
  }

  function Links(ss: seq<Slot>): (r: seq<int>)
    ensures |r| == |ss|
  {
    seq(|ss|, i requires 0 <= i < |ss| => ss[i].link)
  }

  ghost function AreasOf(ss: seq<Slot>, order: seq<int>): (r: seq<Area>)
    requires forall i :: 0 <= i < |order| ==> 0 <= order[i] < |ss|
    ensures |r| == |order|
  {
    seq(|order|, i requires 0 <= i < |order| => ss[order[i]].area)
  }

  /** ROUNDUP(n, PGSIZE) on 32-bit numbers. */
  function RoundUp(n: nat): nat {
    (n + PGSIZE - 1) % ADDR_LIMIT / PGSIZE * PGSIZE
  }

  /** The least multiple of the page size that is not less, or 0 where that does not fit 32 bits. */
  lemma RoundUpExact(n: nat, m: nat)
    requires n < ADDR_LIMIT && m % PGSIZE == 0 && n <= m < n + PGSIZE
    ensures RoundUp(n) == if m < ADDR_LIMIT then m else 0
  {
    assert m == m / PGSIZE * PGSIZE;
    assert n + PGSIZE - 1 == m / PGSIZE * PGSIZE + (n + PGSIZE - 1 - m);
    assert (n + PGSIZE - 1) / PGSIZE == m / PGSIZE;
  }

  lemma RoundUpAligned(n: nat)
    requires n % PGSIZE == 0 && n < ADDR_LIMIT
    ensures RoundUp(n) == n
  {
    assert (n + PGSIZE - 1) / PGSIZE == n / PGSIZE;
  }

  ghost predicate Ascending(vs: seq<Area>) {
    forall i, j :: 0 <= i < j < |vs| ==> vs[i].va < vs[j].va
  }

  lemma SortedAscends(vs: seq<Area>)
    requires Sorted(vs)
    ensures Ascending(vs)
  {
    forall i, j | 0 <= i < j < |vs| ensures vs[i].va < vs[j].va {
      assert AreaOk(vs[i]) && Below(vs[i], vs[j]);
    }
  }

  /** vma_new: made, refused with -1, or a null dereference because no slot is left. */
  datatype NewResult = Made | Refused | Fault

  /** vma_consistency_check(v, v.kind) on an area in use. */
  predicate Consistent(v: Area) {
    match v.kind
    case Binary => v.va != 0 && v.len > 0 && v.src != 0 && v.srcSize != 0
    case Anon => v.len > 0 && v.src == 0 && v.srcSize == 0 && v.dst == 0
    case Unused => Blank(v)
  }

  /** vma_split_lookup: NULL, the slot of the middle part, the mark 1 of a removal, or a kernel
      panic or null dereference. */
  datatype SplitResult = Nothing | Piece(slot: int) | Removed | Panic

  /** A system call's result, or a kernel panic or null dereference. */
  datatype Outcome = Ret(code: int) | Crash

  /** vma_split_lookup can split this area around the range. */
  predicate Splits(w: Area, va: nat, size: nat) {
    w.kind == Anon && !w.huge && va + size <= End(w)
  }

  /** New slots that a split needs when the middle part keeps the old one. */
  function Cuts(w: Area, va: nat, size: nat): nat {
    (if w.va < va then 1 else 0) + (if va + size < End(w) then 1 else 0)
  }

  /** Page-aligned, nonempty, without wraparound. */
  predicate RangeOk(va: nat, size: nat) {
    size > 0 && va % PGSIZE == 0 && size % PGSIZE == 0 && va + size < ADDR_LIMIT
  }

  ghost predicate SamePerms(vs: seq<Area>, vs': seq<Area>) {
    forall a: nat :: PermAt(vs', a) == PermAt(vs, a)
  }

  /** The permission map is p on [va, va + size) and unchanged elsewhere. */
  ghost predicate Updated(vs: seq<Area>, vs': seq<Area>, va: nat, size: nat, p: Option<int>) {
    forall a: nat :: PermAt(vs', a) == if va <= a < va + size then p else PermAt(vs, a)
  }

  class Space {
    const slots: array<Slot>
    var freeHead: int
    var allocHead: int
    ghost var alloc: seq<int>
    ghost var free: seq<int>

    /** The two lists partition the slots, and free slots are blank. */
    ghost predicate Linked()
      reads this, slots
    {
      && slots.Length == NVMA && Split(alloc, free, NVMA)
      && Chain(Links(slots[..]), allocHead, alloc) && Chain(Links(slots[..]), freeHead, free)
      && (forall i :: 0 <= i < |free| ==> Blank(slots[free[i]].area))
    }

    ghost function View(): seq<Area>
      reads this, slots
      requires forall i :: 0 <= i < |alloc| ==> 0 <= alloc[i] < slots.Length
    {
      AreasOf(slots[..], alloc)
    }

    ghost predicate Valid()
      reads this, slots
    {
      Linked() && Sorted(View())
    }

    /** vma_proc_init. */
    constructor ()
      ensures Valid() && View() == [] && fresh(slots)
    {
      slots := new Slot[NVMA](i => Slot(BLANK, if i == NVMA - 1 then NULL else i + 1));
      freeHead, allocHead := 0, NULL;
      alloc, free := [], seq(NVMA, i => i);
      new;
      forall i | 0 <= i < |free| ensures LinkOk(Links(slots[..]), free, i) {}
    }

    /** vma_lookup: the slot of the first area that covers the address. */
    method VmaLookup(a: nat) returns (t: int, ghost k: nat)
      requires Linked()
      ensures k <= |alloc| && t == (if k < |alloc| then alloc[k] else NULL)
      ensures k < |alloc| ==> Covers(View()[k], a)
      ensures forall i :: 0 <= i < k ==> !Covers(View()[i], a)
      ensures t != NULL ==> 0 <= t < slots.Length
      ensures PermAt(View(), a) == if t == NULL then None else Some(slots[t].area.perm)
    {
      t, k := allocHead, 0;
      while t != NULL
        invariant 0 <= k <= |alloc| && t == (if k < |alloc| then alloc[k] else NULL)
        invariant forall i :: 0 <= i < k ==> !Covers(View()[i], a)
        decreases |alloc| - k
      {
        assert LinkOk(Links(slots[..]), alloc, k) && View()[k] == slots[t].area;
        var v := slots[t].area;
        if a >= v.va && a < v.va + v.len {
          PermFound(View(), a, k);
          return;
        }
        t := slots[t].link;
        k := k + 1;
      }
      PermMissing(View(), a);
    }

    /** The search of vma_insert: where the new element goes, and the element before it. */
    method FindInsert(va: nat) returns (old_: int, ghost k: nat)
      requires Chain(Links(slots[..]), allocHead, alloc) && Ascending(View()) && allocHead != NULL
      requires slots[alloc[0]].area.va <= va
      ensures 0 < k <= |alloc| && old_ == alloc[k - 1]
      ensures forall i :: 0 <= i < k ==> View()[i].va <= va
      ensures forall i :: k <= i < |alloc| ==> va < View()[i].va
    {
      var i := allocHead;
      old_ := allocHead;
      k := 0;
      while i != NULL
        invariant 0 <= k <= |alloc| && i == (if k < |alloc| then alloc[k] else NULL)
        invariant old_ == (if k > 0 then alloc[k - 1] else allocHead)
        invariant forall j :: 0 <= j < k ==> View()[j].va <= va
        decreases |alloc| - k
      {
        assert LinkOk(Links(slots[..]), alloc, k) && View()[k] == slots[i].area;
        if slots[i].area.va > va {
          break;
        }
        old_ := i;
        i := slots[i].link;
        k := k + 1;
      }
      assert View()[0] == slots[allocHead].area;
    }

    /** vma_insert with ordered set: links slot t, not on any list, into the ordered list. */
    method VmaInsert(t: int) returns (ghost k: nat)
      requires slots.Length == NVMA && 0 <= t < NVMA
      requires Chain(Links(slots[..]), allocHead, alloc) && NoDup(alloc) && Disjoint(alloc, [t]) && Ascending(View())
      modifies this, slots
      ensures k <= |old(alloc)| && InsertPoint(old(View()), k, old(slots[t].area))
      ensures alloc == old(alloc)[..k] + [t] + old(alloc)[k..] && free == old(free) && freeHead == old(freeHead)
      ensures Chain(Links(slots[..]), allocHead, alloc)
      ensures forall i :: 0 <= i < NVMA ==> slots[i].area == old(slots[i].area)
      ensures forall i :: 0 <= i < NVMA && i != t && (k == 0 || i != old(alloc)[k - 1]) ==> slots[i] == old(slots[i])
    {
      ghost var links, vs, v := Links(slots[..]), View(), slots[t].area;
      if allocHead == NULL || slots[allocHead].area.va > slots[t].area.va {
        assert vs != [] ==> vs[0] == slots[alloc[0]].area;
        assert InsertPoint(vs, 0, v) by {
          assert forall i :: 0 <= i < |vs| ==> vs[0].va <= vs[i].va;
        }
        ChainPush(links, allocHead, alloc, t);
        slots[t] := slots[t].(link := allocHead);
        assert Links(slots[..]) == links[t := allocHead];
        allocHead := t;
        k := 0;
        alloc := [t] + alloc;
        assert alloc == old(alloc)[..k] + [t] + old(alloc)[k..];
      } else {
        var prev;
        prev, k := FindInsert(slots[t].area.va);
        assert View() == vs;
        assert InsertPoint(vs, k, v);
        assert Differ(alloc[k - 1], [t][0]);
        ChainInsert(links, allocHead, alloc, k, t);
        slots[t] := slots[t].(link := slots[prev].link);
        slots[prev] := slots[prev].(link := t);
        assert Links(slots[..]) == links[t := links[prev]][prev := t];
        alloc := alloc[..k] + [t] + alloc[k..];
      }
    }

    /** vma_new. The caller supposes that the new range is not mapped by any area. */
    method VmaNew(va: nat, len: nat, kind: Kind, src: nat, fileSize: nat, dst: nat, perm: int)
      returns (r: NewResult, t: int, ghost k: nat)
      requires Linked() && Ascending(View()) && kind != Unused
      modifies this, slots
      ensures r == Refused <==> (kind == Binary && (src == 0 || fileSize == 0)) || va % PGSIZE != 0
      ensures r == Fault ==> old(free) == []
      ensures r == Made ==> old(free) != []
      ensures Linked() && slots.Length == NVMA
      ensures r != Made ==> alloc == old(alloc) && free == old(free) && slots[..] == old(slots[..])
      ensures r == Made ==>
                && t == old(free)[0] && free == old(free)[1..] && k <= |old(alloc)|
                && alloc == old(alloc)[..k] + [t] + old(alloc)[k..]
                && var v := Area(kind, va, RoundUp(len), perm, if kind == Binary then src else 0, fileSize, dst, old(slots[t].area.huge));
                   InsertPoint(old(View()), k, v) && View() == old(View())[..k] + [v] + old(View())[k..]
      ensures r == Made ==> forall i :: 0 <= i < NVMA && i != t ==> slots[i].area == old(slots[i].area)
    {
      t, k := NULL, 0;
      if kind == Binary && (src == 0 || fileSize == 0) {
        return Refused, t, k;
      }
      if va % PGSIZE != 0 {
        return Refused, t, k;
      }
      t := freeHead;
      if t == NULL {
        return Fault, t, k;
      }
      k := TakeSlot(t, Area(kind, va, RoundUp(len), perm, if kind == Binary then src else 0, fileSize, dst, slots[t].area.huge));
      r := Made;
    }

    /** vma_remove_head of the free list, the new fields, and vma_insert. */
    method TakeSlot(t: int, v: Area) returns (ghost k: nat)
      requires Linked() && Ascending(View()) && free != [] && t == freeHead
      modifies this, slots
      ensures Linked() && free == old(free)[1..] && k <= |old(alloc)| && t == old(free)[0]
      ensures alloc == old(alloc)[..k] + [t] + old(alloc)[k..] && InsertPoint(old(View()), k, v)
      ensures View() == old(View())[..k] + [v] + old(View())[k..]
      ensures forall i :: 0 <= i < NVMA && i != t ==> slots[i].area == old(slots[i].area)
    {
      ghost var areas := View();
      TakeApart(alloc, free, NVMA);
      PopSlot(t, v);
      ghost var links1 := Links(slots[..]);
      k := VmaInsert(t);
      SplitTake(old(alloc), old(free), NVMA, k);
      FreeKept(links1, Links(slots[..]), freeHead, free, old(alloc), t);
      assert forall i :: 0 <= i < |free| ==> Differ(free[i], [t][0]);
      assert View() == areas[..k] + [v] + areas[k..];
    }

    /** vma_remove_head of the free list, and the new fields. */
    method PopSlot(t: int, v: Area)
      requires Linked() && free != [] && t == freeHead
      modifies this`freeHead, this`free, slots
      ensures slots.Length == NVMA && free == old(free)[1..] && t == old(free)[0]
      ensures slots[..] == old(slots[..])[t := Slot(v, NULL)]
      ensures Chain(Links(slots[..]), allocHead, alloc) && Chain(Links(slots[..]), freeHead, free)
      ensures View() == old(View()) && Disjoint(alloc, [t])
      ensures forall i :: 0 <= i < |free| ==> Blank(slots[free[i]].area)
    {
      ghost var links, areas := Links(slots[..]), View();
      ChainTail(links, freeHead, free);
      SplitTake(alloc, free, NVMA, 0);
      assert forall i :: 0 <= i < |alloc| ==> Differ(alloc[i], [t][0]);
      assert forall i :: 1 <= i < |free| ==> Differ(free[0], free[i]);
      freeHead := slots[t].link;
      slots[t] := Slot(v, NULL);
      free := free[1..];
      assert Links(slots[..]) == links[t := NULL];
      ChainKept(links, Links(slots[..]), allocHead, alloc);
      ChainKept(links, Links(slots[..]), freeHead, free);
      assert View() == areas;
    }

    /** Writes the fields of an area on the ordered list, in place. */
    method SetArea(t: int, v: Area, ghost k: nat)
      requires Linked() && k < |alloc| && t == alloc[k]
      modifies slots
      ensures Linked() && View() == old(View())[k := v]
      ensures slots[..] == old(slots[..])[t := Slot(v, old(slots[t].link))]
    {
      ghost var links, vs := Links(slots[..]), View();
      slots[t] := slots[t].(area := v);
      assert Links(slots[..]) == links;
      forall i | 0 <= i < |free| ensures Blank(slots[free[i]].area) {
        assert Differ(alloc[k], free[i]);
      }
      forall i | 0 <= i < |alloc| ensures View()[i] == vs[k := v][i] {
        assert i < k ==> Differ(alloc[i], alloc[k]);
        assert k < i ==> Differ(alloc[k], alloc[i]);
      }
    }

    /** The search of vma_remove_alloced: the first area with the same start and length. */
    method FindSame(va: nat, len: nat) returns (t: int, prev: int, ghost k: nat)
      requires Linked()
      ensures k <= |alloc| && t == (if k < |alloc| then alloc[k] else NULL)
      ensures k < |alloc| ==> prev == alloc[if k > 0 then k - 1 else 0]
      ensures k < |alloc| ==> View()[k].va == va && View()[k].len == len
      ensures forall i :: 0 <= i < k ==> !(View()[i].va == va && View()[i].len == len)
    {
      t, prev, k := allocHead, allocHead, 0;
      while t != NULL
        invariant 0 <= k <= |alloc| && t == (if k < |alloc| then alloc[k] else NULL)
        invariant prev == (if k > 0 then alloc[k - 1] else allocHead)
        invariant forall i :: 0 <= i < k ==> !(View()[i].va == va && View()[i].len == len)
        decreases |alloc| - k
      {
        assert LinkOk(Links(slots[..]), alloc, k) && View()[k] == slots[t].area;
        if slots[t].area.va == va && slots[t].area.len == len {
          return;
        }
        prev := t;
        t := slots[t].link;
        k := k + 1;
      }
    }

    /** vma_remove_alloced: unlinks the first area with the start and length of slot v, clears its
        fields except the huge mark, and pushes the slot onto the free list. */
    method VmaRemoveAlloced(v: int) returns (found: bool, ghost k: nat)
      requires Linked() && 0 <= v < NVMA
      modifies this, slots
      ensures Linked() && k <= |old(alloc)| && found == (k < |old(alloc)|)
      ensures forall i :: 0 <= i < k ==> !(old(View())[i].va == old(slots[v].area.va) && old(View())[i].len == old(slots[v].area.len))
      ensures found ==> old(View())[k].va == old(slots[v].area.va) && old(View())[k].len == old(slots[v].area.len)
      ensures !found ==> alloc == old(alloc) && free == old(free) && slots[..] == old(slots[..])
      ensures found ==> alloc == old(alloc)[..k] + old(alloc)[k + 1..] && free == [old(alloc)[k]] + old(free)
      ensures found ==> View() == old(View())[..k] + old(View())[k + 1..]
    {
      ghost var vs := View();
      var t, prev;
      t, prev, k := FindSame(slots[v].area.va, slots[v].area.len);
      assert View() == vs;
      found := t != NULL;
      if found {
        Release(t, prev, k);
      }
    }

    /** Unlinks slot t at position k and gives it back. */
    method Release(t: int, prev: int, ghost k: nat)
      requires Linked() && k < |alloc| && t == alloc[k] && prev == alloc[if k > 0 then k - 1 else 0]
      modifies this, slots
      ensures Linked() && alloc == old(alloc)[..k] + old(alloc)[k + 1..] && free == [t] + old(free)
      ensures View() == old(View())[..k] + old(View())[k + 1..]
    {
      ghost var links, vs, rest := Links(slots[..]), View(), alloc[..k] + alloc[k + 1..];
      ReleaseLinks(links, allocHead, freeHead, alloc, free, k);
      SplitGive(alloc, free, NVMA, k);
      if allocHead == t {
        allocHead := slots[t].link;
      }
      slots[prev] := slots[prev].(link := slots[t].link);
      var cleared := BLANK.(huge := slots[t].area.huge);
      slots[t] := Slot(cleared, freeHead);
      assert Links(slots[..]) == (if k == 0 then links else links[prev := links[t]])[t := freeHead];
      freeHead := t;
      alloc, free := rest, [t] + free;
      assert forall i :: 0 <= i < NVMA && i != t ==> slots[i].area == old(slots[i].area);
      AreasWithoutOne(old(slots[..]), slots[..], old(alloc), k);
    }

    /** Adds the length of slot v2 to slot v1: neighbours on the ordered list, or two free slots,
        which vma_list_merge's cursor reaches after a merge. */
    method AddLength(v1: int, v2: int, ghost j: nat, ghost onFree: bool)
      requires Linked()
      requires !onFree ==> j + 1 < |alloc| && v1 == alloc[j] && v2 == alloc[j + 1]
      requires onFree ==> v1 in free && v2 in free
      modifies slots
      ensures Linked() && slots[..] == old(slots[..])[v1 := slots[v1]]
      ensures onFree ==> slots[..] == old(slots[..])
      ensures !onFree ==> View() == old(View())[j := old(View())[j].(len := old(View())[j].len + old(View())[j + 1].len)]
    {
      ghost var links, vs := Links(slots[..]), View();
      var v, w := slots[v1].area, slots[v2].area;
      assert onFree ==> Blank(v) && Blank(w);
      slots[v1] := slots[v1].(area := v.(len := v.len + w.len));
      assert Links(slots[..]) == links;
      if onFree {
        assert slots[..] == old(slots[..]);
      } else {
        assert forall i :: 0 <= i < |free| ==> Differ(alloc[j], free[i]);
        assert forall i :: 0 <= i < j ==> Differ(alloc[i], alloc[j]);
        assert forall i :: j < i < |alloc| ==> Differ(alloc[j], alloc[i]);
        assert View() == vs[j := vs[j].(len := vs[j].len + vs[j + 1].len)];
      }
    }

    /** vma_merge of neighbours, or of two free slots: then nothing is found to remove. */
    method VmaMerge(v1: int, v2: int, ghost j: nat, ghost onFree: bool) returns (r: int)
      requires Valid()
      requires !onFree ==> j + 1 < |alloc| && v1 == alloc[j] && v2 == alloc[j + 1] && Mergeable(View()[j], View()[j + 1])
      requires onFree ==> v1 in free && v2 in free
      modifies this, slots
      ensures Valid()
      ensures onFree ==> r == -1 && View() == old(View()) && alloc == old(alloc) && free == old(free)
      ensures !onFree ==> r == 0 && View() == Merged(old(View()), j) && free == [v2] + old(free)
    {
      ghost var vs := View();
      SortedAscends(vs);
      if !onFree {
        MergedSorted(vs, j);
        assert Differ(alloc[j], alloc[j + 1]) && vs[j + 1] == slots[v2].area;
      }
      AddLength(v1, v2, j, onFree);
      ghost var vs1 := View();
      var found; ghost var k;
      found, k := VmaRemoveAlloced(v2);
      assert onFree && k < |vs| ==> AreaOk(vs[k]);
      if !onFree {
        MergeFound(vs, vs1, j, k);
      }
      return if found then 0 else -1;
    }

    /** One visit of vma_list_merge to the neighbours prev and cur. */
    method MergeVisit(prev: int, cur: int, ghost j: nat, ghost onFree: bool) returns (r: int)
      requires Valid()
      requires !onFree ==> j + 1 < |alloc| && prev == alloc[j] && cur == alloc[j + 1]
      requires onFree ==> |free| >= 2 && prev == free[0] && cur == free[1]
      modifies this, slots
      ensures Valid()
      ensures onFree ==> r == -1 && View() == old(View()) && alloc == old(alloc) && free == old(free)
      ensures !onFree ==> (r == 0 <==> Mergeable(old(View())[j], old(View())[j + 1])) && (r == 0 || r == 1)
      ensures r == 1 ==> alloc == old(alloc) && free == old(free) && slots[..] == old(slots[..])
      ensures !onFree && r == 0 ==> View() == Merged(old(View()), j) && free == [cur] + old(free)
    {
      ghost var vs := View();
      var v, w := slots[prev].area, slots[cur].area;
      assert !onFree ==> v == vs[j] && w == vs[j + 1];
      if v.va + v.len == w.va && v.perm == w.perm && v.kind != Binary && w.kind != Binary {
        if onFree {
          assert Differ(free[0], free[1]);
          assert Blank(v) && Blank(w);
        }
        r := VmaMerge(prev, cur, j, onFree);
        return;
      }
      return 1;
    }

    /** Where vma_list_merge's cursor is: before the merge at pair k of the ordered list, after it at
        the head of the free list. `vs`, `al` and `fr` are the lists at the call. */
    ghost predicate Cursor(vs: seq<Area>, al: seq<int>, fr: seq<int>, prev: int, cur: int, k: nat, merged: bool)
      reads this, slots
    {
      && Valid() && k < |vs| && (forall i :: 0 <= i < k ==> !Mergeable(vs[i], vs[i + 1]))
      && if merged then
           && k + 1 < |vs| && Mergeable(vs[k], vs[k + 1]) && View() == Merged(vs, k)
           && free == [prev] + fr && cur == (if fr == [] then NULL else fr[0])
         else
           && View() == vs && alloc == al && free == fr
           && prev == alloc[k] && cur == (if k + 1 < |alloc| then alloc[k + 1] else NULL)
    }

    /** One turn of vma_list_merge's loop. */
    method MergeTurn(prev: int, cur: int, ghost vs: seq<Area>, ghost al: seq<int>, ghost fr: seq<int>, ghost k: nat, ghost merged: bool)
      returns (r: int, next: int, ghost k1: nat, ghost merged1: bool)
      requires Cursor(vs, al, fr, prev, cur, k, merged) && cur != NULL
      modifies this, slots
      ensures r == -1 <==> merged
      ensures merged ==> Cursor(vs, al, fr, prev, cur, k, true) && k1 == k && merged1
      ensures !merged ==> r == 0 && Cursor(vs, al, fr, cur, next, k1, merged1) && (merged1 || k1 > k)
    {
      next, k1, merged1 := NULL, k, merged;
      r := MergeVisit(prev, cur, k, merged);
      if r < 0 {
        return;
      }
      if r == 0 {
        merged1 := true;
        assert LinkOk(Links(slots[..]), free, 0);
      } else {
        k1 := k + 1;
        assert LinkOk(Links(slots[..]), alloc, k1);
        assert View() == vs;
      }
      r := 0;
      next := slots[cur].link;
    }

    /** vma_list_merge: merges the first mergeable pair, at most one. Afterwards its cursor stands
        on the free list, where a second free slot makes it return -1. */
    method VmaListMerge() returns (r: int, ghost k: nat)
      requires Valid()
      modifies this, slots
      ensures Valid() && FirstPair(old(View()), k)
      ensures k + 1 < |old(View())| ==> View() == Merged(old(View()), k) && r == if old(free) == [] then 0 else -1
      ensures k + 1 >= |old(View())| ==> View() == old(View()) && r == 0
      ensures forall a: nat :: PermAt(View(), a) == PermAt(old(View()), a)
    {
      ghost var vs, al, fr := View(), alloc, free;
      k := 0;
      var prev := allocHead;
      if prev == NULL {
        return 0, k;
      }
      assert LinkOk(Links(slots[..]), alloc, 0);
      var cur := slots[prev].link;
      ghost var merged := false;
      r := 0;
      while cur != NULL
        invariant Cursor(vs, al, fr, prev, cur, k, merged) && r == 0
        decreases if merged then 0 else |vs| - k
      {
        var next;
        r, next, k, merged := MergeTurn(prev, cur, vs, al, fr, k, merged);
        if r < 0 {
          break;
        }
        prev, cur := cur, next;
      }
      assert merged ==> k + 1 < |vs| && Mergeable(vs[k], vs[k + 1]) && View() == Merged(vs, k) && Sorted(vs);
      if merged {
        MergedPerms(vs, k);
      }
    }

    /** vma_new for an anonymous part of an area. */
    method NewPart(va: nat, len: nat, perm: int) returns (ok: bool, ghost i: nat)
      requires Linked() && Ascending(View()) && va % PGSIZE == 0 && len % PGSIZE == 0 && len < ADDR_LIMIT
      modifies this, slots
      ensures ok == (old(free) != [])
      ensures ok ==>
                && Linked() && free == old(free)[1..] && i <= |old(alloc)|
                && alloc == old(alloc)[..i] + [old(free)[0]] + old(alloc)[i..]
                && View() == old(View())[..i] + [View()[i]] + old(View())[i..] && InsertPoint(old(View()), i, View()[i])
                && View()[i].(huge := false) == Area(Anon, va, len, perm, 0, 0, 0, false)
    {
      RoundUpAligned(len);
      var r, t;
      r, t, i := VmaNew(va, len, Anon, 0, 0, 0, perm);
      ok := r == Made;
    }

    /** Cuts an area in two: slot t keeps the part w1, a new slot takes [va, va + len). */
    method Cut(t: int, w1: Area, va: nat, len: nat, ghost k: nat) returns (ok: bool, ghost k1: nat)
      requires Valid() && k < |alloc| && t == alloc[k] && View()[k].kind == Anon && Halves(View()[k], w1, va, len)
      modifies this, slots
      ensures ok == (old(free) != [])
      ensures ok ==> Valid() && free == old(free)[1..] && SamePerms(old(View()), View())
      ensures ok ==> k1 < |alloc| && alloc[k1] == t && View()[k1] == w1
    {
      ghost var vs := View();
      SetArea(t, w1, k);
      EditSorted(vs, k, w1);
      SortedAscends(View());
      assert AreaOk(vs[k]);
      ghost var i;
      ok, i := NewPart(va, len, w1.perm);
      k1 := if i <= k then k + 1 else k;
      if ok {
        CutSound(vs, k, w1, i, View()[i]);
      }
    }

    /** vma_split_lookup that keeps the middle part: slot t at position k becomes [va, va + size). */
    method SplitKeep(t: int, va: nat, size: nat, ghost k: nat) returns (r: SplitResult, ghost k1: nat)
      requires Valid() && RangeOk(va, size) && k < |alloc| && t == alloc[k]
      requires Covers(View()[k], va) && Splits(View()[k], va, size)
      modifies this, slots
      ensures r == if |old(free)| < Cuts(old(View())[k], va, size) then Panic else Piece(t)
      ensures r == Piece(t) ==>
                && Valid() && SamePerms(old(View()), View()) && |free| == |old(free)| - Cuts(old(View())[k], va, size)
                && k1 < |alloc| && alloc[k1] == t && View()[k1] == old(View())[k].(va := va, len := size)
    {
      assert View()[k] == slots[t].area && AreaOk(View()[k]);
      var w := slots[t].area;
      k1 := k;
      if va > w.va {
        var ok;
        ok, k1 := Cut(t, w.(va := va, len := w.len - (va - w.va)), w.va, va - w.va, k);
        if !ok {
          return Panic, k1;
        }
      }
      if va + size < End(w) {
        assert View()[k1] == slots[t].area;
        var tail := w.len - (va + size - w.va);
        var ok;
        ok, k1 := Cut(t, slots[t].area.(len := slots[t].area.len - tail), va + size, tail, k1);
        if !ok {
          return Panic, k1;
        }
      }
      r := Piece(t);
    }

    /** vma_new for a part that overlaps no area. */
    method AddPart(va: nat, len: nat, perm: int) returns (ok: bool)
      requires Valid() && RangeOk(va, len) && Apart(View(), Area(Anon, va, len, perm, 0, 0, 0, false))
      modifies this, slots
      ensures ok == (old(free) != [])
      ensures ok ==> Valid() && free == old(free)[1..] && Updated(old(View()), View(), va, len, Some(perm))
      ensures ok ==> forall v :: Apart(old(View()), v) && Separate(v, va, len) ==> Apart(View(), v)
    {
      ghost var vs := View();
      SortedAscends(vs);
      ghost var i;
      ok, i := NewPart(va, len, perm);
      if ok {
        AddSound(vs, i, View()[i]);
      }
    }

    /** vma_split_lookup that removes: the area goes, and what lies outside the range comes back. */
    method SplitRemove(t: int, va: nat, size: nat, ghost k: nat) returns (r: SplitResult)
      requires Valid() && RangeOk(va, size) && k < |alloc| && t == alloc[k]
      requires Covers(View()[k], va) && Splits(View()[k], va, size)
      modifies this, slots
      ensures r == if |old(free)| + 1 < Cuts(old(View())[k], va, size) then Panic else Removed
      ensures r == Removed ==> Valid() && Updated(old(View()), View(), va, size, None)
      ensures r == Removed ==> |free| == |old(free)| + 1 - Cuts(old(View())[k], va, size)
    {
      ghost var vs := View();
      assert vs[k] == slots[t].area && AreaOk(vs[k]);
      var w := slots[t].area;
      RemoveOne(t, k);
      ghost var vs1 := View();
      if va > w.va {
        var ok := AddPart(w.va, va - w.va, w.perm);
        if !ok {
          return Panic;
        }
      }
      ghost var vs2 := View();
      if va + size < End(w) {
        var ok := AddPart(va + size, w.len - (va + size - w.va), w.perm);
        if !ok {
          return Panic;
        }
      }
      r := Removed;
      RemovalPerms(vs, vs1, vs2, View(), w, va, size);
    }

    /** vma_remove_alloced on an area of the list takes out that area and no other. */
    method RemoveOne(t: int, ghost k: nat)
      requires Valid() && k < |alloc| && t == alloc[k]
      modifies this, slots
      ensures Valid() && free == [t] + old(free)
      ensures View() == old(View())[..k] + old(View())[k + 1..]
      ensures Updated(old(View()), View(), old(View())[k].va, old(View())[k].len, None)
      ensures forall v :: Inside(v, old(View())[k]) ==> Apart(View(), v)
    {
      ghost var vs := View();
      SortedAscends(vs);
      assert vs[k] == slots[t].area;
      var found; ghost var i;
      found, i := VmaRemoveAlloced(t);
      assert i == k;
      RemoveSound(vs, k);
    }

    /** vma_split_lookup. */
    method VmaSplitLookup(va: nat, size: nat, remove: bool) returns (r: SplitResult, ghost k: nat, ghost k1: nat)
      requires Valid() && RangeOk(va, size)
      modifies this, slots
      ensures k <= |old(alloc)| && (k < |old(alloc)| ==> Covers(old(View())[k], va)) && (k == |old(alloc)| ==> PermAt(old(View()), va) == None)
      ensures k == |old(alloc)| ==> r == Nothing
      ensures k < |old(alloc)| ==> var w := old(View())[k];
                r == if !Consistent(w) then Panic
                     else if !Splits(w, va, size) then Nothing
                     else if Cuts(w, va, size) > |old(free)| + (if remove then 1 else 0) then Panic
                     else if remove then Removed else Piece(old(alloc)[k])
      ensures r == Nothing ==> Valid() && View() == old(View()) && alloc == old(alloc) && free == old(free)
      ensures r == Removed ==> Valid() && Updated(old(View()), View(), va, size, None)
      ensures r.Piece? ==> && Valid() && SamePerms(old(View()), View())
                           && |free| == |old(free)| - Cuts(old(View())[k], va, size)
                           && k1 < |alloc| && alloc[k1] == r.slot && View()[k1] == old(View())[k].(va := va, len := size)
    {
      ghost var vs := View();
      var t;
      t, k := VmaLookup(va);
      assert View() == vs;
      k1 := k;
      if t == NULL {
        PermMissing(vs, va);
        return Nothing, k, k1;
      }
      assert vs[k] == slots[t].area;
      if !Consistent(slots[t].area) {
        return Panic, k, k1;
      }
      if slots[t].area.huge {
        return Nothing, k, k1;
      }
      if slots[t].area.kind != Anon {
        return Nothing, k, k1;
      }
      if va + size > slots[t].area.va + slots[t].area.len && va >= slots[t].area.va {
        return Nothing, k, k1;
      }
      if remove {
        r := SplitRemove(t, va, size, k);
      } else {
        r, k1 := SplitKeep(t, va, size, k);
      }
    }

    /** vma_change_perm on the area itself. */
    method VmaChangePerm(t: int, perm: int, ghost k: nat)
      requires Valid() && k < |alloc| && t == alloc[k]
      modifies slots
      ensures Valid() && View() == old(View())[k := old(View())[k].(perm := perm)]
      ensures Updated(old(View()), View(), old(View())[k].va, old(View())[k].len, Some(perm))
    {
      ghost var vs := View();
      assert vs[k] == slots[t].area;
      SetArea(t, slots[t].area.(perm := perm), k);
      PermChanged(vs, k, perm);
    }

    /** sys_vma_protect: a pointwise update of the permission map on the range, whatever
        vma_list_merge returns. `before` is the list just before the merge. */
    method SysVmaProtect(va: nat, size: nat, perm: int) returns (r: Outcome, ghost k: nat, ghost before: seq<Area>)
      requires Valid() && RangeOk(va, size)
      modifies this, slots
      ensures k <= |old(alloc)| && (k < |old(alloc)| ==> Covers(old(View())[k], va))
      ensures k == |old(alloc)| ==> PermAt(old(View()), va) == None && r == Ret(0)
      ensures k < |old(alloc)| ==> var w := old(View())[k];
                r == if w.perm == perm then Ret(1)
                     else if !Consistent(w) then Crash
                     else if !Splits(w, va, size) then Ret(0)
                     else if |old(free)| < Cuts(w, va, size) then Crash
                     else if HasPair(before) && |old(free)| > Cuts(w, va, size) then Ret(0) else Ret(1)
      ensures r != Crash ==> Valid() && SamePerms(before, View())
      ensures k < |old(alloc)| && r != Crash && Splits(old(View())[k], va, size) ==> Updated(old(View()), View(), va, size, Some(perm))
      ensures r != Crash && (k == |old(alloc)| || !Splits(old(View())[k], va, size)) ==> View() == old(View())
    {
      ghost var vs := View();
      var v;
      v, k := VmaLookup(va);
      assert View() == vs;
      before := vs;
      if v == NULL {
        PermMissing(vs, va);
        return Ret(0), k, before;
      }
      assert vs[k] == slots[v].area;
      if slots[v].area.perm == perm {
        SamePermUpdate(vs, k, va, size);
        return Ret(1), k, before;
      }
      r, before := ProtectSplit(va, size, perm, k);
    }

    /** The part of sys_vma_protect behind its two early exits. */
    method ProtectSplit(va: nat, size: nat, perm: int, ghost k: nat) returns (r: Outcome, ghost before: seq<Area>)
      requires Valid() && RangeOk(va, size) && k < |alloc| && Covers(View()[k], va)
      modifies this, slots
      ensures var w := old(View())[k];
              r == if !Consistent(w) then Crash
                   else if !Splits(w, va, size) then Ret(0)
                   else if |old(free)| < Cuts(w, va, size) then Crash
                   else if HasPair(before) && |old(free)| > Cuts(w, va, size) then Ret(0) else Ret(1)
      ensures r != Crash ==> Valid() && SamePerms(before, View())
      ensures r != Crash && Splits(old(View())[k], va, size) ==> Updated(old(View()), View(), va, size, Some(perm))
      ensures r != Crash && !Splits(old(View())[k], va, size) ==> View() == old(View())
    {
      ghost var vs := View();
      before := vs;
      var s; ghost var i, k1;
      s, i, k1 := VmaSplitLookup(va, size, false);
      SameArea(vs, va, i, k);
      if s == Panic {
        return Crash, before;
      }
      if s == Nothing {
        return Ret(0), before;
      }
      VmaChangePerm(s.slot, perm, k1);
      before := View();
      var code; ghost var j;
      code, j := VmaListMerge();
      assert HasPair(before) <==> j + 1 < |before| by {
        PairFound(before, j);
      }
      return Ret(if code != 0 then 0 else 1), before;
    }

    /** sys_vma_destroy: removes the range from the permission map. Without an area at the address
        the code reads through NULL; a huge area is never removed. */
    method SysVmaDestroy(va: nat, size: nat) returns (r: Outcome, ghost k: nat)
      requires Valid() && RangeOk(va, size)
      modifies this, slots
      ensures k <= |old(alloc)| && (k < |old(alloc)| ==> Covers(old(View())[k], va))
      ensures k == |old(alloc)| ==> PermAt(old(View()), va) == None && r == Crash
      ensures k < |old(alloc)| ==> var w := old(View())[k];
                r == if w.huge && (w.len != size || w.va != va) then Ret(-1)
                     else if !Consistent(w) then Crash
                     else if !Splits(w, va, size) then Ret(-1)
                     else if Cuts(w, va, size) == 2 && old(free) == [] then Crash else Ret(0)
      ensures r == Ret(0) ==> Valid() && Updated(old(View()), View(), va, size, None)
      ensures r == Ret(-1) ==> Valid() && View() == old(View())
    {
      ghost var vs := View();
      var v;
      v, k := VmaLookup(va);
      assert View() == vs;
      if v == NULL {
        PermMissing(vs, va);
        return Crash, k;
      }
      assert vs[k] == slots[v].area;
      if slots[v].area.huge && (slots[v].area.len != size || slots[v].area.va != va) {
        return Ret(-1), k;
      }
      var s; ghost var i, k1;
      s, i, k1 := VmaSplitLookup(va, size, true);
      SameArea(vs, va, i, k);
      return (match s case Panic => Crash case Nothing => Ret(-1) case _ => Ret(0)), k;
    }
  }

  predicate PairAt(vs: seq<Area>, j: nat) {
    j + 1 < |vs| && Mergeable(vs[j], vs[j + 1])
  }

  ghost predicate HasPair(vs: seq<Area>) {
    exists j: nat :: PairAt(vs, j)
  }

  lemma PairFound(vs: seq<Area>, j: nat)
    requires FirstPair(vs, j)
    ensures HasPair(vs) <==> j + 1 < |vs|
  {
    assert j + 1 < |vs| ==> PairAt(vs, j);
  }

  lemma SameArea(vs: seq<Area>, a: nat, i: nat, k: nat)
    requires Sorted(vs) && i <= |vs| && k < |vs| && Covers(vs[k], a)
    requires if i < |vs| then Covers(vs[i], a) else PermAt(vs, a) == None
    ensures i == k
  {
    SortedPerm(vs, a, k);
    if i < |vs| && i != k {
      OneCovers(vs, a, i, k);
    }
  }

  /** Protecting with the permission an area already has changes nothing inside that area. */
  lemma SamePermUpdate(vs: seq<Area>, k: nat, va: nat, size: nat)
    requires Sorted(vs) && k < |vs| && Covers(vs[k], va)
    ensures va + size <= End(vs[k]) ==> Updated(vs, vs, va, size, Some(vs[k].perm))
  {
    forall a: nat | va <= a < va + size <= End(vs[k]) ensures PermAt(vs, a) == Some(vs[k].perm) {
      SortedPerm(vs, a, k);
    }
  }

  lemma PermChanged(vs: seq<Area>, k: nat, perm: int)
    requires Sorted(vs) && k < |vs|
    ensures var vs' := vs[k := vs[k].(perm := perm)]; Sorted(vs') && Updated(vs, vs', vs[k].va, vs[k].len, Some(perm))
  {
    assert AreaOk(vs[k]);
    EditSorted(vs, k, vs[k].(perm := perm));
    forall a: nat {
      EditPerm(vs, k, vs[k].(perm := perm), a);
    }
  }

  /** Two parts that make up an area: w1, which keeps its fields, and [va, va + len). */
  predicate Halves(w: Area, w1: Area, va: nat, len: nat) {
    && w1 == w.(va := w1.va, len := w1.len) && AreaOk(w1) && len > 0 && va % PGSIZE == 0 && len % PGSIZE == 0
    && ((w1.va == w.va && End(w1) == va && va + len == End(w)) || (va == w.va && va + len == w1.va && End(w1) == End(w)))
  }

  predicate Separate(v: Area, va: nat, len: nat) {
    End(v) <= va || va + len <= v.va
  }

  ghost predicate Apart(vs: seq<Area>, v: Area) {
    forall i :: 0 <= i < |vs| ==> Beside(vs[i], v)
  }

  predicate Inside(v: Area, w: Area) {
    w.va <= v.va && End(v) <= End(w)
  }

  lemma CutSound(vs: seq<Area>, k: nat, w1: Area, i: nat, v: Area)
    requires Sorted(vs) && k < |vs| && Halves(vs[k], w1, v.va, v.len) && v.kind == Anon && v.src == 0 && v.perm == w1.perm
    requires InsertPoint(vs[k := w1], i, v)
    ensures var vs' := vs[k := w1][..i] + [v] + vs[k := w1][i..]; Sorted(vs') && SamePerms(vs, vs')
  {
    var vs1 := vs[k := w1];
    EditSorted(vs, k, w1);
    assert Apart(vs1, v) by {
      forall j | 0 <= j < |vs1| ensures Beside(vs1[j], v) {
        assert j < k ==> Below(vs[j], vs[k]);
        assert k < j ==> Below(vs[k], vs[j]);
      }
    }
    assert AreaOk(vs[k]);
    InsertSorted(vs1, i, v);
    forall a: nat ensures PermAt(vs1[..i] + [v] + vs1[i..], a) == PermAt(vs, a) {
      EditPerm(vs, k, w1, a);
      InsertPerm(vs1, i, v, a);
      if Covers(vs[k], a) {
        SortedPerm(vs, a, k);
      }
    }
  }

  lemma AddSound(vs: seq<Area>, i: nat, v: Area)
    requires Sorted(vs) && AreaOk(v) && InsertPoint(vs, i, v) && Apart(vs, v)
    ensures var vs' := vs[..i] + [v] + vs[i..];
            && Sorted(vs') && Updated(vs, vs', v.va, v.len, Some(v.perm))
            && forall x :: Apart(vs, x) && Separate(x, v.va, v.len) ==> Apart(vs', x)
  {
    InsertSorted(vs, i, v);
    forall a: nat {
      InsertPerm(vs, i, v, a);
    }
  }

  lemma RemoveSound(vs: seq<Area>, k: nat)
    requires Sorted(vs) && k < |vs|
    ensures var vs' := vs[..k] + vs[k + 1..];
            && Sorted(vs') && Updated(vs, vs', vs[k].va, vs[k].len, None)
            && forall v :: Inside(v, vs[k]) ==> Apart(vs', v)
  {
    var vs' := vs[..k] + vs[k + 1..];
    RemoveSorted(vs, k);
    forall a: nat {
      RemovePerm(vs, k, a);
    }
    forall v, i | Inside(v, vs[k]) && 0 <= i < |vs'| ensures Beside(vs'[i], v) {
      assert i < k ==> Below(vs[i], vs[k]);
      assert i >= k ==> Below(vs[k], vs[i + 1]);
    }
  }

  /** Taking the whole area out and putting back what is before and behind the range. */
  lemma RemovalPerms(vs: seq<Area>, vs1: seq<Area>, vs2: seq<Area>, vs3: seq<Area>, w: Area, va: nat, size: nat)
    requires Sorted(vs) && w in vs && Covers(w, va) && va + size <= End(w)
    requires Updated(vs, vs1, w.va, w.len, None)
    requires if va > w.va then Updated(vs1, vs2, w.va, va - w.va, Some(w.perm)) else vs2 == vs1
    requires if va + size < End(w) then Updated(vs2, vs3, va + size, End(w) - (va + size), Some(w.perm)) else vs3 == vs2
    ensures Updated(vs, vs3, va, size, None)
  {
    var k :| 0 <= k < |vs| && vs[k] == w;
    forall a: nat ensures PermAt(vs3, a) == if va <= a < va + size then None else PermAt(vs, a) {
      if Covers(w, a) {
        SortedPerm(vs, a, k);
      }
    }
  }

  lemma MergedPerms(vs: seq<Area>, k: nat)
    requires Sorted(vs) && k + 1 < |vs| && Mergeable(vs[k], vs[k + 1])
    ensures forall a: nat :: PermAt(Merged(vs, k), a) == PermAt(vs, a)
  {
    forall a: nat ensures PermAt(Merged(vs, k), a) == PermAt(vs, a) {
      MergedPerm(vs, k, a);
    }
  }

  /** vma_remove_alloced, given the second of two neighbours, finds just that one. */
  lemma MergeFound(vs: seq<Area>, vs1: seq<Area>, j: nat, k: nat)
    requires Ascending(vs) && j + 1 < |vs| && k <= |vs| && vs1 == vs[j := vs[j].(len := vs[j].len + vs[j + 1].len)]
    requires forall i :: 0 <= i < k ==> !(vs1[i].va == vs[j + 1].va && vs1[i].len == vs[j + 1].len)
    requires k < |vs| ==> vs1[k].va == vs[j + 1].va
    ensures k == j + 1 && vs1[..k] + vs1[k + 1..] == Merged(vs, j)
  {
    assert vs1[j + 1] == vs[j + 1];
    assert k < |vs| ==> vs1[k].va == vs[k].va;
  }

  /** Bypassing the k-th allocated slot and pushing it onto the free list gives both lists. */
  lemma ReleaseLinks(links: seq<int>, allocHead: int, freeHead: int, alloc: seq<int>, free: seq<int>, k: nat)
    requires Chain(links, allocHead, alloc) && Chain(links, freeHead, free) && Split(alloc, free, |links|) && k < |alloc|
    ensures var t, rest := alloc[k], alloc[..k] + alloc[k + 1..];
            var links' := (if k == 0 then links else links[alloc[k - 1] := links[t]])[t := freeHead];
            && Chain(links', if k == 0 then links[t] else allocHead, rest) && Chain(links', t, [t] + free)
            && (k > 0 ==> allocHead != t) && (forall i :: 0 <= i < |rest| ==> rest[i] != t) && (forall i :: 0 <= i < |free| ==> free[i] != t)
  {
    var t, rest := alloc[k], alloc[..k] + alloc[k + 1..];
    var links1 := if k == 0 then links else links[alloc[k - 1] := links[t]];
    ChainUnlink(links, allocHead, alloc, k);
    SplitGive(alloc, free, |links|, k);
    assert k > 0 ==> Differ(alloc[0], alloc[k]);
    forall i | 0 <= i < |free| ensures free[i] != t && (k > 0 ==> free[i] != alloc[k - 1]) {
      assert Differ(alloc[k], free[i]) && (k > 0 ==> Differ(alloc[k - 1], free[i]));
    }
    ChainKept(links, links1, freeHead, free);
    ChainPush(links1, freeHead, free, t);
    forall i | 0 <= i < |rest| ensures rest[i] != t {
      assert Differ(rest[i], [t][0]);
    }
    ChainKept(links1, links1[t := freeHead], if k == 0 then links[t] else allocHead, rest);
  }

  /** The head of the free list is neither on the rest of that list nor allocated. */
  lemma TakeApart(alloc: seq<int>, free: seq<int>, n: nat)
    requires Split(alloc, free, n) && free != []
    ensures Disjoint(free[1..], [free[0]]) && Disjoint(alloc, free[1..]) && Disjoint(alloc, [free[0]])
  {
    SplitTake(alloc, free, n, 0);
    forall i, j | 0 <= i < |free[1..]| && 0 <= j < 1 ensures Differ(free[1..][i], [free[0]][j]) {
      assert Differ(free[0], free[i + 1]);
    }
    forall i, j | 0 <= i < |alloc| && 0 <= j < |free[1..]| ensures Differ(alloc[i], free[1..][j]) {
      assert Differ(alloc[i], free[j + 1]);
    }
  }

  lemma AreasWithoutOne(ss: seq<Slot>, ss': seq<Slot>, order: seq<int>, k: nat)
    requires |ss'| == |ss| && k < |order| && (forall i :: 0 <= i < |order| ==> 0 <= order[i] < |ss|)
    requires forall i :: 0 <= i < |ss| && i != order[k] ==> ss'[i].area == ss[i].area
    requires var rest := order[..k] + order[k + 1..]; forall i :: 0 <= i < |rest| ==> rest[i] != order[k]
    ensures AreasOf(ss', order[..k] + order[k + 1..]) == AreasOf(ss, order)[..k] + AreasOf(ss, order)[k + 1..]
  {
    var rest := order[..k] + order[k + 1..];
    assert forall i :: 0 <= i < |rest| ==> rest[i] == order[if i < k then i else i + 1];
  }

  /** Insertion changes the links of t and of one allocated slot, so the free list is kept. */
  lemma FreeKept(links: seq<int>, links': seq<int>, head: int, free: seq<int>, alloc: seq<int>, t: int)
    requires Chain(links, head, free) && |links'| == |links| && Disjoint(alloc, free) && Disjoint(free, [t])
    requires forall i :: 0 <= i < |links| && i != t && i !in alloc ==> links'[i] == links[i]
    ensures Chain(links', head, free)
  {
    forall i | 0 <= i < |free| ensures free[i] != t && free[i] !in alloc {
      assert Differ(free[i], [t][0]);
      assert forall j :: 0 <= j < |alloc| ==> Differ(alloc[j], free[i]);
    }
    ChainKept(links, links', head, free);
  }
}
