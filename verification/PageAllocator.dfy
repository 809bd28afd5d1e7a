/** The list of free physical pages with 4 KB and 4 MB allocation (kern/pmap.c), on one list
    threaded through the page descriptors. */
module PageAllocator {
  import opened Chains

  const KB: nat := 1024

  /** struct page_info without its LRU link and its bytes. */
  datatype PageInfo = PageInfo(link: int, ref: nat, alloc: bool, huge: bool, poison: bool)

  function Links(ps: seq<PageInfo>): (r: seq<int>)
    ensures |r| == |ps|
  {
    seq(|ps|, i requires 0 <= i < |ps| => ps[i].link)
  }

  /** The page numbers from h up to i. */
  function Span(h: nat, i: nat): (r: set<int>)
    ensures forall x :: x in r <==> h <= x < i
  {
    if i <= h then {} else Span(h, i - 1) + {i - 1}
  }

  lemma SpanMore(h: nat, i: nat)
    requires h <= i
    ensures Span(h, i + 1) == Span(h, i) + {i as int}
  {
  }

  function Block(h: nat): set<int> {
    Span(h, h + KB)
  }

  predicate BlockFree(ps: seq<PageInfo>, h: nat) {
    h + KB <= |ps| && forall i :: h <= i < h + KB ==> !ps[i].alloc
  }

  /** A chain without repetition; the link of every other descriptor is NULL. */
  ghost predicate ListOk(links: seq<int>, head: int, s: seq<int>) {
    && Chain(links, head, s) && NoDup(s)
    && forall i :: 0 <= i < |links| && i !in s ==> links[i] == NULL
  }

  /** Listed pages carry no flags and no references; a 4 MB mark is on an aligned page. */
  ghost predicate InfoOk(ps: seq<PageInfo>, i: int, listed: set<int>)
    requires 0 <= i < |ps|
  {
    && (i in listed ==> !ps[i].alloc && ps[i].ref == 0)
    && (ps[i].huge || ps[i].poison ==> ps[i].alloc)
    && (ps[i].huge ==> i % 1024 == 0 && i + KB <= |ps|)
  }

  ghost predicate InfosOk(ps: seq<PageInfo>, listed: set<int>) {
    forall i {:trigger InfoOk(ps, i, listed)} :: 0 <= i < |ps| ==> InfoOk(ps, i, listed)
  }

  /** Unlinking the k-th element, as remove_element_pfl does it. */
  lemma UnlinkSound(links: seq<int>, head: int, s: seq<int>, k: nat)
    requires ListOk(links, head, s) && k < |s|
    ensures var next := links[s[k]]; var s' := s[..k] + s[k + 1..];
            && ListOk((if k == 0 then links else links[s[k - 1] := next])[s[k] := NULL], if k == 0 then next else head, s')
            && Elems(s') == Elems(s) - {s[k]}
  {
    var s' := s[..k] + s[k + 1..];
    assert forall i :: 0 <= i < |s'| ==> s'[i] == s[if i < k then i else i + 1];
    forall i, j | 0 <= i < j < |s'| ensures Differ(s'[i], s'[j]) {
      assert Differ(s[if i < k then i else i + 1], s[if j < k then j else j + 1]);
    }
    forall i | 0 <= i < |s'| ensures s'[i] != s[k] {
      assert i < k ==> Differ(s[i], s[k]);
      assert i >= k ==> Differ(s[k], s[i + 1]);
    }
    assert Elems(s') == Elems(s) - {s[k]} by {
      forall x | x in s && x != s[k] ensures x in s' {
        var i :| 0 <= i < |s| && s[i] == x;
        assert s'[if i < k then i else i - 1] == x;
      }
    }
    var links1 := if k == 0 then links else links[s[k - 1] := links[s[k]]];
    ChainUnlink(links, head, s, k);
    ChainKept(links1, links1[s[k] := NULL], if k == 0 then links[s[k]] else head, s');
    forall i | 0 <= i < |links| && i !in s' && i != s[k] ensures links1[i] == NULL {
      assert i !in Elems(s');
      assert k > 0 ==> s'[k - 1] == s[k - 1];
    }
  }

  lemma PushSound(links: seq<int>, head: int, s: seq<int>, t: int)
    requires ListOk(links, head, s) && 0 <= t < |links| && t !in s
    ensures ListOk(links[t := head], t, [t] + s) && Elems([t] + s) == Elems(s) + {t}
  {
    assert Disjoint(s, [t]);
    ChainPush(links, head, s, t);
    var s' := [t] + s;
    forall i, j | 0 <= i < j < |s'| ensures Differ(s'[i], s'[j]) {
      assert i > 0 ==> Differ(s[i - 1], s[j - 1]);
    }
  }

  datatype AllocResult = Page(index: nat) | NoMemory | Panic

  class Pool {
    const pages: array<PageInfo>
    var freeHead: int
    var freeCount: int
    ghost var free: seq<int>

    ghost predicate Listed()
      reads this, pages
    {
      ListOk(Links(pages[..]), freeHead, free) && freeCount >= |free|
    }

    ghost predicate Valid()
      reads this, pages
    {
      Listed() && InfosOk(pages[..], Elems(free))
    }

    /** Every page but those in `except` keeps its descriptor; links are the list's own business. */
    twostate predicate OthersKept(except: set<int>)
      reads this, pages
    {
      forall i :: 0 <= i < pages.Length && i !in except ==> pages[i].(link := NULL) == old(pages[i]).(link := NULL)
    }

    /** remove_head_pfl; its panic needs a referenced page at the head. */
    method RemoveHead() returns (pp: nat)
      requires Listed() && freeHead != NULL
      modifies this, pages
      ensures Listed() && pp < pages.Length && pp == old(freeHead) && free == old(free)[1..]
      ensures Elems(free) == old(Elems(free)) - {pp} && freeCount == old(freeCount) - 1 && OthersKept({})
    {
      ghost var links := Links(pages[..]);
      UnlinkSound(links, freeHead, free, 0);
      assert [] + free[1..] == free[..0] + free[1..] == free[1..];
      pp := freeHead;
      freeHead := pages[pp].link;
      pages[pp] := pages[pp].(link := NULL);
      assert Links(pages[..]) == links[pp := NULL];
      freeCount := freeCount - 1;
      free := free[1..];
    }

    /** remove_element_pfl: takes one page off the list, and does nothing for a page not on it. */
    method RemoveElement(pp: nat)
      requires Listed() && pp < pages.Length
      modifies this, pages
      ensures Listed() && Elems(free) == old(Elems(free)) - {pp} && OthersKept({})
      ensures |free| == |old(free)| - (if pp in old(free) then 1 else 0)
      ensures freeCount - |free| == old(freeCount) - |old(free)|
    {
      if freeHead == pp {
        Unlink(pp, pp, 0);
        return;
      }
      var cur, prev := freeHead, freeHead;
      ghost var k := 0;
      while cur != NULL
        invariant 0 <= k <= |free| && cur == (if k < |free| then free[k] else NULL)
        invariant k > 0 ==> prev == free[k - 1]
        invariant forall i :: 0 <= i < k ==> free[i] != pp
        decreases |free| - k
      {
        assert LinkOk(Links(pages[..]), free, k);
        if cur == pp {
          Unlink(pp, prev, k);
          return;
        }
        prev := cur;
        cur := pages[cur].link;
        k := k + 1;
      }
    }

    /** The unlinking part of remove_element_pfl. */
    method Unlink(pp: nat, prev: nat, ghost k: nat)
      requires Listed() && k < |free| && pp == free[k] && (k > 0 ==> prev == free[k - 1])
      modifies this, pages
      ensures Listed() && free == old(free)[..k] + old(free)[k + 1..] && Elems(free) == old(Elems(free)) - {pp}
      ensures freeCount == old(freeCount) - 1 && OthersKept({})
    {
      ghost var links := Links(pages[..]);
      UnlinkSound(links, freeHead, free, k);
      assert k > 0 ==> Differ(free[0], free[k]) && Differ(free[k - 1], free[k]);
      if freeHead == pp {
        freeHead := pages[pp].link;
      } else {
        pages[prev] := pages[prev].(link := pages[pp].link);
      }
      pages[pp] := pages[pp].(link := NULL);
      assert Links(pages[..]) == (if k == 0 then links else links[free[k - 1] := links[pp]])[pp := NULL];
      freeCount := freeCount - 1;
      free := free[..k] + free[k + 1..];
    }

    /** add_head_pfl. */
    method AddHead(pp: nat)
      requires Listed() && pp < pages.Length && pp !in free
      modifies this, pages
      ensures Listed() && free == [pp] + old(free) && Elems(free) == old(Elems(free)) + {pp}
      ensures freeCount == old(freeCount) + 1 && OthersKept({pp})
      ensures pages[pp] == PageInfo(old(freeHead), 0, false, false, false)
    {
      ghost var links := Links(pages[..]);
      PushSound(links, freeHead, free, pp);
      pages[pp] := PageInfo(freeHead, 0, false, false, false);
      assert Links(pages[..]) == links[pp := freeHead];
      freeHead := pp;
      freeCount := freeCount + 1;
      free := [pp] + free;
    }

    /** find_huge_page: the lowest aligned block without an allocated page. */
    method FindHugePage() returns (h: int)
      ensures h >= 0 ==> h % 1024 == 0 && BlockFree(pages[..], h) && forall j: nat :: j * 1024 < h ==> !BlockFree(pages[..], j * 1024)
      ensures h < 0 ==> h == -1 && forall j: nat :: !BlockFree(pages[..], j * 1024)
    {
      var count := 0;
      h := 0;
      var j := 0;
      while j < pages.Length / KB
        invariant 0 <= j <= pages.Length / KB && count == 0
        invariant forall i: nat :: i < j ==> !BlockFree(pages[..], i * 1024)
      {
        h := j * KB;
        var i := 0;
        while i < KB
          invariant 0 <= i <= KB && count == i && h == j * 1024
          invariant forall x :: h <= x < h + i ==> !pages[x].alloc
        {
          if !pages[i + h].alloc {
            count := count + 1;
          } else {
            count := 0;
            break;
          }
          i := i + 1;
        }
        if count == KB {
          return h;
        }
        j := j + 1;
      }
      return -1;
    }

    /** page_alloc with PREMAPPED_FLAG clear. A 4 MB request that asks for poisoning marks the first
        page before its loop looks for that mark, so it never succeeds. */
    method PageAlloc(huge: bool, poison: bool) returns (r: AllocResult)
      requires Valid()
      modifies this, pages
      ensures old(free) == [] ==> r == NoMemory
      ensures old(free) != [] && !huge ==> r == Page(old(free)[0]) && free == old(free)[1..]
      ensures old(free) != [] && huge && poison ==> r == NoMemory || r == Panic
      ensures huge && r == NoMemory ==> old(free) == [] || forall j: nat :: !BlockFree(old(pages[..]), j * 1024)
      ensures huge && r == Panic ==> poison && exists j: nat :: BlockFree(old(pages[..]), j * 1024)
      ensures r == NoMemory ==> Valid() && free == old(free) && freeCount == old(freeCount) && pages[..] == old(pages[..])
      ensures r.Page? ==>
                && Valid() && freeCount - |free| == old(freeCount) - |old(free)| && r.index < pages.Length
                && pages[r.index].alloc && pages[r.index].huge == huge && pages[r.index].poison == poison
      ensures r.Page? && huge ==>
                && r.index % 1024 == 0 && BlockFree(old(pages[..]), r.index)
                && (forall j: nat :: j * 1024 < r.index ==> !BlockFree(old(pages[..]), j * 1024))
                && Elems(free) == old(Elems(free)) - Block(r.index) && OthersKept(Block(r.index))
                && forall i :: r.index <= i < r.index + KB ==> pages[i] == PageInfo(NULL, old(pages[i].ref), true, i == r.index, false)
      ensures r.Page? && !huge ==> Elems(free) == old(Elems(free)) - {r.index} && OthersKept({r.index}) && pages[r.index].ref == 0
    {
      if freeHead == NULL {
        return NoMemory;
      }
      if huge {
        var h := FindHugePage();
        if h == -1 {
          return NoMemory;
        }
        assert BlockFree(pages[..], h / 1024 * 1024);
        r := AllocBlock(h, poison);
        return;
      }
      ghost var before := pages[..];
      assert InfoOk(before, freeHead, Elems(free));
      r := TakeSingle(poison);
      forall i | 0 <= i < pages.Length ensures InfoOk(pages[..], i, Elems(free)) {
        assert InfoOk(before, i, old(Elems(free)));
      }
    }

    /** The single-page part of page_alloc. */
    method TakeSingle(poison: bool) returns (r: AllocResult)
      requires Listed() && freeHead != NULL
      modifies this, pages
      ensures var p := old(pages[freeHead]); r == if p.alloc || p.huge || (poison && p.poison) then Panic else Page(old(freeHead))
      ensures r.Page? ==>
                && Listed() && free == old(free)[1..] && freeCount == old(freeCount) - 1 && r.index < pages.Length
                && Elems(free) == old(Elems(free)) - {r.index} && OthersKept({r.index})
                && pages[r.index] == old(pages[freeHead]).(link := NULL, alloc := true, poison := poison || old(pages[freeHead].poison))
    {
      var pp := RemoveHead();
      if pages[pp].alloc || pages[pp].huge {
        return Panic;
      }
      ghost var links := Links(pages[..]);
      if poison {
        if pages[pp].poison {
          return Panic;
        }
        pages[pp] := pages[pp].(poison := true);
      }
      pages[pp] := pages[pp].(alloc := true);
      assert Links(pages[..]) == links;
      r := Page(pp);
    }

    /** The loop body of page_alloc for 4 MB: checks and marks page i and takes it off the list. */
    method ClaimPage(i: nat, h: nat, poison: bool) returns (ok: bool)
      requires Listed() && i < pages.Length
      modifies this, pages
      ensures var p := old(pages[i]); ok == !((poison && p.poison) || (i != h && p.huge) || p.alloc)
      ensures ok ==>
                && Listed() && Elems(free) == old(Elems(free)) - {i} && OthersKept({i})
                && freeCount - |free| == old(freeCount) - |old(free)|
                && pages[i].(link := NULL) == old(pages[i]).(link := NULL, alloc := true, poison := poison || old(pages[i].poison))
    {
      ghost var links := Links(pages[..]);
      if poison {
        if pages[i].poison {
          return false;
        }
        pages[i] := pages[i].(poison := true);
      }
      if i != h && pages[i].huge {
        return false;
      }
      if pages[i].alloc {
        return false;
      }
      pages[i] := pages[i].(alloc := true);
      assert Links(pages[..]) == links;
      RemoveElement(i);
      ok := true;
    }

    /** The 4 MB part of page_alloc once a block is found. */
    method AllocBlock(h: nat, poison: bool) returns (r: AllocResult)
      requires Valid() && BlockFree(pages[..], h) && h % 1024 == 0
      modifies this, pages
      ensures r == if poison then Panic else Page(h)
      ensures !poison ==>
                && Valid() && Elems(free) == old(Elems(free)) - Block(h) && OthersKept(Block(h))
                && freeCount - |free| == old(freeCount) - |old(free)|
                && forall i :: h <= i < h + KB ==> pages[i] == PageInfo(NULL, old(pages[i].ref), true, i == h, false)
    {
      ghost var before, links, listed := pages[..], Links(pages[..]), Elems(free);
      assert forall i :: h <= i < h + KB ==> InfoOk(before, i, listed) && !before[i].alloc;
      if poison {
        pages[h] := pages[h].(poison := true);
        assert Links(pages[..]) == links;
      }
      r := TakeBlock(h, poison);
      if !poison {
        BlockSound(before, pages[..], listed, h);
        forall i | h <= i < h + KB ensures pages[i].link == NULL {
          assert i !in Elems(free);
          assert Links(pages[..])[i] == NULL;
        }
      }
    }

    /** Its marks and its loop. */
    method TakeBlock(h: nat, poison: bool) returns (r: AllocResult)
      requires Listed() && BlockFree(pages[..], h) && !pages[h].huge
      requires forall i :: h < i < h + KB ==> !pages[i].huge
      requires poison ==> pages[h].poison
      modifies this, pages
      ensures r == if poison then Panic else Page(h)
      ensures !poison ==>
                && Listed() && Elems(free) == old(Elems(free)) - Block(h)
                && freeCount - |free| == old(freeCount) - |old(free)|
                && Claimed(old(pages[..]), pages[..], h, h + KB)
    {
      ghost var before, links := pages[..], Links(pages[..]);
      pages[h] := pages[h].(huge := true);
      assert Links(pages[..]) == links;
      var i := h;
      var ok := true;
      while ok && i < h + KB
        invariant h <= i <= h + KB && (poison ==> i == h && (ok ==> pages[h].poison))
        invariant !poison ==> ok
        invariant ok ==>
            && Listed() && Elems(free) == old(Elems(free)) - Span(h, i)
            && freeCount - |free| == old(freeCount) - |old(free)|
            && Claimed(before, pages[..], h, i)
        decreases h + KB - i, ok
      {
        ghost var ps := pages[..];
        assert ClaimedAt(before, ps, i, h, i);
        ok := ClaimPage(i, h, poison);
        if ok {
          ClaimedMore(before, ps, pages[..], h, i);
          i := i + 1;
        }
      }
      r := if ok then Page(h) else Panic;
    }

    /** page_free; false stands for its panics. */
    method PageFree(pp: nat) returns (ok: bool)
      requires Valid() && pp < pages.Length
      modifies this, pages
      ensures ok == CanFree(old(pages[..]), pp)
      ensures ok ==> var size := if old(pages[pp].huge) then KB else 1;
                && Valid() && Elems(free) == old(Elems(free)) + Span(pp, pp + size) && OthersKept(Span(pp, pp + size))
                && |free| == |old(free)| + size && freeCount == old(freeCount) + size
                && pp + size <= pages.Length && (forall i :: pp <= i < pp + size ==> pages[i].(link := NULL) == CLEAR)
                && (size == 1 ==> free == [pp] + old(free))
    {
      if pages[pp].ref != 0 {
        return false;
      }
      if pages[pp].link != NULL {
        return false;
      }
      ghost var before, listed := pages[..], Elems(free);
      assert InfoOk(before, pp, listed);
      if pages[pp].huge {
        ok := CheckBlock(pp);
        assert ok <==> CanFree(before, pp);
        if ok {
          forall i | pp <= i < pp + KB ensures i !in Elems(free) {
            assert InfoOk(before, i, listed) && Releasable(before[i]);
          }
          FreeBlock(pp);
          FreedSound(before, pages[..], listed, pp, KB);
        }
        return;
      }
      if !pages[pp].alloc {
        return false;
      }
      ReleasePage(pp);
      FreedSound(before, pages[..], listed, pp, 1);
      assert Elems(free) == listed + Span(pp, pp + 1);
      ok := true;
    }

    /** The flag changes of page_free for one page, and add_head_pfl. */
    method ReleasePage(pp: nat)
      requires Listed() && pp < pages.Length && pp !in Elems(free)
      modifies this, pages
      ensures Listed() && free == [pp] + old(free) && Elems(free) == old(Elems(free)) + {pp} && freeCount == old(freeCount) + 1
      ensures OthersKept({pp}) && pages[pp].(link := NULL) == CLEAR
    {
      ghost var links := Links(pages[..]);
      if pages[pp].poison {
        pages[pp] := pages[pp].(poison := !pages[pp].poison);
      }
      pages[pp] := pages[pp].(alloc := !pages[pp].alloc);
      assert Links(pages[..]) == links;
      AddHead(pp);
    }

    /** The checking loop of page_free for 4 MB. */
    method CheckBlock(h: nat) returns (ok: bool)
      requires h + KB <= pages.Length
      ensures ok == forall i :: h <= i < h + KB ==> Releasable(pages[i])
    {
      for i := h to h + KB
        invariant forall x :: h <= x < i ==> Releasable(pages[x])
      {
        if !pages[i].alloc || pages[i].ref != 0 || pages[i].link != NULL {
          return false;
        }
      }
      ok := true;
    }

    /** The freeing loop of page_free for 4 MB. */
    method FreeBlock(h: nat)
      requires Listed() && h + KB <= pages.Length && forall i :: h <= i < h + KB ==> i !in Elems(free)
      modifies this, pages
      ensures Listed() && Elems(free) == old(Elems(free)) + Block(h) && OthersKept(Block(h))
      ensures |free| == |old(free)| + KB && freeCount == old(freeCount) + KB
      ensures forall i :: h <= i < h + KB ==> pages[i].(link := NULL) == CLEAR
    {
      ToggleHuge(h);
      ghost var before := pages[..];
      for i := h to h + KB
        invariant Listed() && Elems(free) == old(Elems(free)) + Span(h, i) && FreedUpTo(before, pages[..], h, i)
        invariant |free| == |old(free)| + i - h && freeCount == old(freeCount) + i - h
      {
        ghost var ps := pages[..];
        SpanMore(h, i);
        ReleasePage(i);
        FreedMore(before, ps, pages[..], h, i);
      }
    }

    /** The reset of the 4 MB mark. */
    method ToggleHuge(h: nat)
      requires Listed() && h < pages.Length
      modifies pages
      ensures Listed() && forall i :: 0 <= i < pages.Length && i != h ==> pages[i] == old(pages[i])
    {
      ghost var links := Links(pages[..]);
      pages[h] := pages[h].(huge := !pages[h].huge);
      assert Links(pages[..]) == links;
    }

    /** A 4 MB allocation that is freed at once restores the free set exactly if the whole block had
        been on the list; the count keeps step with the list either way. */
    method AllocThenFree() returns (r: AllocResult, ok: bool)
      requires Valid()
      modifies this, pages
      ensures ok == (r.Page? && r.index + KB <= pages.Length && forall i :: r.index <= i < r.index + KB ==> old(pages[i].ref) == 0)
      ensures ok ==> Valid() && Elems(free) == old(Elems(free)) + Block(r.index) && freeCount - |free| == old(freeCount) - |old(free)|
      ensures ok ==> (Elems(free) == old(Elems(free)) <==> Block(r.index) <= old(Elems(free)))
      ensures ok && Block(r.index) <= old(Elems(free)) ==> freeCount == old(freeCount)
    {
      r := PageAlloc(true, false);
      ok := false;
      if r.Page? {
        ghost var before := pages[..];
        ok := PageFree(r.index);
        assert ok ==> forall i :: r.index <= i < r.index + KB ==> Releasable(before[i]);
        if ok && Block(r.index) <= old(Elems(free)) {
          SameSize(free, old(free));
        }
      }
    }

    /** A 4 KB allocation that is freed at once succeeds whenever the list is not empty, and restores
        the list and the count. */
    method AllocThenFreePage(poison: bool) returns (r: AllocResult, ok: bool)
      requires Valid()
      modifies this, pages
      ensures Valid() && free == old(free) && freeCount == old(freeCount)
      ensures ok == r.Page? && r == if old(free) == [] then NoMemory else Page(old(free)[0])
    {
      r := PageAlloc(false, poison);
      ok := false;
      if r.Page? {
        FreeableExact(pages[..], free, freeHead, r.index);
        ok := PageFree(r.index);
      }
    }
  }

  const CLEAR := PageInfo(NULL, 0, false, false, false)

  predicate Releasable(p: PageInfo) {
    p.alloc && p.ref == 0 && p.link == NULL
  }

  /** page_free does not panic. */
  predicate CanFree(ps: seq<PageInfo>, pp: nat)
    requires pp < |ps|
  {
    && ps[pp].ref == 0 && ps[pp].link == NULL
    && if ps[pp].huge then pp + KB <= |ps| && forall i :: pp <= i < pp + KB ==> Releasable(ps[i]) else ps[pp].alloc
  }

  /** Pages [h, i) are cleared, all others as before. */
  ghost predicate FreedUpTo(before: seq<PageInfo>, ps: seq<PageInfo>, h: nat, i: nat) {
    |ps| == |before| && forall x :: 0 <= x < |ps| ==> ps[x].(link := NULL) == if h <= x < i then CLEAR else before[x].(link := NULL)
  }

  lemma FreedMore(before: seq<PageInfo>, ps: seq<PageInfo>, ps': seq<PageInfo>, h: nat, i: nat)
    requires FreedUpTo(before, ps, h, i) && h <= i < |ps| == |ps'| && ps'[i].(link := NULL) == CLEAR
    requires forall x :: 0 <= x < |ps| && x != i ==> ps'[x].(link := NULL) == ps[x].(link := NULL)
    ensures FreedUpTo(before, ps', h, i + 1)
  {
  }

  /** page_free accepts exactly pages that were allocated and are not referenced, all 1024 of them for
      a 4 MB page: so never a page on the list. */
  lemma FreeableExact(ps: seq<PageInfo>, free: seq<int>, head: int, pp: nat)
    requires ListOk(Links(ps), head, free) && InfosOk(ps, Elems(free)) && pp < |ps|
    ensures CanFree(ps, pp) <==>
            forall i :: pp <= i < pp + (if ps[pp].huge then KB else 1) ==> i < |ps| && i !in free && ps[i].alloc && ps[i].ref == 0
  {
    assert InfoOk(ps, pp, Elems(free));
    forall i | 0 <= i < |ps| && ps[i].alloc ensures i !in free && ps[i].link == NULL {
      assert InfoOk(ps, i, Elems(free));
      assert Links(ps)[i] == ps[i].link;
    }
  }

  lemma FreedSound(before: seq<PageInfo>, ps: seq<PageInfo>, listed: set<int>, h: nat, size: nat)
    requires InfosOk(before, listed) && |ps| == |before|
    requires forall i :: 0 <= i < |ps| && i !in Span(h, h + size) ==> ps[i].(link := NULL) == before[i].(link := NULL)
    requires forall i :: h <= i < h + size && i < |ps| ==> ps[i].(link := NULL) == CLEAR
    ensures InfosOk(ps, listed + Span(h, h + size))
  {
    var after := listed + Span(h, h + size);
    forall i | 0 <= i < |ps| ensures InfoOk(ps, i, after) {
      assert InfoOk(before, i, listed);
    }
  }

  /** Page x when the pages of block h below i are claimed. */
  predicate ClaimedAt(before: seq<PageInfo>, ps: seq<PageInfo>, x: nat, h: nat, i: nat)
    requires x < |ps| == |before|
  {
    ps[x].(link := NULL) == before[x].(link := NULL, alloc := before[x].alloc || h <= x < i, huge := before[x].huge || x == h)
  }

  ghost predicate Claimed(before: seq<PageInfo>, ps: seq<PageInfo>, h: nat, i: nat) {
    |ps| == |before| && forall x: nat {:trigger ClaimedAt(before, ps, x, h, i)} :: x < |ps| ==> ClaimedAt(before, ps, x, h, i)
  }

  /** Claiming a whole block leaves the other descriptors alone and keeps the invariant. */
  lemma BlockSound(before: seq<PageInfo>, ps: seq<PageInfo>, listed: set<int>, h: nat)
    requires InfosOk(before, listed) && Claimed(before, ps, h, h + KB) && BlockFree(before, h) && h % 1024 == 0
    ensures InfosOk(ps, listed - Block(h))
    ensures forall i :: 0 <= i < |ps| && i !in Block(h) ==> ps[i].(link := NULL) == before[i].(link := NULL)
    ensures forall i :: h <= i < h + KB ==> ps[i].(link := NULL) == PageInfo(NULL, before[i].ref, true, i == h, false)
  {
    forall i | 0 <= i < |ps| ensures InfoOk(ps, i, listed - Block(h)) {
      assert ClaimedAt(before, ps, i, h, h + KB) && InfoOk(before, i, listed);
    }
    forall i | 0 <= i < |ps| && i !in Block(h) ensures ps[i].(link := NULL) == before[i].(link := NULL) {
      assert ClaimedAt(before, ps, i, h, h + KB);
    }
    forall i | h <= i < h + KB ensures ps[i].(link := NULL) == PageInfo(NULL, before[i].ref, true, i == h, false) {
      assert ClaimedAt(before, ps, i, h, h + KB) && InfoOk(before, i, listed) && !before[i].alloc;
    }
  }

  lemma ClaimedMore(before: seq<PageInfo>, ps: seq<PageInfo>, ps': seq<PageInfo>, h: nat, i: nat)
    requires Claimed(before, ps, h, i) && i < |ps| == |ps'| && h <= i
    requires forall x :: 0 <= x < |ps| && x != i ==> ps'[x].(link := NULL) == ps[x].(link := NULL)
    requires ps'[i].(link := NULL) == ps[i].(link := NULL, alloc := true)
    ensures Claimed(before, ps', h, i + 1)
  {
    var next := i + 1;
    forall x: nat | x < |ps'| ensures ClaimedAt(before, ps', x, h, next) {
      assert ClaimedAt(before, ps, x, h, i);
    }
  }
}
