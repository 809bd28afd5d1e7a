/** Virtual memory areas in list order, and the address-to-permission map they stand for. */
module VmaAreas {
  import opened Options

  const PGSIZE: nat := 4096
  const ADDR_LIMIT: nat := 0x1_0000_0000

  datatype Kind = Unused | Anon | Binary

  /** struct vma without its link. */
  datatype Area = Area(kind: Kind, va: nat, len: nat, perm: int, src: nat, srcSize: nat, dst: nat, huge: bool)

  function End(v: Area): nat {
    v.va + v.len
  }

  predicate Covers(v: Area, a: nat) {
    v.va <= a < End(v)
  }

  /** What vma_lookup finds for an address, as a permission. */
  function PermAt(vs: seq<Area>, a: nat): Option<int> {
    if vs == [] then None else if Covers(vs[0], a) then Some(vs[0].perm) else PermAt(vs[1..], a)
  }

  /** What vma_new makes: a binary area has a source, an anonymous one has none. */
  predicate Sourced(v: Area) {
    if v.kind == Binary then v.src != 0 && v.srcSize != 0 else v.src == 0
  }

  predicate AreaOk(v: Area) {
    Sourced(v) && v.kind != Unused && v.len > 0 && v.va % PGSIZE == 0 && v.len % PGSIZE == 0 && End(v) < ADDR_LIMIT
  }

  predicate Below(v: Area, w: Area) {
    End(v) <= w.va
  }

  predicate Beside(v: Area, w: Area) {
    Below(v, w) || Below(w, v)
  }

  /** Sorted, disjoint, nonempty, page-aligned. */
  ghost predicate Sorted(vs: seq<Area>) {
    && (forall i {:trigger AreaOk(vs[i])} :: 0 <= i < |vs| ==> AreaOk(vs[i]))
    && (forall i, j {:trigger Below(vs[i], vs[j])} :: 0 <= i < j < |vs| ==> Below(vs[i], vs[j]))
  }

  lemma {:induction false} PermFound(vs: seq<Area>, a: nat, k: nat)
    requires k < |vs| && Covers(vs[k], a) && forall i :: 0 <= i < k ==> !Covers(vs[i], a)
    ensures PermAt(vs, a) == Some(vs[k].perm)
  {
    if k > 0 {
      PermFound(vs[1..], a, k - 1);
    }
  }

  lemma {:induction false} PermMissing(vs: seq<Area>, a: nat)
    requires forall i :: 0 <= i < |vs| ==> !Covers(vs[i], a)
    ensures PermAt(vs, a) == None
  {
    if vs != [] {
      PermMissing(vs[1..], a);
    }
  }

  /** In a sorted list at most one area covers an address. */
  lemma OneCovers(vs: seq<Area>, a: nat, i: nat, j: nat)
    requires Sorted(vs) && i < |vs| && j < |vs| && Covers(vs[i], a) && i != j
    ensures !Covers(vs[j], a)
  {
    assert i < j ==> Below(vs[i], vs[j]);
    assert j < i ==> Below(vs[j], vs[i]);
  }

  lemma SortedPerm(vs: seq<Area>, a: nat, k: nat)
    requires Sorted(vs) && k < |vs| && Covers(vs[k], a)
    ensures PermAt(vs, a) == Some(vs[k].perm)
  {
    forall i | 0 <= i < k ensures !Covers(vs[i], a) {
      OneCovers(vs, a, k, i);
    }
    PermFound(vs, a, k);
  }

  /** Changes that keep every other area: the permission map changes only where the old or the new
      k-th area covers. */
  lemma EditPerm(vs: seq<Area>, k: nat, v: Area, a: nat)
    requires Sorted(vs) && k < |vs| && vs[k].va <= v.va && End(v) <= End(vs[k])
    ensures PermAt(vs[k := v], a) == (if Covers(v, a) then Some(v.perm)
                                      else if Covers(vs[k], a) then None else PermAt(vs, a))
  {
    var vs' := vs[k := v];
    if Covers(vs[k], a) {
      forall i | 0 <= i < |vs| && i != k ensures !Covers(vs'[i], a) {
        OneCovers(vs, a, k, i);
      }
      if Covers(v, a) {
        PermFound(vs', a, k);
      } else {
        PermMissing(vs', a);
      }
    } else {
      SamePerm(vs, vs', a);
    }
  }

  /** Lists of equal length whose areas cover the address alike. */
  lemma {:induction false} SamePerm(vs: seq<Area>, vs': seq<Area>, a: nat)
    requires |vs'| == |vs|
    requires forall i :: 0 <= i < |vs| ==> Covers(vs'[i], a) == Covers(vs[i], a)
    requires forall i :: 0 <= i < |vs| && Covers(vs[i], a) ==> vs'[i].perm == vs[i].perm
    ensures PermAt(vs', a) == PermAt(vs, a)
  {
    if vs != [] {
      SamePerm(vs[1..], vs'[1..], a);
    }
  }

  lemma {:induction false} PermAppend(vs: seq<Area>, ws: seq<Area>, a: nat)
    ensures PermAt(vs + ws, a) == (if PermAt(vs, a).Some? then PermAt(vs, a) else PermAt(ws, a))
  {
    if vs == [] {
      assert vs + ws == ws;
    } else {
      PermAppend(vs[1..], ws, a);
      assert (vs + ws)[1..] == vs[1..] + ws;
    }
  }

  /** A new area that overlaps no old one adds its own addresses. */
  lemma InsertPerm(vs: seq<Area>, k: nat, v: Area, a: nat)
    requires k <= |vs| && forall i :: 0 <= i < |vs| ==> Beside(vs[i], v)
    ensures PermAt(vs[..k] + [v] + vs[k..], a) == (if Covers(v, a) then Some(v.perm) else PermAt(vs, a))
  {
    PermAppend(vs[..k] + [v], vs[k..], a);
    PermAppend(vs[..k], [v], a);
    PermAppend(vs[..k], vs[k..], a);
    assert vs[..k] + vs[k..] == vs;
    assert PermAt([v], a) == (if Covers(v, a) then Some(v.perm) else None) by {
      assert [v][1..] == [];
    }
    if Covers(v, a) {
      forall i | 0 <= i < |vs[..k]| ensures !Covers(vs[..k][i], a) {
        assert Beside(vs[i], v);
      }
      PermMissing(vs[..k], a);
    }
  }

  /** Removing an area removes its addresses. */
  lemma RemovePerm(vs: seq<Area>, k: nat, a: nat)
    requires Sorted(vs) && k < |vs|
    ensures PermAt(vs[..k] + vs[k + 1..], a) == (if Covers(vs[k], a) then None else PermAt(vs, a))
  {
    var ws := vs[..k] + vs[k + 1..];
    PermAppend(vs[..k], vs[k + 1..], a);
    PermAppend(vs[..k], vs[k..], a);
    assert vs[..k] + vs[k..] == vs && vs[k..][1..] == vs[k + 1..];
    if Covers(vs[k], a) {
      forall i | 0 <= i < |ws| ensures !Covers(ws[i], a) {
        OneCovers(vs, a, k, if i < k then i else i + 1);
      }
      PermMissing(ws, a);
    }
  }

  // ---------- order ----------

  /** The k-th area may shrink. */
  lemma EditSorted(vs: seq<Area>, k: nat, v: Area)
    requires Sorted(vs) && k < |vs| && vs[k].va <= v.va && End(v) <= End(vs[k]) && AreaOk(v)
    ensures Sorted(vs[k := v])
  {
    var vs' := vs[k := v];
    forall i | 0 <= i < |vs'| ensures AreaOk(vs'[i]) {
      assert AreaOk(vs[i]);
    }
    forall i, j | 0 <= i < j < |vs'| ensures Below(vs'[i], vs'[j]) {
      assert Below(vs[i], vs[j]);
    }
  }

  /** Where vma_insert puts a new area: behind every area that starts at or before it. */
  predicate InsertPoint(vs: seq<Area>, k: nat, v: Area) {
    && k <= |vs|
    && (forall i :: 0 <= i < k ==> vs[i].va <= v.va)
    && (forall i :: k <= i < |vs| ==> v.va < vs[i].va)
  }

  lemma InsertSorted(vs: seq<Area>, k: nat, v: Area)
    requires Sorted(vs) && AreaOk(v) && InsertPoint(vs, k, v)
    requires forall i :: 0 <= i < |vs| ==> Beside(vs[i], v)
    ensures Sorted(vs[..k] + [v] + vs[k..])
  {
    var vs' := vs[..k] + [v] + vs[k..];
    forall i | 0 <= i < |vs'| ensures AreaOk(vs'[i]) {
      assert i < k ==> AreaOk(vs[i]);
      assert i > k ==> AreaOk(vs[i - 1]);
    }
    forall i, j | 0 <= i < j < |vs'| ensures Below(vs'[i], vs'[j]) {
      var x, y := if i < k then i else i - 1, if j < k then j else j - 1;
      if i == k {
        assert AreaOk(vs[y]) && Beside(vs[y], v);
      } else if j == k {
        assert AreaOk(vs[x]) && Beside(vs[x], v);
      } else {
        assert Below(vs[x], vs[y]);
      }
    }
  }

  lemma RemoveSorted(vs: seq<Area>, k: nat)
    requires Sorted(vs) && k < |vs|
    ensures Sorted(vs[..k] + vs[k + 1..])
  {
    var ws := vs[..k] + vs[k + 1..];
    assert forall i :: 0 <= i < |ws| ==> ws[i] == vs[if i < k then i else i + 1];
    forall i | 0 <= i < |ws| ensures AreaOk(ws[i]) {
      assert AreaOk(vs[if i < k then i else i + 1]);
    }
    forall i, j | 0 <= i < j < |ws| ensures Below(ws[i], ws[j]) {
      assert Below(vs[if i < k then i else i + 1], vs[if j < k then j else j + 1]);
    }
  }

  // ---------- merging ----------

  /** vma_list_merge's test on neighbours. */
  predicate Mergeable(v: Area, w: Area) {
    End(v) == w.va && v.perm == w.perm && v.kind != Binary && w.kind != Binary
  }

  function Merged(vs: seq<Area>, k: nat): seq<Area>
    requires k + 1 < |vs|
  {
    vs[..k] + [vs[k].(len := vs[k].len + vs[k + 1].len)] + vs[k + 2..]
  }

  /** The first pair of neighbours that vma_list_merge merges, or the number of pairs. */
  predicate FirstPair(vs: seq<Area>, k: nat) {
    && (k + 1 < |vs| ==> Mergeable(vs[k], vs[k + 1]))
    && (k == 0 || k < |vs|)
    && forall i :: 0 <= i < k && i + 1 < |vs| ==> !Mergeable(vs[i], vs[i + 1])
  }

  lemma MergedPerm(vs: seq<Area>, k: nat, a: nat)
    requires Sorted(vs) && k + 1 < |vs| && Mergeable(vs[k], vs[k + 1])
    ensures PermAt(Merged(vs, k), a) == PermAt(vs, a)
  {
    var v, w := vs[k], vs[k + 1];
    var m := v.(len := v.len + w.len);
    assert vs == vs[..k] + ([v, w] + vs[k + 2..]);
    assert Merged(vs, k) == vs[..k] + ([m] + vs[k + 2..]);
    PermAppend(vs[..k], [v, w] + vs[k + 2..], a);
    PermAppend(vs[..k], [m] + vs[k + 2..], a);
    assert ([m] + vs[k + 2..])[1..] == vs[k + 2..];
    assert ([v, w] + vs[k + 2..])[1..] == [w] + vs[k + 2..];
    assert ([w] + vs[k + 2..])[1..] == vs[k + 2..];
    assert AreaOk(v) && AreaOk(w);
  }

  lemma MergedSorted(vs: seq<Area>, k: nat)
    requires Sorted(vs) && k + 1 < |vs| && Mergeable(vs[k], vs[k + 1])
    ensures Sorted(Merged(vs, k))
  {
    var ws := Merged(vs, k);
    assert forall i :: 0 <= i < |ws| && i != k ==> ws[i] == vs[if i < k then i else i + 1];
    assert AreaOk(vs[k]) && AreaOk(vs[k + 1]);
    forall i | 0 <= i < |ws| ensures AreaOk(ws[i]) {
      assert AreaOk(vs[if i <= k then i else i + 1]);
    }
    forall i, j | 0 <= i < j < |ws| ensures Below(ws[i], ws[j]) {
      assert Below(vs[if i < k then i else i + 1], vs[if j <= k then j else j + 1]);
    }
  }
}
