/** Singly linked lists threaded through a preallocated array: `links[i]` is the successor of
    element i, and a chain is the sequence of elements reached from a head. */
module Chains {
  const NULL: int := -1

  /** Inequality under a name, so that the quantifiers below are used on demand. */
  predicate Differ(x: int, y: int) {
    x != y
  }

  ghost predicate NoDup(s: seq<int>) {
    forall i, j {:trigger Differ(s[i], s[j])} :: 0 <= i < j < |s| ==> Differ(s[i], s[j])
  }

  ghost predicate Disjoint(s: seq<int>, t: seq<int>) {
    forall i, j {:trigger Differ(s[i], t[j])} :: 0 <= i < |s| && 0 <= j < |t| ==> Differ(s[i], t[j])
  }

  predicate LinkOk(links: seq<int>, s: seq<int>, i: nat)
    requires i < |s|
  {
    && 0 <= s[i] < |links|
    && links[s[i]] == (if i + 1 < |s| then s[i + 1] else NULL)
  }

  ghost predicate Chain(links: seq<int>, head: int, s: seq<int>) {
    && head == (if s == [] then NULL else s[0])
    && (forall i :: 0 <= i < |s| ==> 0 <= s[i] < |links|)
    && forall i {:trigger LinkOk(links, s, i)} :: 0 <= i < |s| ==> LinkOk(links, s, i)
  }

  /** Changing links outside the chain keeps the chain. */
  lemma ChainKept(links: seq<int>, links': seq<int>, head: int, s: seq<int>)
    requires Chain(links, head, s) && |links'| == |links|
    requires forall i :: 0 <= i < |s| && 0 <= s[i] < |links| ==> links'[s[i]] == links[s[i]]
    ensures Chain(links', head, s)
  {
    forall i | 0 <= i < |s| ensures LinkOk(links', s, i) {
      assert LinkOk(links, s, i);
    }
  }

  /** A chain without its head is the chain from the second element. */
  lemma ChainTail(links: seq<int>, head: int, s: seq<int>)
    requires Chain(links, head, s) && s != []
    ensures 0 <= head < |links| && Chain(links, links[head], s[1..])
  {
    assert LinkOk(links, s, 0);
    forall i | 0 <= i < |s[1..]| ensures LinkOk(links, s[1..], i) {
      assert LinkOk(links, s, i + 1);
    }
  }

  /** A new head. */
  lemma ChainPush(links: seq<int>, head: int, s: seq<int>, t: int)
    requires Chain(links, head, s) && 0 <= t < |links| && Disjoint(s, [t])
    ensures Chain(links[t := head], t, [t] + s)
  {
    var links', s' := links[t := head], [t] + s;
    forall i | 0 <= i < |s'| ensures LinkOk(links', s', i) {
      if i > 0 {
        assert LinkOk(links, s, i - 1) && Differ(s[i - 1], [t][0]) && s'[i] == s[i - 1];
      }
    }
  }

  /** Linking t behind the element at position k - 1. */
  lemma ChainInsert(links: seq<int>, head: int, s: seq<int>, k: nat, t: int)
    requires Chain(links, head, s) && NoDup(s) && 0 < k <= |s| && 0 <= t < |links| && Disjoint(s, [t])
    ensures Chain(links[t := links[s[k - 1]]][s[k - 1] := t], head, s[..k] + [t] + s[k..])
  {
    var links', s' := links[t := links[s[k - 1]]][s[k - 1] := t], s[..k] + [t] + s[k..];
    assert LinkOk(links, s, k - 1) && Differ(s[k - 1], [t][0]);
    forall i | 0 <= i < |s'| ensures LinkOk(links', s', i) {
      if i != k {
        var j := if i < k then i else i - 1;
        assert s'[i] == s[j] && LinkOk(links, s, j) && Differ(s[j], [t][0]);
        assert j < k - 1 ==> Differ(s[j], s[k - 1]);
        assert k - 1 < j ==> Differ(s[k - 1], s[j]);
      }
    }
  }

  /** Bypassing the k-th element removes exactly that element. */
  lemma ChainUnlink(links: seq<int>, head: int, s: seq<int>, k: nat)
    requires Chain(links, head, s) && NoDup(s) && k < |s|
    ensures var next := links[s[k]];
            Chain(if k == 0 then links else links[s[k - 1] := next], if k == 0 then next else head, s[..k] + s[k + 1..])
  {
    var r := s[..k] + s[k + 1..];
    var links' := if k == 0 then links else links[s[k - 1] := links[s[k]]];
    assert LinkOk(links, s, k) && (k > 0 ==> LinkOk(links, s, k - 1));
    forall i | 0 <= i < |r| ensures LinkOk(links', r, i) {
      var j := if i < k then i else i + 1;
      assert LinkOk(links, s, j) && r[i] == s[j];
      assert k > 0 && j < k - 1 ==> Differ(s[j], s[k - 1]);
      assert k > 0 && k - 1 < j ==> Differ(s[k - 1], s[j]);
    }
  }

  /** Each of the n elements is on exactly one of the two lists. */
  ghost predicate Split(a: seq<int>, b: seq<int>, n: nat) {
    && NoDup(a) && NoDup(b) && Disjoint(a, b) && |a| + |b| == n
    && (forall i :: 0 <= i < |a| ==> 0 <= a[i] < n)
    && (forall i :: 0 <= i < |b| ==> 0 <= b[i] < n)
  }

  /** The head of b moves to position k of a. */
  lemma SplitTake(a: seq<int>, b: seq<int>, n: nat, k: nat)
    requires Split(a, b, n) && b != [] && k <= |a|
    ensures Split(a[..k] + [b[0]] + a[k..], b[1..], n) && Disjoint(a, [b[0]])
  {
    var a', b' := a[..k] + [b[0]] + a[k..], b[1..];
    assert Disjoint(a, [b[0]]) by {
      forall i, j | 0 <= i < |a| && 0 <= j < 1 ensures Differ(a[i], [b[0]][j]) {
        assert Differ(a[i], b[0]);
      }
    }
    forall i, j | 0 <= i < j < |a'| ensures Differ(a'[i], a'[j]) {
      var x, y := if i < k then i else i - 1, if j < k then j else j - 1;
      if i == k {
        assert Differ(a[y], b[0]);
      } else if j == k {
        assert Differ(a[x], b[0]);
      } else {
        assert Differ(a[x], a[y]);
      }
    }
    forall i, j | 0 <= i < j < |b'| ensures Differ(b'[i], b'[j]) {
      assert Differ(b[i + 1], b[j + 1]);
    }
    forall i, j | 0 <= i < |a'| && 0 <= j < |b'| ensures Differ(a'[i], b'[j]) {
      if i == k {
        assert Differ(b[0], b[j + 1]);
      } else {
        assert Differ(a[if i < k then i else i - 1], b[j + 1]);
      }
    }
  }

  /** The k-th element of a becomes the head of b. */
  lemma SplitGive(a: seq<int>, b: seq<int>, n: nat, k: nat)
    requires Split(a, b, n) && k < |a|
    ensures Split(a[..k] + a[k + 1..], [a[k]] + b, n) && Disjoint(b, [a[k]]) && Disjoint(a[..k] + a[k + 1..], [a[k]])
  {
    var a', b' := a[..k] + a[k + 1..], [a[k]] + b;
    assert forall i :: 0 <= i < |a'| ==> a'[i] == a[if i < k then i else i + 1];
    forall i, j | 0 <= i < j < |a'| ensures Differ(a'[i], a'[j]) {
      assert Differ(a[if i < k then i else i + 1], a[if j < k then j else j + 1]);
    }
    forall i | 0 <= i < |a'| ensures a'[i] != a[k] {
      assert i < k ==> Differ(a[i], a[k]);
      assert i >= k ==> Differ(a[k], a[i + 1]);
    }
    forall j | 0 <= j < |b| ensures b[j] != a[k] {
      assert Differ(a[k], b[j]);
    }
    forall i, j | 0 <= i < j < |b'| ensures Differ(b'[i], b'[j]) {
      assert i > 0 ==> Differ(b[i - 1], b[j - 1]);
    }
    forall i, j | 0 <= i < |a'| && 0 <= j < |b'| ensures Differ(a'[i], b'[j]) {
      assert j > 0 ==> Differ(a[if i < k then i else i + 1], b[j - 1]);
    }
  }

  ghost function Elems(s: seq<int>): set<int> {
    set x | x in s
  }

  /** Lists without repetition that hold the same elements are equally long. */
  lemma SameSize(s: seq<int>, t: seq<int>)
    requires NoDup(s) && NoDup(t) && Elems(s) == Elems(t)
    ensures |s| == |t|
  {
    ElemsSize(s);
    ElemsSize(t);
  }

  lemma {:induction false} ElemsSize(s: seq<int>)
    requires NoDup(s)
    ensures |Elems(s)| == |s|
  {
    if s != [] {
      var n := |s| - 1;
      assert NoDup(s[..n]) by {
        forall i, j | 0 <= i < j < n ensures Differ(s[..n][i], s[..n][j]) {
          assert Differ(s[i], s[j]);
        }
      }
      ElemsSize(s[..n]);
      assert s[n] !in s[..n] by {
        assert forall i :: 0 <= i < n ==> Differ(s[i], s[n]);
      }
      assert Elems(s) == Elems(s[..n]) + {s[n]};
    }
  }

  lemma PrefixStep<T>(s: seq<T>, i: nat)
    requires i < |s|
    ensures s[..i + 1] == s[..i] + [s[i]]
  {
  }
}
