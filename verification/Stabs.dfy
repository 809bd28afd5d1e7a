/** stab_binsearch of kern/kdebug.c: a binary search over a symbol table whose entries of one type
    are ordered by address, with entries of other types in between. */
module Stabs {
  const LIMIT: nat := 0x1_0000_0000

  datatype Stab = Stab(kind: int, value: nat)

  /** Entries of the type searched for; their addresses stay below the last 32-bit number, so that
      the search's increments of the address do not wrap. */
  predicate TableOk(stabs: seq<Stab>, kind: int) {
    forall i :: 0 <= i < |stabs| && stabs[i].kind == kind ==> stabs[i].value < LIMIT - 1
  }

  predicate Typed(stabs: seq<Stab>, kind: int, i: int) {
    0 <= i < |stabs| && stabs[i].kind == kind
  }

  // ---------- the search as a function ----------

  /** The inner loop: the last entry of the type in [l, m], or l - 1. */
  function Down(stabs: seq<Stab>, kind: int, l: nat, m: int): (r: int)
    requires l - 1 <= m < |stabs|
    ensures l - 1 <= r <= m && (r >= l ==> Typed(stabs, kind, r))
    ensures forall i :: r < i <= m && l <= i ==> !Typed(stabs, kind, i)
    decreases m - l + 1
  {
    if m < l || stabs[m].kind == kind then m else Down(stabs, kind, l, m - 1)
  }

  /** The outer loop: the interval, the left bound found so far, whether any entry of the type was
      met, and the address. The right bound is always r. */
  datatype Search = Search(l: nat, r: int, left: nat, any: bool, addr: nat)

  predicate SearchOk(stabs: seq<Stab>, s: Search) {
    s.r < |stabs| && s.addr < LIMIT
  }

  /** addr++ on 32 bits. */
  function Bumped(addr: nat): nat {
    if addr + 1 == LIMIT then 0 else addr + 1
  }

  function Mid(l: nat, r: int): (m: int)
    requires l <= r
    ensures l <= m <= r
  {
    (l + r) / 2
  }

  /** A turn of the outer loop that meets an entry m of the type. */
  function Met(stabs: seq<Stab>, s: Search, m: nat, mid: int): (t: Search)
    requires SearchOk(stabs, s) && s.l <= m <= mid <= s.r && stabs[m].value < LIMIT - 1
    ensures SearchOk(stabs, t) && (t.addr == s.addr + 1 || (t.addr == s.addr && t.r - t.l < s.r - s.l))
  {
    if stabs[m].value < s.addr then s.(left := m, l := mid + 1, any := true)
    else if stabs[m].value > s.addr then s.(r := m - 1, any := true)
    else s.(left := m, l := m, addr := Bumped(s.addr), any := true)
  }

  /** One turn of the outer loop. */
  function Turn(stabs: seq<Stab>, kind: int, s: Search): (t: Search)
    requires TableOk(stabs, kind) && SearchOk(stabs, s) && s.l <= s.r
    ensures SearchOk(stabs, t) && (t.addr == s.addr + 1 || (t.addr == s.addr && t.r - t.l < s.r - s.l))
  {
    var mid := Mid(s.l, s.r);
    var m := Down(stabs, kind, s.l, mid);
    if m < s.l then s.(l := mid + 1) else Met(stabs, s, m, mid)
  }

  function Loop(stabs: seq<Stab>, kind: int, s: Search): (t: Search)
    requires TableOk(stabs, kind) && SearchOk(stabs, s)
    ensures SearchOk(stabs, t) && t.l > t.r
    decreases LIMIT - s.addr, s.r - s.l + 1
  {
    if s.l > s.r then s else Loop(stabs, kind, Turn(stabs, kind, s))
  }

  function Start(left: nat, right: int, addr: nat): Search {
    Search(left, right, left, false, addr)
  }

  // ---------- reference ----------

  /** Linear scan: the last entry of the type in [left, r] at or below an address, or left - 1. */
  function Scan(stabs: seq<Stab>, kind: int, left: nat, r: int, a: nat): (k: int)
    requires r < |stabs|
    ensures left - 1 <= k
    decreases r - left + 1
  {
    if r < left then left - 1
    else if stabs[r].kind == kind && stabs[r].value <= a then r
    else Scan(stabs, kind, left, r - 1, a)
  }

  /** The position before the next entry of the type, or the right end. */
  function Before(stabs: seq<Stab>, kind: int, k: int, right: int): (r: int)
    requires -1 <= k && right < |stabs|
    decreases right - k
  {
    if k >= right || stabs[k + 1].kind == kind then k else Before(stabs, kind, k + 1, right)
  }

  /** Entries of the type are in nondecreasing order. */
  ghost predicate Ordered(stabs: seq<Stab>, kind: int, left: nat, right: int) {
    forall i, j {:trigger Typed(stabs, kind, i), Typed(stabs, kind, j)} ::
      left <= i <= j <= right && Typed(stabs, kind, i) && Typed(stabs, kind, j) ==> stabs[i].value <= stabs[j].value
  }

  ghost predicate Occurs(stabs: seq<Stab>, kind: int, left: nat, right: int, a: nat) {
    exists i :: left <= i <= right && Typed(stabs, kind, i) && stabs[i].value == a
  }

  lemma {:induction false} ScanIs(stabs: seq<Stab>, kind: int, left: nat, r: int, a: nat, k: int)
    requires r < |stabs| && left <= k <= r && Typed(stabs, kind, k) && stabs[k].value <= a
    requires forall i :: k < i <= r && Typed(stabs, kind, i) ==> stabs[i].value > a
    ensures Scan(stabs, kind, left, r, a) == k
    decreases r
  {
    if k < r {
      assert Typed(stabs, kind, r) ==> stabs[r].value > a;
      ScanIs(stabs, kind, left, r - 1, a, k);
    }
  }

  lemma {:induction false} BeforeIs(stabs: seq<Stab>, kind: int, k: int, right: int, r: int)
    requires -1 <= k <= r <= right < |stabs| && (r == right || Typed(stabs, kind, r + 1))
    requires forall i :: k < i <= r ==> !Typed(stabs, kind, i)
    ensures Before(stabs, kind, k, right) == r
    decreases right - k
  {
    if k < r {
      assert !Typed(stabs, kind, k + 1);
      BeforeIs(stabs, kind, k + 1, right, r);
    }
  }

  // ---------- the invariant of the outer loop ----------

  ghost predicate NoneIn(stabs: seq<Stab>, kind: int, lo: int, hi: int) {
    forall i {:trigger Typed(stabs, kind, i)} :: lo <= i < hi ==> !Typed(stabs, kind, i)
  }

  ghost predicate AllBelow(stabs: seq<Stab>, kind: int, lo: int, hi: int, x: nat) {
    forall i {:trigger Typed(stabs, kind, i)} :: lo <= i < hi && Typed(stabs, kind, i) ==> stabs[i].value < x
  }

  ghost predicate AllAbove(stabs: seq<Stab>, kind: int, lo: int, hi: int, x: nat) {
    forall i {:trigger Typed(stabs, kind, i)} :: lo <= i < hi && Typed(stabs, kind, i) ==> stabs[i].value > x
  }

  /** Every address from a up to x occurs. */
  ghost predicate Passed(stabs: seq<Stab>, kind: int, left: nat, right: int, a: nat, x: nat) {
    forall v: nat :: a <= v < x ==> Occurs(stabs, kind, left, right, v)
  }

  /** The left bound: an entry below the current address, or nothing was found yet. */
  ghost predicate BoundOk(stabs: seq<Stab>, kind: int, left: nat, s: Search) {
    || (s.left == left && NoneIn(stabs, kind, left, s.l))
    || (left <= s.left <= s.l && s.left <= s.r && Typed(stabs, kind, s.left) && stabs[s.left].value < s.addr)
  }

  /** Entries of the type left of l are below the current address, those right of r above the one
      asked for; every address passed over occurs in the table. */
  ghost predicate Inv(stabs: seq<Stab>, kind: int, left: nat, right: int, a: nat, s: Search) {
    && left <= s.l && s.r <= right && left - 1 <= s.r && (s.r == right || Typed(stabs, kind, s.r + 1))
    && AllBelow(stabs, kind, left, if s.l <= right then s.l else right + 1, s.addr) && AllAbove(stabs, kind, s.r + 1, right + 1, a)
    && a <= s.addr && Passed(stabs, kind, left, right, a, s.addr) && BoundOk(stabs, kind, left, s)
    && (!s.any ==> s.left == left && s.r == right && s.addr == a && NoneIn(stabs, kind, left, s.l))
    && (s.addr > a ==> left <= s.left && Typed(stabs, kind, s.left) && stabs[s.left].value == s.addr - 1)
    && (s.any ==> exists i :: left <= i <= right && Typed(stabs, kind, i))
  }

  /** The inner loop of stab_binsearch, and the loop that ends it: down to the bound or an entry of
      the type. */
  method ScanDown(stabs: seq<Stab>, kind: int, l: nat, mid: int) returns (m: int)
    requires l - 1 <= mid < |stabs|
    ensures m == Down(stabs, kind, l, mid)
  {
    m := mid;
    while m >= l && stabs[m].kind != kind
      invariant l - 1 <= m <= mid && Down(stabs, kind, l, m) == Down(stabs, kind, l, mid)
    {
      m := m - 1;
    }
  }

  /** The comparison of stab_binsearch with the entry found. */
  method Meet(stabs: seq<Stab>, l: nat, r: int, lo: nat, ghost any: bool, addr: nat, m: nat, mid: int)
    returns (l': nat, r': int, lo': nat, addr': nat)
    requires r < |stabs| && addr < LIMIT && l <= m <= mid <= r && stabs[m].value < LIMIT - 1
    ensures Search(l', r', lo', true, addr') == Met(stabs, Search(l, r, lo, any, addr), m, mid)
  {
    l', r', lo', addr' := l, r, lo, addr;
    if stabs[m].value < addr {
      lo' := m;
      l' := mid + 1;
    } else if stabs[m].value > addr {
      r' := m - 1;
    } else {
      lo' := m;
      l' := m;
      addr' := Bumped(addr);
    }
  }

  /** stab_binsearch. */
  method StabBinsearch(stabs: seq<Stab>, left: nat, right: int, kind: int, addr: nat) returns (newLeft: int, newRight: int)
    requires right < |stabs| && addr < LIMIT && TableOk(stabs, kind)
    ensures (newLeft, newRight) == Result(stabs, kind, left, Loop(stabs, kind, Start(left, right, addr)))
  {
    var r, any := right, false;
    var l: nat, lo: nat, a: nat := left, left, addr;
    newRight := right;
    while l <= r
      invariant r == newRight < |stabs| && a < LIMIT && (!any ==> lo == left)
      invariant Loop(stabs, kind, Search(l, r, lo, any, a)) == Loop(stabs, kind, Start(left, right, addr))
      decreases LIMIT - a, r - l + 1
    {
      ghost var s := Search(l, r, lo, any, a);
      var mid := (l + r) / 2;
      assert mid == Mid(l, r);
      var m := ScanDown(stabs, kind, l, mid);
      if m < l {
        l := mid + 1;
      } else {
        l, r, lo, a := Meet(stabs, l, r, lo, any, a, m, mid);
        any, newRight := true, r;
      }
      assert Turn(stabs, kind, s) == Search(l, r, lo, any, a);
    }
    newLeft := lo;
    if !any {
      newRight := newLeft - 1;
    } else if newRight > lo {
      newLeft := ScanDown(stabs, kind, lo + 1, newRight);
    } else {
      newLeft := newRight;
    }
  }

  /** The two bounds after the outer loop. */
  function Result(stabs: seq<Stab>, kind: int, left: nat, t: Search): (int, int)
    requires t.r < |stabs|
  {
    if !t.any then (left, left - 1)
    else (if t.left < t.r then Down(stabs, kind, t.left + 1, t.r) else t.r, t.r)
  }

  // ---------- what the search finds ----------

  lemma TurnKeeps(stabs: seq<Stab>, kind: int, left: nat, right: int, a: nat, s: Search)
    requires TableOk(stabs, kind) && SearchOk(stabs, s) && right < |stabs| && s.l <= s.r
    requires Ordered(stabs, kind, left, right) && Inv(stabs, kind, left, right, a, s)
    ensures Inv(stabs, kind, left, right, a, Turn(stabs, kind, s))
  {
    var mid := Mid(s.l, s.r);
    var m := Down(stabs, kind, s.l, mid);
    if m >= s.l {
      Hit(stabs, kind, left, right, a, s, m, mid);
    } else {
      Skip(stabs, kind, left, right, a, s, mid);
    }
  }

  /** A turn without an entry of the type up to the middle. */
  lemma Skip(stabs: seq<Stab>, kind: int, left: nat, right: int, a: nat, s: Search, mid: int)
    requires s.l <= mid <= s.r && NoneIn(stabs, kind, s.l, mid + 1) && Inv(stabs, kind, left, right, a, s)
    ensures Inv(stabs, kind, left, right, a, s.(l := mid + 1))
  {}

  /** A turn that meets an entry m, the last one of its type up to the middle. */
  lemma Hit(stabs: seq<Stab>, kind: int, left: nat, right: int, a: nat, s: Search, m: nat, mid: int)
    requires SearchOk(stabs, s) && right < |stabs| && left <= s.l <= m <= mid <= s.r && stabs[m].value < LIMIT - 1
    requires Typed(stabs, kind, m) && NoneIn(stabs, kind, m + 1, mid + 1)
    requires Ordered(stabs, kind, left, right) && Inv(stabs, kind, left, right, a, s)
    ensures Inv(stabs, kind, left, right, a, Met(stabs, s, m, mid))
  {
    if stabs[m].value == s.addr {
      assert Occurs(stabs, kind, left, right, s.addr);
    }
  }

  lemma {:induction false} LoopKeeps(stabs: seq<Stab>, kind: int, left: nat, right: int, a: nat, s: Search)
    requires TableOk(stabs, kind) && SearchOk(stabs, s) && right < |stabs|
    requires Ordered(stabs, kind, left, right) && Inv(stabs, kind, left, right, a, s)
    ensures Inv(stabs, kind, left, right, a, Loop(stabs, kind, s))
    decreases LIMIT - s.addr, s.r - s.l + 1
  {
    if s.l <= s.r {
      TurnKeeps(stabs, kind, left, right, a, s);
      LoopKeeps(stabs, kind, left, right, a, Turn(stabs, kind, s));
    }
  }

  // ---------- main results ----------

  /** The search in full, from its invariant. */
  lemma Final(stabs: seq<Stab>, kind: int, left: nat, right: int, a: nat)
    requires TableOk(stabs, kind) && left - 1 <= right < |stabs| && a < LIMIT && Ordered(stabs, kind, left, right)
    ensures Inv(stabs, kind, left, right, a, Loop(stabs, kind, Start(left, right, a)))
  {
    LoopKeeps(stabs, kind, left, right, a, Start(left, right, a));
  }

  /** With an entry at or below the address, the search agrees with the linear scan on both bounds
      exactly if it met equal addresses at most once. */
  lemma AgreesIff(stabs: seq<Stab>, kind: int, left: nat, right: int, a: nat, w: nat)
    requires TableOk(stabs, kind) && right < |stabs| && a < LIMIT && Ordered(stabs, kind, left, right)
    requires left <= w <= right && Typed(stabs, kind, w) && stabs[w].value <= a
    ensures var t := Loop(stabs, kind, Start(left, right, a)); var k := Scan(stabs, kind, left, right, a);
            Result(stabs, kind, left, t) == (k, Before(stabs, kind, k, right)) <==> t.addr <= a + 1
  {
    Final(stabs, kind, left, right, a);
    var t := Loop(stabs, kind, Start(left, right, a));
    LeftFound(stabs, kind, left, right, a, w, t);
    if t.addr <= a + 1 {
      MetOnce(stabs, kind, left, right, a, t);
    } else {
      ScanAtMost(stabs, kind, left, right, a);
      assert Typed(stabs, kind, t.left);
    }
  }

  lemma MetOnce(stabs: seq<Stab>, kind: int, left: nat, right: int, a: nat, t: Search)
    requires right < |stabs| && SearchOk(stabs, t) && Inv(stabs, kind, left, right, a, t) && t.any && left <= t.left <= t.r
    requires var k := Result(stabs, kind, left, t).0;
             left <= k <= t.r && Typed(stabs, kind, k) && stabs[k].value <= a && NoneIn(stabs, kind, k + 1, t.r + 1)
    ensures var k := Scan(stabs, kind, left, right, a);
            Result(stabs, kind, left, t) == (k, Before(stabs, kind, k, right))
  {
    var k := Result(stabs, kind, left, t).0;
    ScanIs(stabs, kind, left, right, a, k);
    BeforeIs(stabs, kind, k, right, t.r);
  }

  /** The final left bound: the last entry of the type up to r. */
  lemma LeftFound(stabs: seq<Stab>, kind: int, left: nat, right: int, a: nat, w: nat, t: Search)
    requires right < |stabs| && SearchOk(stabs, t) && Inv(stabs, kind, left, right, a, t) && t.l > t.r
    requires left <= w <= right && Typed(stabs, kind, w) && stabs[w].value <= a
    requires Ordered(stabs, kind, left, right)
    ensures t.any && left <= t.left <= t.r
    ensures var k := Result(stabs, kind, left, t).0;
            && t.left <= k <= t.r && Typed(stabs, kind, k) && NoneIn(stabs, kind, k + 1, t.r + 1)
            && (t.addr <= a + 1 ==> stabs[k].value <= a) && (t.addr > a + 1 ==> stabs[k].value > a)
  {
    assert w <= t.r;
    assert w < t.l;
    var k := Result(stabs, kind, left, t).0;
    assert Typed(stabs, kind, t.left) && Typed(stabs, kind, k);
  }

  lemma {:induction false} ScanAtMost(stabs: seq<Stab>, kind: int, left: nat, r: int, a: nat)
    requires r < |stabs|
    ensures var k := Scan(stabs, kind, left, r, a); k == left - 1 || (Typed(stabs, kind, k) && stabs[k].value <= a)
    decreases r - left + 1
  {
    if r >= left {
      ScanAtMost(stabs, kind, left, r - 1, a);
    }
  }

  // ---------- exactly when the search agrees, by the table alone ----------

  datatype Probe = NoHit | HitAt(m: nat, r: int)

  /** The plain binary search: turns for a fixed address until one meets it. The answer is the entry
      met and the right end of the interval at that moment. */
  function FirstHit(stabs: seq<Stab>, kind: int, s: Search): Probe
    requires TableOk(stabs, kind) && SearchOk(stabs, s)
    decreases s.r - s.l + 1
  {
    if s.l > s.r then NoHit
    else
      var t := Turn(stabs, kind, s);
      if t.addr == s.addr then FirstHit(stabs, kind, t) else HitAt(t.l, t.r)
  }

  lemma {:induction false} HitIs(stabs: seq<Stab>, kind: int, s: Search)
    requires TableOk(stabs, kind) && SearchOk(stabs, s)
    ensures var p := FirstHit(stabs, kind, s);
            p.HitAt? ==> s.l <= p.m <= p.r <= s.r && Typed(stabs, kind, p.m) && stabs[p.m].value == s.addr && s.addr + 1 < LIMIT
    decreases s.r - s.l + 1
  {
    if s.l <= s.r {
      TurnMeets(stabs, kind, s);
      if Turn(stabs, kind, s).addr == s.addr {
        HitIs(stabs, kind, Turn(stabs, kind, s));
      }
    }
  }

  /** From the entry met the search goes on behind the address. */
  lemma {:induction false} LoopFromHit(stabs: seq<Stab>, kind: int, s: Search)
    requires TableOk(stabs, kind) && SearchOk(stabs, s) && FirstHit(stabs, kind, s).HitAt?
    ensures var p := FirstHit(stabs, kind, s);
            p.r < |stabs| && s.addr + 1 < LIMIT && Loop(stabs, kind, s) == Loop(stabs, kind, Search(p.m, p.r, p.m, true, s.addr + 1))
    decreases s.r - s.l + 1
  {
    LoopTurn(stabs, kind, s);
    if Turn(stabs, kind, s).addr == s.addr {
      HitTurn(stabs, kind, s);
      LoopFromHit(stabs, kind, Turn(stabs, kind, s));
    } else {
      HitHere(stabs, kind, s);
    }
  }

  /** The turn that meets the address. */
  lemma HitHere(stabs: seq<Stab>, kind: int, s: Search)
    requires TableOk(stabs, kind) && SearchOk(stabs, s) && s.l <= s.r && Turn(stabs, kind, s).addr != s.addr
    ensures var p := FirstHit(stabs, kind, s);
            p.HitAt? && p.r < |stabs| && s.addr + 1 < LIMIT && Turn(stabs, kind, s) == Search(p.m, p.r, p.m, true, s.addr + 1)
  {
    TurnMeets(stabs, kind, s);
  }

  lemma LoopTurn(stabs: seq<Stab>, kind: int, s: Search)
    requires TableOk(stabs, kind) && SearchOk(stabs, s) && s.l <= s.r
    ensures Loop(stabs, kind, s) == Loop(stabs, kind, Turn(stabs, kind, s))
  {
  }

  lemma HitTurn(stabs: seq<Stab>, kind: int, s: Search)
    requires TableOk(stabs, kind) && SearchOk(stabs, s) && s.l <= s.r && Turn(stabs, kind, s).addr == s.addr
    ensures FirstHit(stabs, kind, s) == FirstHit(stabs, kind, Turn(stabs, kind, s))
  {
  }

  lemma {:induction false} LoopNoHit(stabs: seq<Stab>, kind: int, s: Search)
    requires TableOk(stabs, kind) && SearchOk(stabs, s) && FirstHit(stabs, kind, s) == NoHit
    ensures Loop(stabs, kind, s).addr == s.addr
    decreases s.r - s.l + 1
  {
    if s.l <= s.r {
      LoopNoHit(stabs, kind, Turn(stabs, kind, s));
    }
  }

  lemma TurnMeets(stabs: seq<Stab>, kind: int, s: Search)
    requires TableOk(stabs, kind) && SearchOk(stabs, s) && s.l <= s.r
    ensures var t := Turn(stabs, kind, s);
            && s.l <= t.l && t.r <= s.r
            && (t.addr != s.addr ==> t == Search(t.l, s.r, t.l, true, s.addr + 1) && s.addr + 1 < LIMIT
                                     && t.l <= s.r && Typed(stabs, kind, t.l) && stabs[t.l].value == s.addr)
  {
    var m := Down(stabs, kind, s.l, Mid(s.l, s.r));
    assert m >= s.l ==> stabs[m].value < LIMIT - 1;
  }

  /** Some entry of the type in the interval lies exactly at the address. */
  ghost predicate HasEntry(stabs: seq<Stab>, kind: int, l: int, r: int, a: nat) {
    exists i {:trigger Typed(stabs, kind, i)} :: l <= i <= r && Typed(stabs, kind, i) && stabs[i].value == a
  }

  /** The search meets an equal address exactly if there is one in its interval. */
  lemma {:induction false} BumpsIff(stabs: seq<Stab>, kind: int, s: Search)
    requires TableOk(stabs, kind) && SearchOk(stabs, s) && Ordered(stabs, kind, s.l, s.r)
    ensures Loop(stabs, kind, s).addr >= s.addr
    ensures Loop(stabs, kind, s).addr > s.addr <==> HasEntry(stabs, kind, s.l, s.r, s.addr)
    decreases LIMIT - s.addr, s.r - s.l + 1
  {
    if s.l <= s.r {
      var t := Turn(stabs, kind, s);
      TurnNarrows(stabs, kind, s);
      BumpsIff(stabs, kind, t);
    }
  }

  /** A turn that does not meet the address keeps the entries that lie there. */
  lemma TurnNarrows(stabs: seq<Stab>, kind: int, s: Search)
    requires TableOk(stabs, kind) && SearchOk(stabs, s) && Ordered(stabs, kind, s.l, s.r) && s.l <= s.r
    ensures var t := Turn(stabs, kind, s);
            && s.l <= t.l && t.r <= s.r && t.r < |stabs| && Ordered(stabs, kind, t.l, t.r)
            && if t.addr == s.addr then HasEntry(stabs, kind, t.l, t.r, s.addr) <==> HasEntry(stabs, kind, s.l, s.r, s.addr)
               else HasEntry(stabs, kind, s.l, s.r, s.addr)
  {
    var t, mid := Turn(stabs, kind, s), Mid(s.l, s.r);
    var m := Down(stabs, kind, s.l, mid);
    assert m >= s.l ==> Typed(stabs, kind, m);
    forall i | s.l <= i <= s.r && Typed(stabs, kind, i) && stabs[i].value == s.addr ensures t.addr == s.addr ==> t.l <= i <= t.r {
    }
  }

  /** With an entry at or below the address, the search disagrees with the linear scan exactly if a
      plain search for the address hits an entry that has, to its right and still in the interval, an
      entry at the next address. */
  lemma AgreesExactly(stabs: seq<Stab>, kind: int, left: nat, right: int, a: nat, w: nat)
    requires TableOk(stabs, kind) && right < |stabs| && a < LIMIT && Ordered(stabs, kind, left, right)
    requires left <= w <= right && Typed(stabs, kind, w) && stabs[w].value <= a
    ensures var k, p := Scan(stabs, kind, left, right, a), FirstHit(stabs, kind, Start(left, right, a));
            Result(stabs, kind, left, Loop(stabs, kind, Start(left, right, a))) == (k, Before(stabs, kind, k, right))
            <==> !(p.HitAt? && HasEntry(stabs, kind, p.m + 1, p.r, a + 1))
  {
    AgreesIff(stabs, kind, left, right, a, w);
    OnceIff(stabs, kind, left, right, a);
  }

  lemma OnceIff(stabs: seq<Stab>, kind: int, left: nat, right: int, a: nat)
    requires TableOk(stabs, kind) && right < |stabs| && a < LIMIT && Ordered(stabs, kind, left, right)
    ensures FirstHit(stabs, kind, Start(left, right, a)) == NoHit ==> Loop(stabs, kind, Start(left, right, a)).addr <= a + 1
    ensures FirstHit(stabs, kind, Start(left, right, a)).HitAt? ==>
              OnceAfterHit(stabs, kind, a, FirstHit(stabs, kind, Start(left, right, a)), Loop(stabs, kind, Start(left, right, a)).addr)
  {
    if FirstHit(stabs, kind, Start(left, right, a)) == NoHit {
      LoopNoHit(stabs, kind, Start(left, right, a));
    } else {
      AfterHit(stabs, kind, Start(left, right, a), right);
    }
  }

  /** The final address x is more than one behind exactly if the next address occurs behind the hit. */
  ghost predicate OnceAfterHit(stabs: seq<Stab>, kind: int, a: nat, p: Probe, x: nat)
    requires p.HitAt?
  {
    x > a + 1 <==> HasEntry(stabs, kind, p.m + 1, p.r, a + 1)
  }

  lemma AfterHit(stabs: seq<Stab>, kind: int, s: Search, right: int)
    requires TableOk(stabs, kind) && SearchOk(stabs, s) && s.r <= right < |stabs| && Ordered(stabs, kind, s.l, right)
    requires FirstHit(stabs, kind, s).HitAt?
    ensures OnceAfterHit(stabs, kind, s.addr, FirstHit(stabs, kind, s), Loop(stabs, kind, s).addr)
  {
    var p, x := FirstHit(stabs, kind, s), Loop(stabs, kind, s).addr;
    assert HitOk(stabs, kind, s, p, right) by {
      HitIs(stabs, kind, s);
    }
    LoopFromHit(stabs, kind, s);
    BehindHit(stabs, kind, s, right, p, x);
  }

  /** Where an entry can be hit. */
  predicate HitOk(stabs: seq<Stab>, kind: int, s: Search, p: Probe, right: int) {
    p.HitAt? && s.l <= p.m <= p.r <= right < |stabs| && stabs[p.m].value == s.addr && s.addr + 1 < LIMIT
  }

  lemma BehindHit(stabs: seq<Stab>, kind: int, s: Search, right: int, p: Probe, x: nat)
    requires TableOk(stabs, kind) && Ordered(stabs, kind, s.l, right) && HitOk(stabs, kind, s, p, right)
    requires x == Loop(stabs, kind, Search(p.m, p.r, p.m, true, s.addr + 1)).addr
    ensures OnceAfterHit(stabs, kind, s.addr, p, x)
  {
    BumpsIff(stabs, kind, Search(p.m, p.r, p.m, true, s.addr + 1));
    forall i | p.m <= i <= p.r && Typed(stabs, kind, i) && stabs[i].value == s.addr + 1 ensures p.m + 1 <= i {}
  }

  /** The documented result, for a table that does not have entries both at the address and just
      behind it. */
  lemma Agrees(stabs: seq<Stab>, kind: int, left: nat, right: int, a: nat, w: nat)
    requires TableOk(stabs, kind) && right < |stabs| && a < LIMIT && Ordered(stabs, kind, left, right)
    requires left <= w <= right && Typed(stabs, kind, w) && stabs[w].value <= a
    requires !(Occurs(stabs, kind, left, right, a) && Occurs(stabs, kind, left, right, a + 1))
    ensures var k := Scan(stabs, kind, left, right, a);
            Result(stabs, kind, left, Loop(stabs, kind, Start(left, right, a))) == (k, Before(stabs, kind, k, right))
  {
    Final(stabs, kind, left, right, a);
    AgreesIff(stabs, kind, left, right, a, w);
  }

  /** Two entries at neighbouring addresses: the search for the first one finds the second. */
  lemma NeighboursDisagree()
    ensures var stabs := [Stab(36, 10), Stab(36, 11)];
            && Scan(stabs, 36, 0, 1, 10) == 0
            && Result(stabs, 36, 0, Loop(stabs, 36, Start(0, 1, 10))) == (1, 1)
  {
    var stabs := [Stab(36, 10), Stab(36, 11)];
    var s1 := Turn(stabs, 36, Start(0, 1, 10));
    assert s1 == Search(0, 1, 0, true, 11);
    var s2 := Turn(stabs, 36, s1);
    assert s2 == Search(1, 1, 0, true, 11);
    var s3 := Turn(stabs, 36, s2);
    assert s3 == Search(1, 1, 1, true, 12);
    assert Turn(stabs, 36, s3) == Search(2, 1, 1, true, 12);
  }

  /** Without an entry of the type the bounds cross. */
  lemma NoEntries(stabs: seq<Stab>, kind: int, left: nat, right: int, a: nat)
    requires TableOk(stabs, kind) && left - 1 <= right < |stabs| && a < LIMIT && NoneIn(stabs, kind, left, right + 1)
    ensures Result(stabs, kind, left, Loop(stabs, kind, Start(left, right, a))) == (left, left - 1)
  {
    Final(stabs, kind, left, right, a);
  }

  /** When every entry of the type lies above the address, the right bound is just before the first
      of them, and the bounds do not cross: the left one is the start of the range or the right one. */
  lemma AllLater(stabs: seq<Stab>, kind: int, left: nat, right: int, a: nat, first: nat)
    requires TableOk(stabs, kind) && right < |stabs| && a < LIMIT && Ordered(stabs, kind, left, right)
    requires left <= first <= right && Typed(stabs, kind, first) && stabs[first].value > a && NoneIn(stabs, kind, left, first)
    ensures Result(stabs, kind, left, Loop(stabs, kind, Start(left, right, a))) ==
            (if first == left then left - 1 else left, first - 1)
  {
    Final(stabs, kind, left, right, a);
    var t := Loop(stabs, kind, Start(left, right, a));
    assert AllAbove(stabs, kind, left, right + 1, a);
    assert !Occurs(stabs, kind, left, right, a);
    assert t.r == first - 1;
  }
}
