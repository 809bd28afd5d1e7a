/** The swap map: one bit per 512-byte disk sector, and the search for a page-sized hole.

    `bits` is the abstract view of the byte array; Bitmap.dfy ties the bytes to it. */
module SwapMap {
  const SWAP_BITS: nat := 262144
  const NSECTORS: nat := 8
  /** Eight-sector runs that start at 1 mod 8 and end inside the map. */
  const SLOTS: nat := 32767

  function Start(k: nat): nat {
    8 * k + 1
  }

  /** Sector b is the first of a run that lies inside the map. */
  predicate IsStart(b: int) {
    0 < b && b % 8 == 1 && b + 8 <= SWAP_BITS
  }

  lemma RunsApart(a: nat, b: nat)
    requires IsStart(a) && IsStart(b) && a != b
    ensures a + NSECTORS <= b || b + NSECTORS <= a
  {
  }

  /** All eight bits of the run at b have value v. */
  predicate RunIs(bits: seq<bool>, b: nat, v: bool) {
    b + NSECTORS <= |bits| && forall j :: b <= j < b + NSECTORS ==> bits[j] == v
  }

  /** What find_swap_spot promises: the first clear bit from index 1 on, or 0. */
  predicate IsFirstZero(bits: seq<bool>, r: nat) {
    if r == 0 then forall i :: 1 <= i < |bits| ==> bits[i]
    else r < |bits| && !bits[r] && forall i :: 1 <= i < r ==> bits[i]
  }

  function SpotFrom(bits: seq<bool>, i: nat): (r: nat)
    requires 1 <= i
    ensures r == 0 ==> forall j :: i <= j < |bits| ==> bits[j]
    ensures r != 0 ==> i <= r < |bits| && !bits[r] && forall j :: i <= j < r ==> bits[j]
    decreases |bits| - i
  {
    if i >= |bits| then 0 else if !bits[i] then i else SpotFrom(bits, i + 1)
  }

  function Spot(bits: seq<bool>): (r: nat)
    ensures IsFirstZero(bits, r)
  {
    SpotFrom(bits, 1)
  }

  /** Every run is wholly set or wholly clear. */
  ghost predicate WholeRuns(bits: seq<bool>) {
    |bits| == SWAP_BITS
    && forall b: nat :: IsStart(b) ==> RunIs(bits, b, true) || RunIs(bits, b, false)
  }

  ghost function UsedSlots(bits: seq<bool>): set<nat> {
    set k: nat | k < SLOTS && RunIs(bits, Start(k), true)
  }

  /** A set of numbers below n that is not full misses one of them. */
  lemma {:induction false} NotFull(s: set<nat>, n: nat) returns (k: nat)
    requires |s| < n
    ensures k < n && k !in s
    decreases n
  {
    if n - 1 !in s {
      return n - 1;
    }
    k := NotFull(s - {n - 1}, n - 1);
  }

  /** A set of numbers below n has at most n elements. */
  lemma {:induction false} SizeBelow(s: set<nat>, n: nat)
    requires forall k :: k in s ==> k < n
    ensures |s| <= n
  {
    if n == 0 {
      assert s == {};
    } else {
      SizeBelow(s - {n - 1}, n - 1);
    }
  }

  /** Slot numbers and starts correspond. */
  lemma StartOf(k: nat)
    requires k < SLOTS
    ensures IsStart(Start(k))
  {
  }

  lemma SlotOf(b: nat)
    requires IsStart(b)
    ensures b / 8 < SLOTS && Start(b / 8) == b
  {
  }

  /** The search tests a single bit, yet with whole runs the bit it returns starts a run that is
      wholly free and inside the map, exactly when fewer than SLOTS runs are used. */
  lemma SpotIsFreeRun(bits: seq<bool>)
    requires WholeRuns(bits)
    ensures |UsedSlots(bits)| < SLOTS <==> IsStart(Spot(bits)) && RunIs(bits, Spot(bits), false)
  {
    if |UsedSlots(bits)| < SLOTS {
      FreeRunFound(bits);
    }
    var r := Spot(bits);
    if IsStart(r) && RunIs(bits, r, false) {
      SlotLeft(bits, r);
    }
  }

  lemma FreeRunFound(bits: seq<bool>)
    requires WholeRuns(bits) && |UsedSlots(bits)| < SLOTS
    ensures IsStart(Spot(bits)) && RunIs(bits, Spot(bits), false)
  {
    var k := NotFull(UsedSlots(bits), SLOTS);
    var b := Start(k);
    StartOf(k);
    assert !RunIs(bits, b, true);
    assert RunIs(bits, b, false);
    assert !bits[b];
    SpotStartsRun(bits, b);
  }

  lemma SlotLeft(bits: seq<bool>, b: nat)
    requires IsStart(b) && RunIs(bits, b, false)
    ensures |UsedSlots(bits)| < SLOTS
  {
    SlotOf(b);
    var used := UsedSlots(bits);
    assert !bits[b];
    assert b / 8 !in used;
    SizeBelow(used + {b / 8}, SLOTS);
    assert |used + {b / 8}| == |used| + 1;
  }

  /** With a free run anywhere at b, the first clear bit starts a free run. */
  lemma SpotStartsRun(bits: seq<bool>, b: nat)
    requires WholeRuns(bits) && IsStart(b) && !bits[b]
    ensures IsStart(Spot(bits)) && RunIs(bits, Spot(bits), false)
  {
    var r := Spot(bits);
    assert 1 <= r <= b;
    var s := r - (r - 1) % 8;
    assert IsStart(s);
    assert s <= r < s + NSECTORS;
    assert RunIs(bits, s, true) || RunIs(bits, s, false);
    assert !bits[r];
    assert !RunIs(bits, s, true);
    assert RunIs(bits, s, false) ==> !bits[s];
  }
}
