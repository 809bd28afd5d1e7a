/** Environment ids: a generation in the upper bits, the slot in the lower ten (inc/env.h, kern/env.c). */
module EnvIds {
  import opened Int32

  const NENV: nat := 1024
  /** env_init also initialises the entry behind the last one. */
  const NSLOTS: nat := 1025
  const NKTHREADS: nat := 2
  /** 1 << ENVGENSHIFT. */
  const GENERATION: int := 4096
  /** Number of different ids of one slot. */
  const PERIOD: nat := 524287

  /** ENVX: the lower ten bits. */
  function EnvX(id: int): nat {
    id % 1024
  }

  /** generation | slot, for a multiple of 1024 and a slot of at most 1024. */
  function Or(generation: int, slot: nat): int {
    if slot < 1024 then generation + slot else if generation / 1024 % 2 == 1 then generation else generation + 1024
  }

  /** The id that env_alloc makes from the id last used for the slot. */
  function NextId(id: int, slot: nat): int {
    var x := Wrap32(id + GENERATION);
    var generation := x - x % 1024;
    Or(if generation <= 0 then GENERATION else generation, slot)
  }

  /** The id after the n-th allocation of a slot; env_init sets 0. */
  function IdOf(slot: nat, n: nat): int {
    if n == 0 then 0 else NextId(IdOf(slot, n - 1), slot)
  }

  lemma {:induction false} IdClosed(slot: nat, n: nat)
    requires slot < NSLOTS
    ensures IdOf(slot, n + 1) == 4096 * (1 + n % PERIOD) + slot
  {
    if n == 0 {
      assert NextId(0, slot) == 4096 + slot by {
        WrapSmall(4096);
      }
      assert IdOf(slot, 0) == 0;
    } else {
      IdClosed(slot, n - 1);
      NextIdClosed(slot, (n - 1) % PERIOD);
      ModNext(n - 1);
    }
  }

  lemma ModNext(n: nat)
    ensures (n + 1) % PERIOD == if n % PERIOD == PERIOD - 1 then 0 else n % PERIOD + 1
  {
    var q, r := n / PERIOD, n % PERIOD;
    assert n == q * PERIOD + r;
    if r == PERIOD - 1 {
      ModIs(n + 1, q + 1, 0);
    } else {
      ModIs(n + 1, q, r + 1);
    }
  }

  lemma ModIs(n: int, q: int, r: nat)
    requires n == q * PERIOD + r && r < PERIOD
    ensures n % PERIOD == r
  {}

  lemma NextIdClosed(slot: nat, g: nat)
    requires slot < NSLOTS && g < PERIOD
    ensures NextId(4096 * (1 + g) + slot, slot) == 4096 * (1 + if g == PERIOD - 1 then 0 else g + 1) + slot
  {
    var sum := 4096 * (2 + g) + slot;
    if g == PERIOD - 1 {
      WrapLarge(sum);
      var x := sum - 0x1_0000_0000;
      assert x - x % 1024 <= 0;
    } else {
      WrapSmall(sum);
      LowBits(2 + g, slot);
    }
  }

  lemma LowBits(k: nat, slot: nat)
    requires slot < NSLOTS && k > 0
    ensures var x := 4096 * k + slot; Or(x - x % 1024, slot) == x && x - x % 1024 > 0
  {
    var x := 4096 * k + slot;
    if slot < 1024 {
      Tens(x, 4 * k, slot);
    } else {
      Tens(x, 4 * k + 1, 0);
      Odd(2 * k);
    }
  }

  /** Quotient and remainder by 1024. */
  lemma Tens(x: nat, q: nat, r: nat)
    requires x == 1024 * q + r && r < 1024
    ensures x / 1024 == q && x % 1024 == r
  {
  }

  lemma Odd(k: nat)
    ensures (2 * k + 1) % 2 == 1
  {
  }

  /** Ids are positive 31-bit numbers, and the lower bits name the slot of every proper entry. */
  lemma IdNamesSlot(slot: nat, n: nat)
    requires slot < NSLOTS && n > 0
    ensures 0 < IdOf(slot, n) < 0x8000_0000
    ensures EnvX(IdOf(slot, n)) == slot <==> slot < NENV
  {
    IdClosed(slot, n - 1);
  }

  /** Two allocations of one slot get the same id exactly if their distance is a multiple of 524287. */
  lemma IdsRepeat(slot: nat, m: nat, n: nat)
    requires slot < NSLOTS && m > 0 && n > 0
    ensures IdOf(slot, m) == IdOf(slot, n) <==> (m - n) % PERIOD == 0
  {
    IdClosed(slot, m - 1);
    IdClosed(slot, n - 1);
    DiffMod(m - 1, n - 1);
    assert (m - 1) - (n - 1) == m - n;
  }

  lemma DiffMod(x: nat, y: nat)
    ensures (x - y) % PERIOD == 0 <==> x % PERIOD == y % PERIOD
  {
    var d := x / PERIOD - y / PERIOD;
    var r := x % PERIOD - y % PERIOD;
    assert x - y == d * PERIOD + r;
    if r >= 0 {
      ModIs(x - y, d, r);
    } else {
      ModIs(x - y, d - 1, r + PERIOD);
    }
  }

  /** Different slots never have the same id. */
  lemma IdsUnique(s: nat, m: nat, t: nat, n: nat)
    requires s < NSLOTS && t < NSLOTS && m > 0 && n > 0 && s != t
    ensures IdOf(s, m) != IdOf(t, n)
  {
    IdClosed(s, m - 1);
    IdClosed(t, n - 1);
    SumsDiffer(1 + (m - 1) % PERIOD, s, 1 + (n - 1) % PERIOD, t);
  }

  lemma SumsDiffer(g: int, s: nat, h: int, t: nat)
    requires s < 4096 && t < 4096 && s != t
    ensures 4096 * g + s != 4096 * h + t
  {}

  /** The ids of the entry behind the table name slot 0. */
  lemma TailId(n: nat)
    requires n > 0
    ensures EnvX(IdOf(NENV, n)) == 0
  {
    IdClosed(NENV, n - 1);
    Tens(IdOf(NENV, n), 4 * (1 + (n - 1) % PERIOD) + 1, 0);
  }
}
