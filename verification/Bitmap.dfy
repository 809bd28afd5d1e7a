/** Bitmaps packed eight bits to a byte, as kern/bitmap.c keeps the swap map. */
module Bitmap {

  function BitOfByte(b: bv8, k: nat): bool
    requires k < 8
  {
    (b >> k) & 1 == 1
  }

  lemma FlipOneBit(b: bv8, k: nat, j: nat)
    requires k < 8 && j < 8
    ensures BitOfByte(b ^ (1 << k), j) == (if j == k then !BitOfByte(b, j) else BitOfByte(b, j))
  {
    FlipShift(b, 1 << k, k, j);
  }

  const MASKS: seq<bv8> := [1, 2, 4, 8, 16, 32, 64, 128]

  lemma ShiftTest(b: bv8, j: nat)
    requires j < 8
    ensures BitOfByte(b, j) == (b & MASKS[j] != 0)
  {
  }

  lemma FlipShift(b: bv8, m: bv8, k: nat, j: nat)
    requires k < 8 && j < 8 && m == 1 << k
    ensures BitOfByte(b ^ m, j) == (BitOfByte(b, j) != (j == k))
  {
    assert m == MASKS[k];
    ShiftTest(b, j);
    ShiftTest(b ^ m, j);
  }

  /** The bit sequence a byte array stands for. */
  function Bits(bytes: seq<bv8>): (r: seq<bool>)
    ensures |r| == 8 * |bytes|
  {
    seq(8 * |bytes|, i requires 0 <= i < 8 * |bytes| => BitOfByte(bytes[i / 8], i % 8))
  }

  /** get_bit. */
  method GetBit(bytes: array<bv8>, index: nat) returns (r: bool)
    requires index < 8 * bytes.Length
    ensures r == Bits(bytes[..])[index]
  {
    r := (bytes[index / 8] >> (index % 8)) & 1 == 1;
  }

  /** toggle_bit flips one bit and no other. */
  method ToggleBit(bytes: array<bv8>, index: nat)
    requires index < 8 * bytes.Length
    modifies bytes
    ensures Bits(bytes[..]) == old(Bits(bytes[..]))[index := !old(Bits(bytes[..]))[index]]
  {
    ghost var before := bytes[..];
    bytes[index / 8] := bytes[index / 8] ^ (1 << (index % 8));
    assert bytes[..] == before[index / 8 := before[index / 8] ^ (1 << (index % 8))];
    FlipBits(before, index);
  }

  lemma FlipBits(bytes: seq<bv8>, index: nat)
    requires index < 8 * |bytes|
    ensures Bits(bytes[index / 8 := bytes[index / 8] ^ (1 << (index % 8))])
            == Bits(bytes)[index := !Bits(bytes)[index]]
  {
    var b' := bytes[index / 8] ^ (1 << (index % 8));
    var bytes' := bytes[index / 8 := b'];
    forall i | 0 <= i < 8 * |bytes| ensures Bits(bytes')[i] == Bits(bytes)[index := !Bits(bytes)[index]][i] {
      FlipOneBit(bytes[index / 8], index % 8, i % 8);
      assert i / 8 == index / 8 && i % 8 == index % 8 <==> i == index;
    }
  }
}
