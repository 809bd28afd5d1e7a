/** int32_t arithmetic. */
module Int32 {
  /** The value that a 32-bit register holds. */
  function Wrap32(x: int): int {
    (x + 0x8000_0000) % 0x1_0000_0000 - 0x8000_0000
  }

  lemma WrapSmall(x: int)
    requires -0x8000_0000 <= x < 0x8000_0000
    ensures Wrap32(x) == x
  {}

  lemma WrapLarge(x: int)
    requires 0x8000_0000 <= x < 0x1_0000_0000
    ensures Wrap32(x) == x - 0x1_0000_0000
  {}
}
