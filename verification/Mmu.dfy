/** Page-table words of 32-bit paging (inc/mmu.h, section 4.3 of Intel SDM volume 3A).

    A 32-bit word is kept as its two fields: the 20-bit number in the high bits (a frame number
    for a present entry, a disk sector for a swapped one) and the twelve flag bits below it.
    The pair is a lossless re-encoding of the word, so ordinary data words have the same type. */
module Mmu {
  const NENTRIES: nat := 1024
  const NUM_LIMIT: nat := 0x10_0000

  type Num20 = n: nat | n < NUM_LIMIT
  type Bits3 = n: nat | n < 8

  /** The low twelve bits; `avail` is the three-bit PTE_AVAIL field. */
  datatype Flags = Flags(p: bool, w: bool, u: bool, pwt: bool, pcd: bool,
                         a: bool, d: bool, ps: bool, g: bool, avail: Bits3)

  datatype Word = Word(num: Num20, flags: Flags)

  const NO_FLAGS := Flags(false, false, false, false, false, false, false, false, false, 0)
  const ZERO := Word(0, NO_FLAGS)

  /** `x ^= PTE_AVAIL` flips all three bits of the field. */
  function FlipAvail(f: Flags): Flags {
    f.(avail := 7 - f.avail)
  }
}
