/** Fixed-width machine words, modelled as ranges of the unbounded integers with explicit wrap-around. */
module Words {
  const TWO31: int := 0x8000_0000
  const TWO32: int := 0x1_0000_0000
  const TWO63: int := 0x8000_0000_0000_0000
  const TWO64: int := 0x1_0000_0000_0000_0000

  newtype byte = x: int | 0 <= x < 256
  type u32 = x: int | 0 <= x < TWO32
  type u64 = x: int | 0 <= x < TWO64

  /** Conversion to an unsigned 64-bit word. */
  function Wrap64(x: int): u64 { x % TWO64 }

  /** Conversion to an unsigned 32-bit word. */
  function Wrap32(x: int): u32 { x % TWO32 }

  /** The two's complement reading of a 64-bit word. */
  function Signed64(x: u64): int { if x < TWO63 then x else x - TWO64 }

  /** The two's complement reading of a 32-bit word. */
  function Signed32(x: u32): int { if x < TWO31 then x else x - TWO32 }

  /** The two's complement reading of a byte. */
  function Signed8(x: byte): int { if x < 128 then x as int else x as int - 256 }

  /** Each signed reading is the number of its range that is congruent to the word. */
  lemma SignedReadings(x: u64, y: u32, z: byte)
    ensures -TWO63 <= Signed64(x) < TWO63 && Wrap64(Signed64(x)) == x
    ensures -TWO31 <= Signed32(y) < TWO31 && Wrap32(Signed32(y)) == y
    ensures -128 <= Signed8(z) < 128 && Signed8(z) % 256 == z as int
  {
  }
}
