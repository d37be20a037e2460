/**
 * Fixed-width unsigned values of the C sources, as subset types of `int`.
 * Arithmetic that may leave a width is written with an explicit modulus.
 */
module Words {
  type Byte = x: int | 0 <= x < 0x100
  type U16 = x: int | 0 <= x < 0x1_0000
  type U32 = x: int | 0 <= x < 0x1_0000_0000

  /** The 16-bit value whose bytes are `lo` and `hi`. */
  function Word(lo: Byte, hi: Byte): U16 {
    (lo as int) + 0x100 * hi as int
  }

  /** The C sum of two `u32_t` values: it wraps. */
  function Add32(a: U32, b: U32): U32 {
    (a + b) % 0x1_0000_0000
  }

  lemma NoWrap(a: U32, b: U32)
    requires a + b < 0x1_0000_0000
    ensures Add32(a, b) == a + b
  {
  }

  /** `~w` kept to 16 bits. */
  function Complement16(w: U16): U16 {
    0xFFFF - w
  }

  /** `lwip_htons` on a little-endian host. */
  function Htons(w: U16): U16 {
    w % 0x100 * 0x100 + w / 0x100
  }
}
