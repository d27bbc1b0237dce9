/** Fixed-width C integer types used by the echo server, and the C conversion rule
    from `int` to `uint16_t`. */
module Native {

  newtype byte = x: int | 0 <= x < 0x100
  newtype uint16 = x: int | 0 <= x < 0x1_0000
  newtype uint32 = x: int | 0 <= x < 0x1_0000_0000

  /** Conversion of an `int` to `uint16_t`: the unique value in range that is
      congruent to `x` modulo 2^16 (negative values wrap around too). */
  function ToUint16(x: int): (r: uint16)
    ensures (r as int - x) % 0x1_0000 == 0
    ensures 0 <= x < 0x1_0000 ==> r as int == x
  {
    (x % 0x1_0000) as uint16
  }
}
