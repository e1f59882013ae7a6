/** C integer types as ranges of mathematical integers, with their conversions written out. */
module Machine {

  /** Microseconds in a second. */
  const MEGA: int := 1000000

  const TWO32: int := 0x1_0000_0000
  const TWO63: int := 0x8000_0000_0000_0000
  const TWO64: int := 0x1_0000_0000_0000_0000

  type byte = x: int | 0 <= x < 256
  type u32 = x: int | 0 <= x < TWO32
  type u64 = x: int | 0 <= x < TWO64
  type i64 = x: int | -TWO63 <= x < TWO63

  /** Conversion of any integer value to uint32_t. */
  function Wrap32(x: int): u32 { x % TWO32 }

  /** Conversion of any integer value to uint64_t. */
  function Wrap64(x: int): u64 { x % TWO64 }

  /** Conversion of a uint64_t to int64_t on a two's complement machine. */
  function Signed64(x: u64): i64 { if x < TWO63 then x else x - TWO64 }

  /** C division by a positive divisor: truncates toward zero. */
  function Quot(a: int, b: int): int
    requires b > 0
  {
    if a >= 0 then a / b else -((-a) / b)
  }

  /** C remainder by a positive divisor: takes the sign of the dividend. */
  function Rem(a: int, b: int): int
    requires b > 0
  {
    if a >= 0 then a % b else -((-a) % b)
  }
}
