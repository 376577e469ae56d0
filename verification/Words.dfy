/** Machine integers, byte strings and the optional value used throughout the model. */
module Words {

  const TWO_32: int := 0x1_0000_0000
  const TWO_63: int := 0x8000_0000_0000_0000
  const TWO_64: int := 0x1_0000_0000_0000_0000

  type byte = n: int | 0 <= n < 256
  type uint32 = n: int | 0 <= n < TWO_32
  type uint64 = n: int | 0 <= n < TWO_64

  /** A Go string or byte slice: both are byte sequences. */
  type bytes = seq<byte>

  datatype Option<+T> = None | Some(value: T)

  /** Go's uint64 addition. */
  function Add64(a: uint64, b: uint64): uint64 {
    if a + b < TWO_64 then a + b else a + b - TWO_64
  }

  /** Go's uint64 subtraction: wraps below zero. */
  function Sub64(a: uint64, b: uint64): uint64 {
    if b <= a then a - b else a - b + TWO_64
  }

  /** Go's conversion of a 64-bit integer to uint32 keeps the low half, of a negative one as well. */
  function Low32(a: int): uint32 {
    a % TWO_32
  }

  /** Go's conversion to int64, also big.Int.Int64: the low 64 bits read as two's complement. */
  function Int64(n: int): int {
    var low := n % TWO_64;
    if low < TWO_63 then low else low - TWO_64
  }

  /** Wrapping arithmetic is arithmetic modulo 2^64; the conversions keep the low bits. */
  lemma MachineWords(a: uint64, b: uint64, n: int)
    ensures (Add64(a, b) - (a + b)) % 0x1_0000_0000_0000_0000 == 0
    ensures (Sub64(a, b) - (a - b)) % 0x1_0000_0000_0000_0000 == 0
    ensures (Low32(n) - n) % 0x1_0000_0000 == 0
    ensures -0x8000_0000_0000_0000 <= Int64(n) < 0x8000_0000_0000_0000
    ensures (Int64(n) - n) % 0x1_0000_0000_0000_0000 == 0
  {
  }
}
