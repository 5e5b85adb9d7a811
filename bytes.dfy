/**
 * Fixed-width integers of the source (Rust's u8, u16, u32, i16, i32, i64 and the
 * 48-bit authority of a security identifier) as subset types of `int`, and the
 * byte-order readers of the `byteorder` crate that the SID decoder uses.
 */
module Bytes {

  type u8 = x: int | 0 <= x < 0x100
  type u16 = x: int | 0 <= x < 0x1_0000
  type u32 = x: int | 0 <= x < 0x1_0000_0000
  type u48 = x: int | 0 <= x < 0x1_0000_0000_0000
  type i16 = x: int | -0x8000 <= x < 0x8000
  type i32 = x: int | -0x8000_0000 <= x < 0x8000_0000
  type i64 = x: int | -0x8000_0000_0000_0000 <= x < 0x8000_0000_0000_0000

  /** `read_u32::<LittleEndian>` on exactly four bytes: b[0] is the least significant. */
  function U32Le(b: seq<u8>): u32
    requires |b| == 4
  {
    b[0] as int + 0x100 * (b[1] as int + 0x100 * (b[2] as int + 0x100 * b[3] as int))
  }

  /** `read_u32::<BigEndian>` on exactly four bytes: b[0] is the most significant. */
  function U32Be(b: seq<u8>): u32
    requires |b| == 4
  {
    b[3] as int + 0x100 * (b[2] as int + 0x100 * (b[1] as int + 0x100 * b[0] as int))
  }

  /** `read_u48::<BigEndian>` on exactly six bytes. */
  function U48Be(b: seq<u8>): u48
    requires |b| == 6
  {
    b[5] as int + 0x100 * (b[4] as int + 0x100 * (b[3] as int + 0x100 *
      (b[2] as int + 0x100 * (b[1] as int + 0x100 * b[0] as int))))
  }

  /** The four little-endian bytes of n. */
  function U32ToLe(n: u32): (b: seq<u8>)
    ensures |b| == 4 && U32Le(b) == n
  {
    var q1 := n / 0x100;
    var q2 := q1 / 0x100;
    [n % 0x100, q1 % 0x100, q2 % 0x100, q2 / 0x100]
  }

  /** The four big-endian bytes of n. */
  function U32ToBe(n: u32): (b: seq<u8>)
    ensures |b| == 4 && U32Be(b) == n
  {
    var le := U32ToLe(n);
    [le[3], le[2], le[1], le[0]]
  }

  /** The six big-endian bytes of a 48-bit n. */
  function U48ToBe(n: u48): (b: seq<u8>)
    ensures |b| == 6 && U48Be(b) == n
  {
    var q1 := n / 0x100;
    var q2 := q1 / 0x100;
    var q3 := q2 / 0x100;
    var q4 := q3 / 0x100;
    [q4 / 0x100, q4 % 0x100, q3 % 0x100, q2 % 0x100, q1 % 0x100, n % 0x100]
  }

  /** Reading the little-endian bytes of n big-endian swaps its byte order. */
  function ByteSwap32(n: u32): u32 {
    U32Be(U32ToLe(n))
  }
}
