/** Machine integers of the C sources, as ranges of mathematical integers. */
module Bytes {
  const TWO_32 := 0x1_0000_0000
  const TWO_64 := 0x1_0000_0000_0000_0000

  type byte = x: int | 0 <= x < 0x100
  type uint16 = x: int | 0 <= x < 0x1_0000
  type uint32 = x: int | 0 <= x < TWO_32
  type uint64 = x: int | 0 <= x < TWO_64

  datatype Option<+T> = None | Some(value: T)

  /** Network byte order of a 16-bit number (htons). */
  function BigEndian16(x: uint16): (s: seq<byte>)
    ensures |s| == 2
  {
    [x / 0x100, x % 0x100]
  }

  /** Network byte order of a 32-bit number (htonl). */
  function BigEndian32(x: uint32): (s: seq<byte>)
    ensures |s| == 4
  {
    BigEndian16(x / 0x1_0000) + BigEndian16(x % 0x1_0000)
  }

  /** `x + 1` on a uint16_t. */
  function Next16(x: uint16): uint16 {
    (x + 1) % 0x1_0000
  }
}
