/** Byte strings, and the UTF-8 view of them. */
module Bytes {
  type byte = n: nat | n < 256
  type bytes = seq<byte>

  /** Lengths are `usize`, of 32 bits on the device (`riscv32imac`). */
  const USIZE_LIMIT: nat := 0x1_0000_0000

  /** Width of the code point at the head of `b` if it is well formed (section 4 of RFC 3629), else 0. */
  function HeadWidth(b: bytes): (w: nat)
    ensures w <= |b| && w <= 4
  {
    if |b| >= 1 && b[0] < 0x80 then 1
    else if |b| >= 2 && 0xC2 <= b[0] <= 0xDF && Tail(b[1]) then 2
    else if |b| >= 3 && Tail(b[2]) &&
      ( (b[0] == 0xE0 && 0xA0 <= b[1] <= 0xBF)
      || (0xE1 <= b[0] <= 0xEC && Tail(b[1]))
      || (b[0] == 0xED && 0x80 <= b[1] <= 0x9F)
      || (0xEE <= b[0] <= 0xEF && Tail(b[1]))) then 3
    else if |b| >= 4 && Tail(b[2]) && Tail(b[3]) &&
      ( (b[0] == 0xF0 && 0x90 <= b[1] <= 0xBF)
      || (0xF1 <= b[0] <= 0xF3 && Tail(b[1]))
      || (b[0] == 0xF4 && 0x80 <= b[1] <= 0x8F)) then 4
    else 0
  }

  predicate Tail(c: byte) { 0x80 <= c <= 0xBF }

  predicate ValidUtf8(b: bytes) {
    b == [] || (HeadWidth(b) > 0 && ValidUtf8(b[HeadWidth(b)..]))
  }

  /** `str::from_utf8(b).unwrap_or("").chars().count()` */
  function CodePoints(b: bytes): (n: nat)
    ensures n <= |b|
  {
    if ValidUtf8(b) then CountCodePoints(b) else 0
  }

  function CountCodePoints(b: bytes): (n: nat)
    requires ValidUtf8(b)
    ensures n <= |b|
  {
    if b == [] then 0 else 1 + CountCodePoints(b[HeadWidth(b)..])
  }
}
