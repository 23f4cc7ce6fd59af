/** Machine bytes, and 32-bit words as four of them. */
module Bytes {
  type byte = bv8

  const U32 := 0x1_0000_0000

  function ByteOf(n: int): (b: byte)
    requires 0 <= n < 256
    ensures b as int == n
  {
    if n == 0 then 0 else ByteOf(n - 1) + 1
  }

  /** The low byte of v. */
  function Byte(v: int): (b: byte)
    ensures b as int == v % 256
  {
    ByteOf(v % 256)
  }

  /** The word with these bytes, the least significant first. */
  function WordOf(b0: byte, b1: byte, b2: byte, b3: byte): int {
    (b0 as int) + 0x100 * (b1 as int) + 0x1_0000 * (b2 as int) + 0x100_0000 * (b3 as int)
  }

  lemma Digits(v: int)
    requires 0 <= v < U32
    ensures var d1, d2, d3 := v / 0x100 % 256, v / 0x1_0000 % 256, v / 0x100_0000 % 256;
      v % 256 + 0x100 * d1 + 0x1_0000 * d2 + 0x100_0000 * d3 == v
  {
    assert v / 0x1_0000 == v / 0x100 / 256;
    assert v / 0x100_0000 == v / 0x1_0000 / 256;
  }

  /** A word taken apart and put together again. */
  lemma WordRoundTrip(v: int)
    requires 0 <= v < U32
    ensures WordOf(Byte(v), Byte(v / 0x100), Byte(v / 0x1_0000), Byte(v / 0x100_0000)) == v
  {
    hide Byte;
    Digits(v);
  }
}
