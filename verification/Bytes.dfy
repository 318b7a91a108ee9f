/** Machine integers of the probe: 8-bit bytes, 32-bit wrapping counters, little-endian words. */
module Bytes {

  type byte = bv8

  const TWO32: int := 0x1_0000_0000

  /** A 32-bit unsigned value, as the counters and time stamps of the firmware are. */
  type u32 = x: int | 0 <= x < TWO32

  /** Reduction to 32 bits, as every assignment to a `uint32_t` does. */
  function Wrap(x: int): u32 { x % TWO32 }

  function ByteOf(n: int): byte
    requires 0 <= n < 256
  {
    n as bv8
  }

  /** The truncating cast `(uint8_t)x`. */
  function Low8(x: int): byte { ByteOf(x % 256) }

  function IntOf(b: byte): (n: int)
    ensures 0 <= n < 256
  {
    b as int
  }

  lemma {:induction false} ByteOfIntOf(b: byte)
    ensures ByteOf(IntOf(b)) == b
  {
  }

  lemma {:induction false} Successor(b: byte)
    requires b != 0xFF
    ensures IntOf(b + 1) == IntOf(b) + 1
  {
  }

  /** Every value below 256 is the value of a byte. */
  lemma {:induction false} SomeByte(n: nat) returns (b: byte)
    requires n < 256
    ensures IntOf(b) == n
  {
    if n == 0 {
      b := 0;
    } else {
      b := SomeByte(n - 1);
      Successor(b);
      b := b + 1;
    }
  }

  lemma {:induction false} IntOfByteOf(n: int)
    requires 0 <= n < 256
    ensures IntOf(ByteOf(n)) == n
  {
    var b := SomeByte(n);
    ByteOfIntOf(b);
  }

  /** The four bytes of a 32-bit value, least significant first. */
  function LE32(x: u32): (s: seq<byte>)
    ensures |s| == 4
  {
    [Low8(x), Low8(x / 256), Low8(x / 65536), Low8(x / 16777216)]
  }

  function FromDigits(a: int, b: int, c: int, d: int): (x: u32)
    requires 0 <= a < 256 && 0 <= b < 256 && 0 <= c < 256 && 0 <= d < 256
  {
    a + 256 * b + 65536 * c + 16777216 * d
  }

  function FromLE32(s: seq<byte>): (x: u32)
    requires |s| == 4
  {
    FromDigits(IntOf(s[0]), IntOf(s[1]), IntOf(s[2]), IntOf(s[3]))
  }

  lemma {:induction false} DigitsOf(x: u32)
    ensures x % 256 + 256 * (x / 256 % 256) + 65536 * (x / 65536 % 256) + 16777216 * (x / 16777216 % 256) == x
  {
    assert x / 65536 == x / 256 / 256 && x / 16777216 == x / 65536 / 256;
  }

  lemma {:induction false} DigitsAre(a: int, b: int, c: int, d: int, x: int)
    requires 0 <= a < 256 && 0 <= b < 256 && 0 <= c < 256 && 0 <= d < 256
    requires x == a + 256 * b + 65536 * c + 16777216 * d
    ensures x % 256 == a && x / 256 % 256 == b && x / 65536 % 256 == c && x / 16777216 % 256 == d
  {
    assert x / 256 == b + 256 * c + 65536 * d;
    assert x / 65536 == c + 256 * d;
    assert x / 16777216 == d;
  }

  lemma {:induction false} FromLE32LE32(x: u32)
    ensures FromLE32(LE32(x)) == x
  {
    hide IntOf, ByteOf;
    DigitsOf(x);
    IntOfByteOf(x % 256);
    IntOfByteOf(x / 256 % 256);
    IntOfByteOf(x / 65536 % 256);
    IntOfByteOf(x / 16777216 % 256);
  }

  lemma {:induction false} LE32FromLE32(s: seq<byte>)
    requires |s| == 4
    ensures LE32(FromLE32(s)) == s
  {
    DigitsAre(IntOf(s[0]), IntOf(s[1]), IntOf(s[2]), IntOf(s[3]), FromLE32(s));
  }
}
