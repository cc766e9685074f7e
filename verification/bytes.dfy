/** Fixed-width integers and the little-endian byte layouts used on the wire.

    Go's unsigned integers are modelled as bounded `int` subset types and every
    truncating conversion is written out: `uint8(x)` keeps `x % 256` (Dafny's `%`
    is Euclidean, so this is also the two's-complement low byte of a negative
    `x`), and an arithmetic right shift `x >> 8k` is `x / 256^k` (Dafny's `/`
    by a positive divisor rounds toward minus infinity, as the shift does). */
module Bytes {

  const TWO_8: int := 0x100
  const TWO_16: int := 0x1_0000
  const TWO_24: int := 0x100_0000
  const TWO_32: int := 0x1_0000_0000
  const TWO_63: int := 0x8000_0000_0000_0000
  const TWO_64: int := 0x1_0000_0000_0000_0000

  /** Go's `byte` (`uint8`). */
  type byte = x: int | 0 <= x < 0x100
  /** Go's `uint16`. */
  type uint16 = x: int | 0 <= x < 0x1_0000
  /** Go's `uint32`. */
  type uint32 = x: int | 0 <= x < 0x1_0000_0000
  /** Go's `int64`, the type of Unix seconds returned by the system clock. */
  type int64 = x: int | -0x8000_0000_0000_0000 <= x < 0x8000_0000_0000_0000

  /** `uint8(x)`: the low eight bits of `x`. */
  function Low8(x: int): byte
  {
    x % 256
  }

  /** `uint8` conversion leaves a value that already fits unchanged. */
  lemma Low8Small(x: int)
    requires 0 <= x < 256
    ensures Low8(x) == x
  {
  }

  /** The value of three bytes read least significant first. */
  function Le24(b0: byte, b1: byte, b2: byte): (n: nat)
    ensures n < TWO_24
    ensures Low8(n) == b0 && Low8(n / TWO_8) == b1 && Low8(n / TWO_16) == b2
  {
    b0 + b1 * TWO_8 + b2 * TWO_16
  }

  /** The value of four bytes read least significant first. */
  function Le32(b: seq<byte>): (n: nat)
    requires |b| == 4
    ensures n < TWO_32
    ensures Low8(n) == b[0] && Low8(n / TWO_8) == b[1]
    ensures Low8(n / TWO_16) == b[2] && Low8(n / TWO_24) == b[3]
  {
    var b1: int, b2: int, b3: int := b[1], b[2], b[3];
    var n := Le24(b[0], b[1], b[2]) + b3 * TWO_24;
    assert n / TWO_24 == b3;
    assert n / TWO_16 == b2 + TWO_8 * b3;
    assert n / TWO_8 == b1 + TWO_8 * b2 + TWO_16 * b3;
    n
  }

  /** A residue modulo 2^16 is its low byte plus the next byte, shifted. */
  lemma Mod16Split(x: int)
    ensures x % TWO_16 == x % 256 + 256 * ((x / 256) % 256)
  {
    var q := x / 256;
    assert x == 256 * q + x % 256;
    assert q == 256 * (q / 256) + q % 256;
    assert x == TWO_16 * (q / 256) + (x % 256 + 256 * (q % 256));
  }

  /** A residue modulo 2^24 is its low byte plus the residue of the rest modulo 2^16, shifted. */
  lemma Mod24Split(x: int)
    ensures x % TWO_24 == x % 256 + 256 * ((x / 256) % TWO_16)
  {
    var q := x / 256;
    assert x == 256 * q + x % 256;
    assert q == TWO_16 * (q / TWO_16) + q % TWO_16;
    assert x == TWO_24 * (q / TWO_16) + (x % 256 + 256 * (q % TWO_16));
  }

  /** A residue modulo 2^32 is its low byte plus the residue of the rest modulo 2^24, shifted. */
  lemma Mod32Split(x: int)
    ensures x % TWO_32 == x % 256 + 256 * ((x / 256) % TWO_24)
  {
    var q := x / 256;
    assert x == 256 * q + x % 256;
    assert q == TWO_24 * (q / TWO_24) + q % TWO_24;
    assert x == TWO_32 * (q / TWO_24) + (x % 256 + 256 * (q % TWO_24));
  }

  /** Shifting right by 8 bits and then by 8k bits is shifting by 8(k + 1) bits. */
  lemma ShiftAgain(x: int)
    ensures x / TWO_16 == (x / 256) / 256
    ensures x / TWO_24 == (x / 256) / TWO_16
    ensures (x / 256) / TWO_16 == ((x / 256) / 256) / 256
  {
    var q := x / 256;
    assert x == 256 * q + x % 256;
    assert q == 256 * (q / 256) + q % 256;
    assert x == TWO_16 * (q / 256) + (256 * (q % 256) + x % 256);
    assert q == TWO_16 * (q / TWO_16) + q % TWO_16;
    assert x == TWO_24 * (q / TWO_16) + (256 * (q % TWO_16) + x % 256);
    var p := q / 256;
    assert p == 256 * (p / 256) + p % 256;
    assert q == TWO_16 * (p / 256) + (256 * (p % 256) + q % 256);
  }

  /** Reading a 24-bit residue back from its three low bytes. */
  lemma {:induction false} Le24OfLowBytes(x: int)
    ensures Le24(Low8(x), Low8(x / TWO_8), Low8(x / TWO_16)) == x % TWO_24
  {
    ShiftAgain(x);
    Mod24Split(x);
    Mod16Split(x / 256);
  }

  /** Reading a 32-bit residue back from its four low bytes. */
  lemma {:induction false} Le32OfLowBytes(x: int)
    ensures Le32([Low8(x), Low8(x / TWO_8), Low8(x / TWO_16), Low8(x / TWO_24)]) == x % TWO_32
  {
    var b := [Low8(x), Low8(x / TWO_8), Low8(x / TWO_16), Low8(x / TWO_24)];
    var q := x / 256;
    ShiftAgain(x);
    ShiftAgain(q);
    Mod32Split(x);
    Mod24Split(q);
    Mod16Split(q / 256);
    assert Le32(b) == Low8(x) + TWO_8 * Low8(q) + TWO_16 * Low8(q / 256) + TWO_24 * Low8(q / TWO_16);
  }
}
