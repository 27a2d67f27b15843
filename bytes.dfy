/** Machine words and byte-addressed memory.
    The display memory is a sequence of bytes indexed by byte address; a
    32-bit or 16-bit store writes its value little-endian (as the Cortex-M7 does).
    Stores that fall (partly) outside the modelled memory leave those bytes alone. */
module Bytes {

  const Two16: int := 0x1_0000
  const Two32: int := 0x1_0000_0000

  type Byte = x: int | 0 <= x < 256
  /** A `uint32_t` value, as colours are in the source. */
  type Color = x: int | 0 <= x < 0x1_0000_0000

  function Min(a: int, b: int): int
  {
    if a <= b then a else b
  }

  function Max(a: int, b: int): int
  {
    if a >= b then a else b
  }

  /** Conversion of an `int` to `uint16_t` (C keeps the value modulo 2^16). */
  function U16(x: int): (r: int)
    ensures 0 <= r < Two16
    ensures 0 <= x < Two16 ==> r == x
    ensures (r - x) % Two16 == 0
  {
    x % Two16
  }

  /** Conversion of an `int` to `uint32_t`. */
  function U32(x: int): (r: int)
    ensures 0 <= r < Two32
    ensures 0 <= x < Two32 ==> r == x
    ensures (r - x) % Two32 == 0
  {
    x % Two32
  }

  /** Byte number k (0 = least significant) of a 32-bit value. */
  function ByteOf(v: Color, k: nat): Byte
  {
    if k == 0 then v % 256
    else if k == 1 then (v / 0x100) % 256
    else if k == 2 then (v / 0x1_0000) % 256
    else (v / 0x100_0000) % 256
  }

  /** Byte i of memory m after the low n bytes of v are stored at a. */
  function StoredByte(m: seq<Byte>, a: int, v: Color, n: nat, i: int): Byte
    requires 0 <= i < |m|
  {
    if a <= i < a + n then ByteOf(v, i - a) else m[i]
  }

  /** Little-endian store of the low n bytes of v at byte address a. */
  function Store(m: seq<Byte>, a: int, v: Color, n: nat): (r: seq<Byte>)
    ensures |r| == |m|
    ensures forall i :: 0 <= i < |m| ==> r[i] == if a <= i < a + n then ByteOf(v, i - a) else m[i]
  {
    seq(|m|, (i: int) requires 0 <= i < |m| => StoredByte(m, a, v, n, i))
  }

  function Load8(m: seq<Byte>, a: int): int
    requires 0 <= a < |m|
  {
    m[a]
  }

  function Load16(m: seq<Byte>, a: int): int
    requires 0 <= a && a + 2 <= |m|
  {
    m[a] as int + 0x100 * m[a + 1] as int
  }

  function Load32(m: seq<Byte>, a: int): int
    requires 0 <= a && a + 4 <= |m|
  {
    m[a] as int + 0x100 * m[a + 1] as int + 0x1_0000 * m[a + 2] as int + 0x100_0000 * m[a + 3] as int
  }

  /** The four bytes of a word put back together give the word. */
  lemma BytesOfWord(v: Color)
    ensures ByteOf(v, 0) as int + 0x100 * ByteOf(v, 1) as int + 0x1_0000 * ByteOf(v, 2) as int + 0x100_0000 * ByteOf(v, 3) as int == v
  {
    var q1 := v / 0x100;
    var q2 := q1 / 0x100;
    var q3 := q2 / 0x100;
    assert v == v % 256 + 0x100 * q1;
    assert q1 == q1 % 256 + 0x100 * q2;
    assert q2 == q2 % 256 + 0x100 * q3;
    assert q3 < 256;
    assert v / 0x1_0000 == q2;
    assert v / 0x100_0000 == q3;
  }

  /** Reading back a 32-bit store gives the stored colour. */
  lemma LoadStore32(m: seq<Byte>, a: int, v: Color)
    requires 0 <= a && a + 4 <= |m|
    ensures Load32(Store(m, a, v, 4), a) == v
  {
    BytesOfWord(v);
  }

  /** Reading back a 16-bit store gives the colour truncated to `uint16_t`. */
  lemma LoadStore16(m: seq<Byte>, a: int, v: Color)
    requires 0 <= a && a + 2 <= |m|
    ensures Load16(Store(m, a, v, 2), a) == v % Two16
  {
    var q1, r0 := v / 0x100, v % 0x100;
    var q2, r1 := q1 / 0x100, q1 % 0x100;
    assert v == 0x1_0000 * q2 + (0x100 * r1 + r0);
    DivModUnique(v, 0x1_0000, q2, 0x100 * r1 + r0);
  }

  /** A word is determined by its four bytes. */
  lemma Load32Bytes(m: seq<Byte>, a: int, v: Color)
    requires 0 <= a && a + 4 <= |m|
    requires forall k :: 0 <= k < 4 ==> m[a + k] == ByteOf(v, k)
    ensures Load32(m, a) == v
  {
    assert m[a] == ByteOf(v, 0) && m[a + 1] == ByteOf(v, 1);
    assert m[a + 2] == ByteOf(v, 2) && m[a + 3] == ByteOf(v, 3);
    BytesOfWord(v);
  }

  // ---------------------------------------------------------------------------
  // Euclidean division facts

  lemma DivModUnique(n: int, d: int, q: int, r: int)
    requires d > 0 && n == q * d + r && 0 <= r < d
    ensures n / d == q && n % d == r
  {
    var q', r' := n / d, n % d;
    assert n == q' * d + r' && 0 <= r' < d;
    var e := q' - q;
    assert e * d == q' * d - q * d == r - r';
    if e >= 1 {
      MulAtLeast(e, d);
    } else if e <= -1 {
      MulAtMost(e, d);
    }
  }

  lemma MulAtLeast(e: int, d: int)
    requires e >= 1 && d >= 0
    ensures e * d >= d
  {
    assert e * d == d + (e - 1) * d;
  }

  lemma MulAtMost(e: int, d: int)
    requires e <= -1 && d > 0
    ensures e * d <= -d
  {
    assert e * d == -d + (e + 1) * d;
  }
}
