/** Glyph lookup, bit-to-pixel expansion and string layout (LCD_DisplayChar,
    DrawChar, LCD_DisplayStringAt).

    A font is a width W, a height H and a table of glyph rows. Each glyph row
    takes ceil(W/8) bytes; the bytes of a row are combined most significant
    first and pixel j of the row is bit W - j + offset - 1 of the combined value,
    where offset = 8 * ceil(W/8) - W pads the row to whole bytes. */
module Glyphs {
  import opened Bytes
  import opened Frame
  import Lines

  datatype Option<T> = None | Some(value: T)

  /** An sFONT: Width, Height and the glyph table (from ' ' on). */
  datatype Font = Font(width: nat, height: nat, table: seq<Byte>)

  /** The widths the expansion handles: at least one pixel, and at most 32 so
      that every bit position the pixel test reads is below 32. */
  predicate ValidFont(f: Font)
  {
    1 <= f.width <= 32
  }

  /** Bytes per glyph row, (W + 7) / 8. */
  function RowBytes(w: nat): (n: nat)
    ensures 8 * (n - 1) < w || w == 0
    ensures w <= 8 * n
  {
    (w + 7) / 8
  }

  /** DrawChar's padding `offset`, 8 * ((W + 7) / 8) - W. */
  function Offset(w: nat): (o: int)
    ensures 0 <= o < 8
  {
    8 * RowBytes(w) - w
  }

  /** Where LCD_DisplayChar finds the glyph of a character:
      (Ascii - ' ') * Height * ((Width + 7) / 8). */
  function GlyphIndex(f: Font, ascii: int): (r: int)
    ensures 32 <= ascii ==> 0 <= r
  {
    Nonneg3(ascii - 32, f.height, RowBytes(f.width));
    (ascii - 32) * f.height * RowBytes(f.width)
  }

  /** The character's glyph lies inside the font table. */
  predicate GlyphFits(f: Font, ascii: int)
  {
    32 <= ascii && GlyphIndex(f, ascii) + RowBytes(f.width) * f.height <= |f.table|
  }

  /** How many bytes the row switch reads: one, two, or three for every other
      row length (the `case 3:` / `default:` branch). */
  function ReadCount(nb: nat): nat
  {
    if nb == 1 then 1 else if nb == 2 then 2 else 3
  }

  /** The combined value of one glyph row, `line` in DrawChar. */
  function RowBits(t: seq<Byte>, p: int, nb: nat): (v: int)
    requires 0 <= p && p + ReadCount(nb) <= |t|
    ensures 0 <= v < 0x100_0000
  {
    if nb == 1 then t[p]
    else if nb == 2 then t[p] as int * 0x100 + t[p + 1] as int
    else t[p] as int * 0x1_0000 + t[p + 1] as int * 0x100 + t[p + 2] as int
  }

  function Pow2(n: nat): (r: nat)
    ensures r >= 1
  {
    if n == 0 then 1 else 2 * Pow2(n - 1)
  }

  /** `v & (1 << n)` is non-zero: bit 0 of v shifted right n times. */
  predicate Bit(v: int, n: nat)
    decreases n
  {
    if n == 0 then v % 2 == 1 else Bit(v / 2, n - 1)
  }

  /** Bit n of a non-negative v is the parity of v / 2^n. */
  lemma {:induction false} BitByPow2(v: int, n: nat)
    requires v >= 0
    ensures Bit(v, n) <==> (v / Pow2(n)) % 2 == 1
  {
    if n > 0 {
      BitByPow2(v / 2, n - 1);
      DivDiv(v, 2, Pow2(n - 1));
    }
  }

  /** The combined value of glyph row i, read from ceil(W/8) * i bytes past c. */
  function RowLine(f: Font, c: int, i: int): (v: int)
    requires ValidFont(f) && GlyphInTable(f, c) && 0 <= i < f.height
  {
    var nb := RowBytes(f.width);
    RowStart(f, c, i);
    RowBits(f.table, c + nb * i, nb)
  }

  /** Whether pixel j of glyph row i is drawn in the text colour. */
  predicate PixelOn(f: Font, c: int, i: int, j: int)
    requires ValidFont(f) && GlyphInTable(f, c) && 0 <= i < f.height && 0 <= j < f.width
  {
    Bit(RowLine(f, c, i), f.width - j + Offset(f.width) - 1)
  }

  /** The glyph occupies whole rows of the table from c on. */
  predicate GlyphInTable(f: Font, c: int)
  {
    0 <= c && c + RowBytes(f.width) * f.height <= |f.table|
  }

  /** One write of DrawChar: pixel j of row i at (`uint16_t`) (Xpos + j, Ypos + i),
      in the text colour where the glyph bit is set and the background colour
      elsewhere. */
  function GlyphWrite(f: Font, c: int, xpos: int, ypos: int, text: Color, back: Color, i: int, j: int): PixelWrite
    requires ValidFont(f) && GlyphInTable(f, c)
    requires 0 <= i < f.height && 0 <= j < f.width
  {
    PixelWrite(U16(xpos + j), U16(ypos + i), if PixelOn(f, c, i, j) then text else back)
  }

  /** The writes of row i, left to right. */
  function GlyphRow(f: Font, c: int, xpos: int, ypos: int, text: Color, back: Color, i: int): (r: seq<PixelWrite>)
    requires ValidFont(f) && GlyphInTable(f, c) && 0 <= i < f.height
    ensures |r| == f.width
  {
    seq(f.width, (j: int) requires 0 <= j < f.width => GlyphWrite(f, c, xpos, ypos, text, back, i, j))
  }

  /** The writes of the first n rows, row after row. */
  function GlyphRows(f: Font, c: int, xpos: int, ypos: int, text: Color, back: Color, n: int): seq<PixelWrite>
    requires ValidFont(f) && GlyphInTable(f, c) && 0 <= n <= f.height
    decreases n
  {
    if n == 0 then []
    else GlyphRows(f, c, xpos, ypos, text, back, n - 1) + GlyphRow(f, c, xpos, ypos, text, back, n - 1)
  }

  /** The pixel writes of DrawChar(Xpos, Ypos, c), in drawing order. */
  function GlyphWrites(f: Font, c: int, xpos: int, ypos: int, text: Color, back: Color): (r: seq<PixelWrite>)
    requires ValidFont(f) && GlyphInTable(f, c)
    ensures |r| == f.height * f.width
  {
    GlyphRowsLength(f, c, xpos, ypos, text, back, f.height);
    GlyphRows(f, c, xpos, ypos, text, back, f.height)
  }

  // ---------------------------------------------------------------------------
  // Properties of the glyph expansion

  /** Row i of a glyph starts inside the table and its bytes are readable. */
  lemma RowStart(f: Font, c: int, i: int)
    requires ValidFont(f) && GlyphInTable(f, c) && 0 <= i < f.height
    ensures var nb := RowBytes(f.width); 0 <= c + nb * i && c + nb * i + ReadCount(nb) <= |f.table|
  {
    var nb := RowBytes(f.width);
    MulLe(nb, i + 1, f.height);
    assert nb * (i + 1) == nb * i + nb;
    Nonneg3(nb, i, 1);
  }

  lemma MulLe(a: int, b: int, c: int)
    requires 0 <= a && b <= c
    ensures a * b <= a * c
  {
    assert a * c - a * b == a * (c - b);
    Nonneg3(a, c - b, 1);
  }

  lemma Nonneg3(a: int, b: int, c: int)
    ensures 0 <= a && 0 <= b && 0 <= c ==> 0 <= a * b * c
  {
  }

  /** Rows come one after another: the first n rows hold n * W writes and write
      number i * W + j is pixel j of row i. */
  lemma {:induction false} GlyphRowsAt(f: Font, c: int, xpos: int, ypos: int, text: Color, back: Color, n: int, i: int, j: int)
    requires ValidFont(f) && GlyphInTable(f, c) && 0 <= i < n <= f.height && 0 <= j < f.width
    ensures |GlyphRows(f, c, xpos, ypos, text, back, n)| == n * f.width
    ensures 0 <= i * f.width + j < n * f.width
    ensures GlyphRows(f, c, xpos, ypos, text, back, n)[i * f.width + j] == GlyphWrite(f, c, xpos, ypos, text, back, i, j)
    decreases n
  {
    GlyphRowsLength(f, c, xpos, ypos, text, back, n - 1);
    assert (n - 1) * f.width + f.width == n * f.width;
    if i < n - 1 {
      GlyphRowsAt(f, c, xpos, ypos, text, back, n - 1, i, j);
    } else {
      assert i * f.width == |GlyphRows(f, c, xpos, ypos, text, back, n - 1)|;
    }
  }

  lemma {:induction false} GlyphRowsLength(f: Font, c: int, xpos: int, ypos: int, text: Color, back: Color, n: int)
    requires ValidFont(f) && GlyphInTable(f, c) && 0 <= n <= f.height
    ensures |GlyphRows(f, c, xpos, ypos, text, back, n)| == n * f.width
    decreases n
  {
    if n > 0 {
      GlyphRowsLength(f, c, xpos, ypos, text, back, n - 1);
      assert (n - 1) * f.width + f.width == n * f.width;
    }
  }

  /** DrawChar writes exactly H * W pixels, write i * W + j going to
      (Xpos + j, Ypos + i) in the text colour exactly when the glyph bit of that
      pixel is set. */
  lemma GlyphWritesAt(f: Font, c: int, xpos: int, ypos: int, text: Color, back: Color, i: int, j: int)
    requires ValidFont(f) && GlyphInTable(f, c)
    requires 0 <= i < f.height && 0 <= j < f.width
    ensures |GlyphWrites(f, c, xpos, ypos, text, back)| == f.height * f.width
    ensures 0 <= i * f.width + j < f.height * f.width
    ensures GlyphWrites(f, c, xpos, ypos, text, back)[i * f.width + j] ==
            PixelWrite(U16(xpos + j), U16(ypos + i), if PixelOn(f, c, i, j) then text else back)
  {
    GlyphRowsAt(f, c, xpos, ypos, text, back, f.height, i, j);
  }

  /** Every glyph bit is the matching bit of the table, most significant bit
      first: for fonts up to 24 pixels wide, pixel j of row i is bit 7 - j % 8 of
      byte j / 8 of the row. */
  lemma PixelOnIsTableBit(f: Font, c: int, i: int, j: int)
    requires ValidFont(f) && f.width <= 24 && GlyphInTable(f, c) && 0 <= i < f.height && 0 <= j < f.width
    ensures var p := c + RowBytes(f.width) * i;
            0 <= p + j / 8 < |f.table| &&
            (PixelOn(f, c, i, j) <==> Bit(f.table[p + j / 8], 7 - j % 8))
  {
    var nb := RowBytes(f.width);
    RowStart(f, c, i);
    assert f.width - j + Offset(f.width) - 1 == 8 * nb - 1 - j;
    RowBitsMsbFirst(f.table, c + nb * i, nb, j);
  }

  /** The row combination puts byte k of the row at bits 8 * (nb - 1 - k) and
      up, so bit 8 * nb - 1 - j of the row is bit 7 - j % 8 of byte j / 8. */
  lemma RowBitsMsbFirst(t: seq<Byte>, p: int, nb: nat, j: int)
    requires 1 <= nb <= 3 && 0 <= j < 8 * nb && 0 <= p && p + nb <= |t|
    ensures 0 <= p + j / 8 < |t|
    ensures Bit(RowBits(t, p, nb), 8 * nb - 1 - j) <==> Bit(t[p + j / 8], 7 - j % 8)
  {
    if nb == 2 {
      MsbTwo(t[p], t[p + 1], j);
    } else if nb == 3 {
      MsbThree(t[p], t[p + 1], t[p + 2], j);
    }
  }

  /** Bit 15 - j of the two bytes a, b read as a big-endian half-word is bit
      7 - j % 8 of byte j / 8. */
  lemma MsbTwo(a: Byte, b: Byte, j: int)
    requires 0 <= j < 16
    ensures Bit(a as int * 0x100 + b as int, 15 - j) <==> Bit(if j < 8 then a else b, 7 - j % 8)
  {
    if j < 8 {
      Pow2Values();
      BitAbove(a as int, b as int, 8, 7 - j);
    } else {
      BitBelow(a as int, b as int, 15 - j);
    }
  }

  /** Bit 23 - j of three big-endian bytes a, b, c is bit 7 - j % 8 of byte j / 8. */
  lemma MsbThree(a: Byte, b: Byte, c: Byte, j: int)
    requires 0 <= j < 24
    ensures Bit(a as int * 0x1_0000 + b as int * 0x100 + c as int, 23 - j) <==> Bit(if j < 8 then a else if j < 16 then b else c, 7 - j % 8)
  {
    var hi := a as int * 0x100 + b as int;
    assert a as int * 0x1_0000 + b as int * 0x100 + c as int == hi * 0x100 + c as int;
    if j < 8 {
      MsbThreeTop(a, b, c, j);
    } else if j < 16 {
      Pow2Values();
      BitAbove(hi, c as int, 8, 15 - j);
      MsbTwo(a, b, j);
    } else {
      BitBelow(hi, c as int, 23 - j);
    }
  }

  /** The first byte's bits of three big-endian bytes. */
  lemma MsbThreeTop(a: Byte, b: Byte, c: Byte, j: int)
    requires 0 <= j < 8
    ensures Bit(a as int * 0x1_0000 + b as int * 0x100 + c as int, 23 - j) <==> Bit(a, 7 - j)
  {
    Pow2Values();
    BitAbove(a as int, b as int * 0x100 + c as int, 16, 7 - j);
  }

  lemma Pow2Values()
    ensures Pow2(0) == 1 && Pow2(8) == 0x100 && Pow2(16) == 0x1_0000 && Pow2(24) == 0x100_0000
  {
    assert Pow2(4) == 16;
    assert Pow2(8) == 0x100;
    assert Pow2(12) == 0x1000;
    assert Pow2(16) == 0x1_0000;
    assert Pow2(20) == 0x10_0000;
  }

  lemma Pow2Add(a: nat, b: nat)
    ensures Pow2(a + b) == Pow2(a) * Pow2(b)
    decreases b
  {
    if b > 0 {
      Pow2Add(a, b - 1);
      assert Pow2(a + b) == 2 * Pow2(a + b - 1);
    }
  }

  /** Dividing by p and then by q is dividing by p * q. */
  lemma DivDiv(v: int, p: int, q: int)
    requires v >= 0 && p > 0 && q > 0
    ensures v / (p * q) == (v / p) / q
  {
    var a, b := v / p, v % p;
    var a1, a2 := a / q, a % q;
    assert v == p * a + b;
    assert a == q * a1 + a2;
    assert p * a == (p * q) * a1 + p * a2 by {
      assert p * a == p * (q * a1 + a2);
      assert p * (q * a1 + a2) == p * (q * a1) + p * a2;
      assert p * (q * a1) == (p * q) * a1;
    }
    MulLe(p, a2, q - 1);
    assert p * (q - 1) == p * q - p;
    Nonneg3(p, a2, 1);
    DivModUnique(v, p * q, a1, p * a2 + b);
  }

  /** A bit s + b of hi * 2^s + lo, with lo below 2^s, is bit b of hi. */
  lemma BitAbove(hi: int, lo: int, s: nat, b: nat)
    requires hi >= 0 && 0 <= lo < Pow2(s)
    ensures Bit(hi * Pow2(s) + lo, s + b) <==> Bit(hi, b)
  {
    Nonneg3(hi, Pow2(s), 1);
    BitByPow2(hi * Pow2(s) + lo, s + b);
    BitByPow2(hi, b);
    ParityAbove(hi, lo, s, b);
  }

  lemma ParityAbove(hi: int, lo: int, s: nat, b: nat)
    requires hi >= 0 && 0 <= lo < Pow2(s)
    ensures (hi * Pow2(s) + lo) / Pow2(s + b) == hi / Pow2(b)
  {
    var v := hi * Pow2(s) + lo;
    Nonneg3(hi, Pow2(s), 1);
    DivModUnique(v, Pow2(s), hi, lo);
    Pow2Add(s, b);
    DivDiv(v, Pow2(s), Pow2(b));
  }

  /** A bit b < 8 of hi * 256 + lo, with lo a byte, is bit b of lo. */
  lemma BitBelow(hi: int, lo: int, b: nat)
    requires hi >= 0 && 0 <= lo < 0x100 && b < 8
    ensures Bit(hi * 0x100 + lo, b) <==> Bit(lo, b)
  {
    BitByPow2(hi * 0x100 + lo, b);
    BitByPow2(lo, b);
    ParityBelow(hi, lo, b);
  }

  lemma ParityBelow(hi: int, lo: int, b: nat)
    requires hi >= 0 && 0 <= lo < 0x100 && b < 8
    ensures ((hi * 0x100 + lo) / Pow2(b)) % 2 == (lo / Pow2(b)) % 2
  {
    ByteSplit(b);
    ParityBelowDivisor(hi, lo, Pow2(b), Pow2(7 - b));
  }

  /** The parity of (hi * 256 + lo) / P is that of lo / P when P divides 128. */
  lemma ParityBelowDivisor(hi: int, lo: int, P: int, h: int)
    requires hi >= 0 && 0 <= lo < 0x100 && P >= 1 && P * (2 * h) == 0x100
    ensures ((hi * 0x100 + lo) / P) % 2 == (lo / P) % 2
  {
    var m := hi * h;
    ScaleEven(hi, P, h);
    var q, r := lo / P, lo % P;
    Regroup(P, m, q, r);
    DivModUnique(hi * 0x100 + lo, P, 2 * m + q, r);
    DivModUnique(2 * m + q, 2, m + q / 2, q % 2);
  }

  /** 256 is 2^b times an even number 2 * 2^(7 - b). */
  lemma ByteSplit(b: nat)
    requires b < 8
    ensures Pow2(b) * (2 * Pow2(7 - b)) == 0x100
  {
    Pow2Add(b, 8 - b);
    Pow2Values();
    assert Pow2(8 - b) == 2 * Pow2(7 - b);
  }

  lemma ScaleEven(hi: int, P: int, h: int)
    requires P * (2 * h) == 0x100
    ensures hi * 0x100 == P * (2 * (hi * h))
  {
    assert hi * 0x100 == hi * (P * (2 * h));
    assert hi * (P * (2 * h)) == P * (2 * (hi * h));
  }

  lemma Regroup(P: int, m: int, q: int, r: int)
    ensures P * (2 * m) + (P * q + r) == P * (2 * m + q) + r
  {
    assert P * (2 * m + q) == P * (2 * m) + P * q;
  }

  // ---------------------------------------------------------------------------
  // LCD_DisplayStringAt

  /** Text_AlignModeTypdef; `OtherMode` stands for any value that is none of the three. */
  datatype AlignMode = CenterMode | RightMode | LeftMode | OtherMode

  /** The start column ref_column (a `uint16_t`): the alignment arithmetic on
      `uint32_t` values, then the clamp to 1 when it is below 1 or at least 0x8000. */
  function StartColumn(xsize: int, w: nat, size: int, xpos: int, mode: AlignMode): (r: int)
    requires 1 <= w
    ensures 1 <= r < 0x8000
  {
    var chars := xsize / w;
    var span := U32(U32(chars - size) * w);
    var ref := match mode
      case CenterMode => U16(U32(xpos + span / 2))
      case RightMode => U16(U32(-xpos + span))
      case LeftMode => xpos
      case OtherMode => xpos;
    if ref < 1 || ref >= 0x8000 then 1 else ref
  }

  /** The loop index i at which LCD_DisplayStringAt stops, counting from k: it
      goes on while there is a character left and the `uint16_t`-masked remaining
      width XSize - i * W is at least W (i itself is a `uint16_t`). */
  function StopIndex(xsize: int, w: nat, n: nat, k: nat): (r: nat)
    requires k <= n
    ensures k <= r <= n
    decreases n - k
  {
    if k < n && U16(xsize - U16(k) * w) >= w then StopIndex(xsize, w, n, k + 1) else k
  }

  /** How many characters of an n-character string are drawn. */
  function DrawnCount(xsize: int, w: nat, n: nat): nat
  {
    StopIndex(xsize, w, n, 0)
  }

  /** The pixel writes of the first `count` characters, character k drawn at
      column ref + k * W (the `uint16_t` sum). */
  function TextWrites(f: Font, text: seq<Byte>, count: nat, ref: int, ypos: int, tc: Color, bc: Color): seq<PixelWrite>
    requires ValidFont(f) && count <= |text|
    requires forall k :: 0 <= k < count ==> GlyphFits(f, text[k])
    decreases count
  {
    if count == 0 then []
    else
      var k := count - 1;
      assert GlyphFits(f, text[k]);
      TextWrites(f, text, k, ref, ypos, tc, bc) +
      GlyphWrites(f, GlyphIndex(f, text[k]), U16(ref + k * f.width), ypos, tc, bc)
  }

  /** While there is a character left and room for it, character k is drawn
      and the count stopped at is still ahead. */
  lemma TextGoes(text: seq<Byte>, xsize: int, w: nat, size: nat, k: nat)
    requires 0 in text && size == Strlen(text) && k <= size
    requires text[k] != 0 && U16(xsize - U16(k) * w) >= w
    ensures k < size && k < StopIndex(xsize, w, size, k) && StopIndex(xsize, w, size, k + 1) == StopIndex(xsize, w, size, k)
  {
  }

  /** When the string has ended or there is no room left, the count stops at k. */
  lemma TextStops(text: seq<Byte>, xsize: int, w: nat, size: nat, k: nat)
    requires 0 in text && size == Strlen(text) && k <= size
    requires !(text[k] != 0 && U16(xsize - U16(k) * w) >= w)
    ensures StopIndex(xsize, w, size, k) == k
  {
  }

  /** With a layer narrower than 2^16 pixels, exactly min(strlen, XSize / W)
      characters are drawn. */
  lemma DrawnCountIsMin(xsize: int, w: nat, n: nat)
    requires 0 <= xsize < Two16 && 1 <= w
    ensures DrawnCount(xsize, w, n) == if n <= xsize / w then n else xsize / w
  {
    StopIndexFrom(xsize, w, n, 0);
  }

  lemma {:induction false} StopIndexFrom(xsize: int, w: nat, n: nat, k: nat)
    requires 0 <= xsize < Two16 && 1 <= w
    requires k <= n && k <= xsize / w
    ensures StopIndex(xsize, w, n, k) == if n <= xsize / w then n else xsize / w
    decreases n - k
  {
    if k < n {
      StopTest(xsize, w, k);
      if k < xsize / w {
        StopIndexFrom(xsize, w, n, k + 1);
      }
    }
  }

  /** The stop test at index k <= XSize / W passes exactly when k < XSize / W. */
  lemma StopTest(xsize: int, w: nat, k: nat)
    requires 0 <= xsize < Two16 && 1 <= w && k <= xsize / w
    ensures U16(xsize - U16(k) * w) >= w <==> k < xsize / w
  {
    var m, r := xsize / w, xsize % w;
    assert xsize == m * w + r;
    MulLe(m, 1, w);
    assert m <= xsize;
    assert U16(k) == k;
    var d := xsize - k * w;
    assert d == (m - k) * w + r by {
      assert m * w - k * w == (m - k) * w;
    }
    Nonneg3(m - k, w, 1);
    assert 0 <= d <= xsize;
    if k < m {
      MulLe(w, 1, m - k);
      assert (m - k) * w >= w;
    }
  }

  /** Centred text with Xpos = 0 leaves a left margin ref_column no wider than
      the right margin XSize - ref_column - strlen * W, and the right margin is
      wider by at most W: the remainder XSize % W plus the rounding of the
      halving (when the start column is not clamped). */
  lemma CenterMargins(xsize: int, w: nat, size: nat)
    requires 0 <= xsize < Two32 && 1 <= w && size <= xsize / w
    requires 1 <= (xsize / w - size) * w / 2 < 0x8000
    ensures var r := StartColumn(xsize, w, size, 0, CenterMode);
            r == (xsize / w - size) * w / 2 && 2 * r + size * w <= xsize &&
            (xsize - r - size * w) - r <= w
  {
    var m := xsize / w;
    assert m * w <= xsize;
    assert xsize - m * w < w;
    assert (m - size) * w <= m * w < Two32 by {
      assert m * w - (m - size) * w == size * w;
    }
    assert U32(m - size) == m - size;
    assert (m - size) * w + size * w == m * w;
  }

  /** Right-aligned text with Xpos = 0 ends at the last whole character cell:
      ref_column + strlen * W == (XSize / W) * W (when not clamped). */
  lemma RightAligned(xsize: int, w: nat, size: nat)
    requires 0 <= xsize < Two32 && 1 <= w && size <= xsize / w
    requires 1 <= (xsize / w - size) * w < 0x8000
    ensures var r := StartColumn(xsize, w, size, 0, RightMode);
            r + size * w == (xsize / w) * w
  {
    var m := xsize / w;
    assert m * w <= xsize;
    assert (m - size) * w <= m * w by {
      assert m * w - (m - size) * w == size * w;
    }
    assert U32(m - size) == m - size;
    assert (m - size) * w + size * w == m * w;
  }

  /** Left and unknown modes start at Xpos itself when it lies in [1, 0x8000),
      and at column 1 otherwise. */
  lemma LeftStart(xsize: int, w: nat, size: int, xpos: int, mode: AlignMode)
    requires 1 <= w && (mode == LeftMode || mode == OtherMode)
    ensures StartColumn(xsize, w, size, xpos, mode) == if 1 <= xpos < 0x8000 then xpos else 1
  {
  }

  /** Character k's glyph occupies the k-th block of H * W writes. */
  lemma {:induction false} TextWritesLength(f: Font, text: seq<Byte>, count: nat, ref: int, ypos: int, tc: Color, bc: Color)
    requires ValidFont(f) && count <= |text|
    requires forall k :: 0 <= k < count ==> GlyphFits(f, text[k])
    ensures |TextWrites(f, text, count, ref, ypos, tc, bc)| == count * (f.height * f.width)
    decreases count
  {
    if count > 0 {
      TextWritesLength(f, text, count - 1, ref, ypos, tc, bc);
      assert (count - 1) * (f.height * f.width) + f.height * f.width == count * (f.height * f.width);
    }
  }

  // ---------------------------------------------------------------------------
  // Drawing order

  /** Drawing character k after the first k completes the first k + 1. */
  lemma TextWritesStep(m: seq<Byte>, l: Layer, f: Font, text: seq<Byte>, k: nat, start: int, column: int, ypos: int, tc: Color, bc: Color)
    requires ValidFont(f) && k < |text| && forall k' :: 0 <= k' < k ==> GlyphFits(f, text[k'])
    requires GlyphFits(f, text[k]) && column == start + k * f.width
    ensures LayerPlotAll(LayerPlotAll(m, l, TextWrites(f, text, k, start, ypos, tc, bc)), l,
                         GlyphWrites(f, GlyphIndex(f, text[k]), U16(column), ypos, tc, bc)) ==
            LayerPlotAll(m, l, TextWrites(f, text, k + 1, start, ypos, tc, bc))
  {
    var before := TextWrites(f, text, k, start, ypos, tc, bc);
    var g := GlyphWrites(f, GlyphIndex(f, text[k]), U16(column), ypos, tc, bc);
    assert TextWrites(f, text, k + 1, start, ypos, tc, bc) == before + g;
    LayerPlotAllAppend(m, l, before, g);
  }

  /** A drawn row completes the first i + 1 rows. */
  lemma GlyphRowsStep(m: seq<Byte>, l: Layer, f: Font, c: int, xpos: int, ypos: int, text: Color, back: Color, i: int)
    requires ValidFont(f) && GlyphInTable(f, c) && 0 <= i < f.height
    ensures LayerPlotAll(LayerPlotAll(m, l, GlyphRows(f, c, xpos, ypos, text, back, i)), l, GlyphRow(f, c, xpos, ypos, text, back, i)) ==
            LayerPlotAll(m, l, GlyphRows(f, c, xpos, ypos, text, back, i + 1))
  {
    LayerPlotAllAppend(m, l, GlyphRows(f, c, xpos, ypos, text, back, i), GlyphRow(f, c, xpos, ypos, text, back, i));
  }

  // ---------------------------------------------------------------------------
  // C strings

  /** The length of a NUL-terminated string: the index of its first 0 byte. */
  function Strlen(s: seq<Byte>): (n: nat)
    requires 0 in s
    ensures n < |s| && s[n] == 0
    ensures forall k :: 0 <= k < n ==> s[k] != 0
  {
    if s[0] == 0 then 0
    else
      assert 0 in s[1..] by {
        var k :| 0 <= k < |s| && s[k] == 0;
        assert s[1..][k - 1] == 0;
      }
      var n := Strlen(s[1..]) + 1;
      assert forall k :: 1 <= k < n ==> s[k] == s[1..][k - 1];
      n
  }
}
