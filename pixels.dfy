/** LCD_ReadPixel: the value read at a pixel of the active layer, and how it
    relates to what LCD_DrawPixel writes there.

    The source reads at FBStartAdress + 2 * (Ypos * XSize + Xpos) whatever the
    pixel format, while LCD_DrawPixel writes 32-bit formats at 4 times that
    offset; `ReadPixel` keeps the source's arithmetic and `ReadPixelAtWrite`
    reads where the writer writes. */
module Pixels {
  import opened Bytes
  import opened Frame

  /** How many bytes LCD_ReadPixel loads: a word for ARGB8888 and RGB888, a
      half-word for RGB565, ARGB4444 and AL88, one byte otherwise. */
  function ReadBytes(f: PixelFormat): (n: nat)
    ensures n == 1 || n == 2 || n == 4
  {
    match f
      case ARGB8888 => 4
      case RGB888 => 4
      case RGB565 => 2
      case ARGB4444 => 2
      case AL88 => 2
      case _ => 1
  }

  /** The part of a loaded value LCD_ReadPixel returns: all of it, except the low
      24 bits for RGB888 (`& 0x00FFFFFF`). */
  function Loaded(m: seq<Byte>, a: int, f: PixelFormat): (r: int)
    requires 0 <= a && a + ReadBytes(f) <= |m|
    ensures 0 <= r < Two32
  {
    if ReadBytes(f) == 4 then
      if f == RGB888 then Load32(m, a) % 0x100_0000 else Load32(m, a)
    else if ReadBytes(f) == 2 then Load16(m, a)
    else Load8(m, a)
  }

  /** The address LCD_ReadPixel reads: 2 * (Ypos * XSize + Xpos) past the frame
      buffer start. It is the address LCD_DrawPixel writes for RGB565 and, for
      the 4-byte formats, only for the pixel at offset 0. */
  function ReadAddress(l: Layer, x: int, y: int): (a: int)
    ensures l.pixelFormat == RGB565 ==> a == PixelAddress(l, x, y)
    ensures l.pixelFormat != RGB565 ==> (a == PixelAddress(l, x, y) <==> y * l.imageWidth + x == 0)
  {
    l.fbStart + 2 * (y * l.imageWidth + x)
  }

  /** LCD_ReadPixel as written. */
  function ReadPixel(m: seq<Byte>, l: Layer, x: int, y: int): (r: int)
    requires 0 <= ReadAddress(l, x, y) && ReadAddress(l, x, y) + ReadBytes(l.pixelFormat) <= |m|
    ensures 0 <= r < Two32
    ensures ReadBytes(l.pixelFormat) == 2 ==> r < Two16
    ensures l.pixelFormat == RGB565 ==> r == ReadPixelAtWrite(m, l, x, y)
  {
    Loaded(m, ReadAddress(l, x, y), l.pixelFormat)
  }

  /** The read at the address LCD_DrawPixel writes (`PixelAddress`). */
  function ReadPixelAtWrite(m: seq<Byte>, l: Layer, x: int, y: int): int
    requires 0 <= PixelAddress(l, x, y) && PixelAddress(l, x, y) + ReadBytes(l.pixelFormat) <= |m|
  {
    Loaded(m, PixelAddress(l, x, y), l.pixelFormat)
  }

  /** The part of a colour a layer keeps: what a read of that format returns
      after a write of the colour. */
  function Kept(f: PixelFormat, c: Color): int
  {
    if ReadBytes(f) == 4 then
      if f == RGB888 then c % 0x100_0000 else c
    else if ReadBytes(f) == 2 then c % Two16
    else c % 0x100
  }

  // ---------------------------------------------------------------------------

  lemma LoadStoreLow16(m: seq<Byte>, a: int, v: Color, n: nat)
    requires 0 <= a && a + n <= |m| && 2 <= n
    ensures Load16(Store(m, a, v, n), a) == v % Two16
  {
    var r := Store(m, a, v, n);
    var r2 := Store(m, a, v, 2);
    assert r[a] == r2[a] && r[a + 1] == r2[a + 1];
    LoadStore16(m, a, v);
  }

  /** A read at the written address gives back the colour, as far as the
      format keeps it. */
  lemma ReadBackAtWrite(m: seq<Byte>, l: Layer, x: int, y: int, c: Color)
    requires 0 <= PixelAddress(l, x, y) && PixelAddress(l, x, y) + WriteBytes(l.pixelFormat) <= |m|
    ensures ReadBytes(l.pixelFormat) <= WriteBytes(l.pixelFormat)
    ensures ReadPixelAtWrite(LayerPlot(m, l, x, y, c), l, x, y) == Kept(l.pixelFormat, c)
  {
    var a := PixelAddress(l, x, y);
    var n := WriteBytes(l.pixelFormat);
    var r := LayerPlot(m, l, x, y, c);
    var f := l.pixelFormat;
    if ReadBytes(f) == 4 {
      LoadStore32(m, a, c);
    } else if ReadBytes(f) == 2 {
      LoadStoreLow16(m, a, c, n);
    } else {
      assert r[a] == ByteOf(c, 0);
    }
  }

  /** On an RGB565 layer LCD_ReadPixel as written gives back what LCD_DrawPixel
      wrote (both use two bytes per pixel). */
  lemma ReadBackRgb565(m: seq<Byte>, l: Layer, x: int, y: int, c: Color)
    requires l.pixelFormat == RGB565
    requires 0 <= PixelAddress(l, x, y) && PixelAddress(l, x, y) + 2 <= |m|
    ensures ReadPixel(LayerPlot(m, l, x, y, c), l, x, y) == c % Two16
  {
    assert ReadAddress(l, x, y) == PixelAddress(l, x, y);
    ReadBackAtWrite(m, l, x, y, c);
  }

  /** On an ARGB8888 layer LCD_ReadPixel as written misses the pixel LCD_DrawPixel
      wrote: with a two-pixel-wide layer at address 0 over eight zero bytes,
      writing 0xFFFFFFFF at (1, 0) and reading (1, 0) back gives 0xFFFF0000,
      the upper half of the written word and the upper half of pixel 0. */
  lemma ReadPixelMissesArgb8888()
    ensures var m := seq(8, (i: int) => 0);
            var l := Layer(2, 1, ARGB8888, 0);
            var r := LayerPlot(m, l, 1, 0, 0xFFFF_FFFF);
            ReadPixel(r, l, 1, 0) == 0xFFFF_0000 && ReadPixelAtWrite(r, l, 1, 0) == 0xFFFF_FFFF
  {
    var m: seq<Byte> := seq(8, (i: int) => 0);
    var l := Layer(2, 1, ARGB8888, 0);
    var c: Color := 0xFFFF_FFFF;
    assert ByteOf(c, 0) == 0xFF && ByteOf(c, 1) == 0xFF && ByteOf(c, 2) == 0xFF && ByteOf(c, 3) == 0xFF;
    assert PixelAddress(l, 1, 0) == 4 && ReadAddress(l, 1, 0) == 2;
    var r := LayerPlot(m, l, 1, 0, c);
    assert r == Store(m, 4, c, 4);
    assert r[2] == 0 && r[3] == 0 && r[4] == 0xFF && r[5] == 0xFF && r[6] == 0xFF && r[7] == 0xFF;
  }
}
