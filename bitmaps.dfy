/** LCD_DrawBitmap's reading of a Windows bitmap (BMP) file header and the
    row-conversion requests it issues.

    The header fields are read as little-endian 16-bit halves: bfOffBits at
    bytes 10 and 12, biWidth at 18 and 20, biHeight at 22 and 24 (each field is
    `low | high << 16`) and biBitCount at 28. BMP rows are stored bottom-up, so
    display row r is converted from the stored row height - 1 - r. Rows are
    assumed to follow each other without padding. */
module Bitmaps {
  import opened Bytes
  import opened Frame

  /** The fields LCD_DrawBitmap uses. */
  datatype Header = Header(offset: int, width: int, height: int, bitsPerPixel: int)

  /** DMA2D input colour modes (CM_*). */
  datatype ColorMode = CmArgb8888 | CmRgb888 | CmRgb565

  /** One LL_ConvertLineToARGB8888(pSrc, pDst, xSize, ColorMode) call. `src` is
      a byte offset from the start of the bitmap, `dst` a byte address. */
  datatype ConvertRequest = ConvertRequest(src: int, dst: int, xSize: int, mode: ColorMode)

  /** A 32-bit field made of the halves at a and a + 2: `low | high << 16`. */
  function Field32(b: seq<Byte>, a: nat): (v: int)
    requires a + 4 <= |b|
    ensures 0 <= v < Two32
  {
    Load16(b, a) + 0x1_0000 * Load16(b, a + 2)
  }

  /** The header fields, from a bitmap of at least 30 bytes. */
  function DecodeHeader(b: seq<Byte>): Header
    requires |b| >= 30
  {
    Header(Field32(b, 10), Field32(b, 18), Field32(b, 22), Load16(b, 28))
  }

  /** The input colour mode chosen from bit_pixel / 8: 4 bytes ARGB8888,
      2 bytes RGB565, anything else RGB888. */
  function InputMode(bitsPerPixel: int): ColorMode
  {
    if bitsPerPixel / 8 == 4 then CmArgb8888
    else if bitsPerPixel / 8 == 2 then CmRgb565
    else CmRgb888
  }

  /** The header a bitmap carries: the fields in range of their types. */
  predicate WellFormed(h: Header)
  {
    0 <= h.offset < Two32 && 0 <= h.width < Two32 && 0 <= h.height < Two32 && 0 <= h.bitsPerPixel < Two16
  }

  /** The header fields written into a buffer of at least 30 bytes, as a BMP
      writer lays them out. */
  function EncodeHeader(b: seq<Byte>, h: Header): (r: seq<Byte>)
    requires |b| >= 30 && WellFormed(h)
    ensures |r| == |b|
  {
    Store(Store(Store(Store(b, 10, h.offset, 4), 18, h.width, 4), 22, h.height, 4), 28, h.bitsPerPixel, 2)
  }

  /** The conversion of display row r: the destination is row Ypos + r of a
      32-bit-per-pixel layout of the active layer (4 bytes per pixel whatever its
      format), the source the stored row height - 1 - r. */
  function RowRequest(l: Layer, xpos: int, ypos: int, h: Header, r: int): ConvertRequest
  {
    ConvertRequest(h.offset + h.width * (h.height - 1 - r) * (h.bitsPerPixel / 8),
                   l.fbStart + 4 * (l.imageWidth * (ypos + r) + xpos),
                   h.width, InputMode(h.bitsPerPixel))
  }

  /** All conversions LCD_DrawBitmap issues, one per row, top row first. */
  function BitmapRows(l: Layer, xpos: int, ypos: int, h: Header): (r: seq<ConvertRequest>)
    ensures |r| == if h.height < 0 then 0 else h.height
  {
    seq(if h.height < 0 then 0 else h.height, (r: int) => RowRequest(l, xpos, ypos, h, r))
  }

  // ---------------------------------------------------------------------------
  // Properties

  /** A 32-bit field reads back what a 32-bit little-endian store put there. */
  lemma Field32Store(b: seq<Byte>, a: nat, v: Color)
    requires a + 4 <= |b|
    ensures Field32(Store(b, a, v, 4), a) == v
  {
    var m := Store(b, a, v, 4);
    LoadStore32(b, a, v);
    assert Load32(m, a) == Load16(m, a) + 0x1_0000 * Load16(m, a + 2);
  }

  /** Decoding the header of an encoded bitmap gives back its fields. */
  lemma DecodeEncode(b: seq<Byte>, h: Header)
    requires |b| >= 30 && WellFormed(h)
    ensures DecodeHeader(EncodeHeader(b, h)) == h
  {
    var m1 := Store(b, 10, h.offset, 4);
    var m2 := Store(m1, 18, h.width, 4);
    var m3 := Store(m2, 22, h.height, 4);
    var m4 := Store(m3, 28, h.bitsPerPixel, 2);
    Field32Store(b, 10, h.offset);
    Field32Store(m1, 18, h.width);
    Field32Store(m2, 22, h.height);
    LoadStore16(m3, 28, h.bitsPerPixel);
    Field32Kept(m3, 22, h.bitsPerPixel, 2, 28);
    Field32Kept(m2, 18, h.height, 4, 22);
    Field32Kept(m3, 18, h.bitsPerPixel, 2, 28);
    Field32Kept(m1, 10, h.width, 4, 18);
    Field32Kept(m2, 10, h.height, 4, 22);
    Field32Kept(m3, 10, h.bitsPerPixel, 2, 28);
  }

  /** A store at or past a + 4 leaves the field at a as it was. */
  lemma Field32Kept(b: seq<Byte>, a: nat, v: Color, n: nat, at: int)
    requires a + 4 <= |b| && a + 4 <= at
    ensures Field32(Store(b, at, v, n), a) == Field32(b, a)
  {
    var r := Store(b, at, v, n);
    assert r[a] == b[a] && r[a + 1] == b[a + 1] && r[a + 2] == b[a + 2] && r[a + 3] == b[a + 3];
  }

  /** Only bytes 10 to 29 of the file decide the header. */
  lemma DecodeReadsHeaderBytes(b: seq<Byte>, b': seq<Byte>)
    requires |b| >= 30 && |b'| >= 30 && b[10..30] == b'[10..30]
    ensures DecodeHeader(b) == DecodeHeader(b')
  {
    assert forall i :: 10 <= i < 30 ==> b[i] == b[10..30][i - 10] == b'[i];
  }

  /** The colour mode follows the bit count: ARGB8888 exactly for 32 to 39 bits
      per pixel, RGB565 exactly for 16 to 23, RGB888 for every other count. */
  lemma InputModeByBits(bitsPerPixel: int)
    ensures InputMode(bitsPerPixel) == CmArgb8888 <==> 32 <= bitsPerPixel < 40
    ensures InputMode(bitsPerPixel) == CmRgb565 <==> 16 <= bitsPerPixel < 24
    ensures InputMode(bitsPerPixel) == CmRgb888 <==> !(32 <= bitsPerPixel < 40) && !(16 <= bitsPerPixel < 24)
  {
  }

  /** One display row down: the source moves one stored row back in the file
      (width * (bit_pixel / 8) bytes) and the destination one layer row on
      (XSize * 4 bytes). */
  lemma RowRequestStep(l: Layer, xpos: int, ypos: int, h: Header, r: int)
    ensures RowRequest(l, xpos, ypos, h, r + 1).src == RowRequest(l, xpos, ypos, h, r).src - h.width * (h.bitsPerPixel / 8)
    ensures RowRequest(l, xpos, ypos, h, r + 1).dst == RowRequest(l, xpos, ypos, h, r).dst + l.imageWidth * 4
    ensures RowRequest(l, xpos, ypos, h, r + 1).xSize == h.width && RowRequest(l, xpos, ypos, h, r + 1).mode == InputMode(h.bitsPerPixel)
  {
    var b := h.bitsPerPixel / 8;
    assert h.width * (h.height - 1 - (r + 1)) * b == h.width * (h.height - 1 - r) * b - h.width * b;
    assert l.imageWidth * (ypos + (r + 1)) == l.imageWidth * (ypos + r) + l.imageWidth;
  }

  /** The rows are mapped upside down: the top display row is converted from the
      last stored row, the bottom display row from the first stored row (at
      bfOffBits), and one display row down is one stored row back in the file and
      one layer row (4 * XSize bytes) further in the frame buffer. */
  lemma BitmapRowsFlip(l: Layer, xpos: int, ypos: int, h: Header, r: int)
    requires 0 <= r < h.height
    ensures var rows := BitmapRows(l, xpos, ypos, h);
            var rowBytes := h.width * (h.bitsPerPixel / 8);
            rows[r].src == h.offset + (h.height - 1 - r) * rowBytes &&
            rows[r].dst == l.fbStart + 4 * (l.imageWidth * ypos + xpos) + r * (4 * l.imageWidth) &&
            rows[r].xSize == h.width && rows[r].mode == InputMode(h.bitsPerPixel) &&
            (r == h.height - 1 ==> rows[r].src == h.offset) &&
            (r + 1 < h.height ==> rows[r + 1].src == rows[r].src - rowBytes &&
                                  rows[r + 1].dst == rows[r].dst + 4 * l.imageWidth)
  {
    var rowBytes := h.width * (h.bitsPerPixel / 8);
    assert h.width * (h.height - 1 - r) * (h.bitsPerPixel / 8) == (h.height - 1 - r) * rowBytes;
    assert l.imageWidth * (ypos + r) == l.imageWidth * ypos + r * l.imageWidth;
    if r + 1 < h.height {
      assert h.width * (h.height - 1 - (r + 1)) * (h.bitsPerPixel / 8) == (h.height - 1 - r) * rowBytes - rowBytes;
      assert l.imageWidth * (ypos + r + 1) == l.imageWidth * (ypos + r) + l.imageWidth;
    }
  }
}
