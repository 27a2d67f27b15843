/** The requests the driver hands to the accelerated rectangle fill
    (LL_FillBuffer), and which pixel addresses such a request covers.

    A request names a destination address, xSize pixels per row, ySize rows and
    OffLine pixels skipped between rows, so row r, column c of the request is
    the pixel at dst + bytes * (r * (xSize + OffLine) + c), where bytes is 2 when
    the active layer is RGB565 and 4 otherwise (the fill's colour mode follows
    the layer's format in the same way). */
module Fills {
  import opened Bytes
  import opened Frame

  /** One LL_FillBuffer(LayerIndex, pDst, xSize, ySize, OffLine, ColorIndex) call,
      together with the pixel format of the active layer it reads. */
  datatype FillRequest = FillRequest(layer: nat, dst: int, xSize: int, ySize: int, offLine: int,
                                     color: Color, format: PixelFormat)

  /** The address the fill writes for row r, column c. */
  function FillCell(q: FillRequest, r: int, c: int): int
  {
    q.dst + WriteBytes(q.format) * (r * (q.xSize + q.offLine) + c)
  }

  /** Byte address a is the start of one of the request's pixels. */
  predicate Covers(q: FillRequest, a: int)
  {
    exists r, c :: 0 <= r < q.ySize && 0 <= c < q.xSize && FillCell(q, r, c) == a
  }

  /** LCD_DrawHLine: Length pixels from (x, y), one row, no line offset. */
  function HLineRequest(l: Layer, layer: nat, x: int, y: int, len: int, c: Color): FillRequest
  {
    FillRequest(layer, PixelAddress(l, x, y), len, 1, 0, c, l.pixelFormat)
  }

  /** LCD_DrawVLine: one pixel per row for Length rows, skipping XSize - 1 pixels
      between rows (a `uint32_t` difference). */
  function VLineRequest(l: Layer, layer: nat, x: int, y: int, len: int, c: Color): FillRequest
  {
    FillRequest(layer, PixelAddress(l, x, y), 1, len, U32(l.imageWidth - 1), c, l.pixelFormat)
  }

  /** LCD_FillRect: Width pixels per row for Height rows, skipping XSize - Width
      pixels between rows (a `uint32_t` difference). */
  function RectRequest(l: Layer, layer: nat, x: int, y: int, w: int, h: int, c: Color): FillRequest
  {
    FillRequest(layer, PixelAddress(l, x, y), w, h, U32(l.imageWidth - w), c, l.pixelFormat)
  }

  /** LCD_Clear: the whole layer from its frame buffer start. */
  function ClearRequest(l: Layer, layer: nat, c: Color): FillRequest
  {
    FillRequest(layer, l.fbStart, l.imageWidth, l.imageHeight, 0, c, l.pixelFormat)
  }

  /** The four requests of LCD_DrawRect: top and bottom rows, then left and right
      columns; the bottom row and the right column are placed at `uint16_t`
      sums. */
  function RectOutline(l: Layer, layer: nat, x: int, y: int, w: int, h: int, c: Color): seq<FillRequest>
  {
    [HLineRequest(l, layer, x, y, w, c), HLineRequest(l, layer, x, U16(y + h), w, c),
     VLineRequest(l, layer, x, y, h, c), VLineRequest(l, layer, U16(x + w), y, h, c)]
  }

  // ---------------------------------------------------------------------------
  // What the requests cover

  /** A filled rectangle no wider than the layer writes exactly its own pixels:
      row r, column c of the request is pixel (x + c, y + r). */
  lemma RectCells(l: Layer, layer: nat, x: int, y: int, w: int, h: int, c: Color, r: int, k: int)
    requires 0 <= w <= l.imageWidth < Two32
    ensures var q := RectRequest(l, layer, x, y, w, h, c);
            q.xSize == w && q.ySize == h && q.color == c &&
            FillCell(q, r, k) == PixelAddress(l, x + k, y + r)
  {
    var q := RectRequest(l, layer, x, y, w, h, c);
    assert q.xSize + q.offLine == l.imageWidth;
    assert l.imageWidth * y + x + (r * l.imageWidth + k) == l.imageWidth * (y + r) + (x + k);
  }

  /** A horizontal line request writes pixels (x + k, y) for k < Length. */
  lemma HLineCells(l: Layer, layer: nat, x: int, y: int, len: int, c: Color, k: int)
    ensures var q := HLineRequest(l, layer, x, y, len, c);
            q.xSize == len && q.ySize == 1 && q.color == c &&
            FillCell(q, 0, k) == PixelAddress(l, x + k, y)
  {
  }

  /** On a layer at least one pixel wide a vertical line request writes pixels
      (x, y + r) for r < Length. */
  lemma VLineCells(l: Layer, layer: nat, x: int, y: int, len: int, c: Color, r: int)
    requires 1 <= l.imageWidth < Two32
    ensures var q := VLineRequest(l, layer, x, y, len, c);
            q.xSize == 1 && q.ySize == len && q.color == c &&
            FillCell(q, r, 0) == PixelAddress(l, x, y + r)
  {
    var q := VLineRequest(l, layer, x, y, len, c);
    assert q.xSize + q.offLine == l.imageWidth;
    assert l.imageWidth * y + x + r * l.imageWidth == l.imageWidth * (y + r) + x;
  }

  /** Clearing writes every pixel (k, r) of the layer. */
  lemma ClearCells(l: Layer, layer: nat, c: Color, r: int, k: int)
    ensures var q := ClearRequest(l, layer, c);
            q.xSize == l.imageWidth && q.ySize == l.imageHeight && q.color == c &&
            FillCell(q, r, k) == PixelAddress(l, k, r)
  {
    assert l.imageWidth * r + k == r * l.imageWidth + k;
  }

  /** On a layer whose rows are wider than the pixel coordinates involved, two
      pixels share an address only when they are the same pixel. */
  lemma PixelAddressInjective(l: Layer, x: int, y: int, x': int, y': int)
    requires 0 <= x < l.imageWidth && 0 <= x' < l.imageWidth
    requires PixelAddress(l, x, y) == PixelAddress(l, x', y')
    ensures x == x' && y == y'
  {
    var n := WriteBytes(l.pixelFormat);
    assert n * (l.imageWidth * y + x) == n * (l.imageWidth * y' + x');
    assert l.imageWidth * y + x == l.imageWidth * y' + x';
    assert l.imageWidth * (y - y') == x' - x;
    if y > y' {
      MulAtLeast(y - y', l.imageWidth);
    } else if y < y' {
      MulAtLeast(y' - y, l.imageWidth);
    }
  }


  /** LCD_DrawRect's outline covers the top and bottom rows from x to x + w - 1
      and the left and right columns from y to y + h - 1, so the corners (x, y),
      (x + w, y) and (x, y + h) are drawn; with everything inside the layer the
      fourth corner (x + w, y + h) is covered by none of the four requests. */
  lemma RectOutlineCells(l: Layer, layer: nat, x: int, y: int, w: int, h: int, c: Color, k: nat)
    requires 0 <= x && 0 <= y && 0 <= w && 0 <= h && x + w < Two16 && y + h < Two16
    requires 1 <= l.imageWidth < Two32
    ensures var o := RectOutline(l, layer, x, y, w, h, c);
            (k < w ==> FillCell(o[0], 0, k) == PixelAddress(l, x + k, y) &&
                       FillCell(o[1], 0, k) == PixelAddress(l, x + k, y + h)) &&
            (k < h ==> FillCell(o[2], k, 0) == PixelAddress(l, x, y + k) &&
                       FillCell(o[3], k, 0) == PixelAddress(l, x + w, y + k))
  {
    HLineCells(l, layer, x, y, w, c, k);
    HLineCells(l, layer, x, y + h, w, c, k);
    VLineCells(l, layer, x, y, h, c, k);
    VLineCells(l, layer, x + w, y, h, c, k);
  }

  // RowPixel, ColumnPixel and RectPixel name PixelAddress at an offset so that
  // the quantifiers of CoversHLine, CoversVLine and CoversRect have a term
  // without arithmetic on the bound variable to trigger on.

  /** Pixel k of the row starting at (x, y). */
  function RowPixel(l: Layer, x: int, y: int, k: int): int
  {
    PixelAddress(l, x + k, y)
  }

  /** Pixel r of the column starting at (x, y). */
  function ColumnPixel(l: Layer, x: int, y: int, r: int): int
  {
    PixelAddress(l, x, y + r)
  }

  /** Pixel (k, r) of the rectangle whose top-left corner is (x, y). */
  function RectPixel(l: Layer, x: int, y: int, r: int, k: int): int
  {
    PixelAddress(l, x + k, y + r)
  }

  /** A horizontal request from (x, y) of length len covers exactly the pixels
      (x + k, y) for k < len. */
  lemma CoversHLine(l: Layer, layer: nat, x: int, y: int, len: int, c: Color, a: int)
    ensures Covers(HLineRequest(l, layer, x, y, len, c), a) <==>
            exists k :: 0 <= k < len && a == RowPixel(l, x, y, k)
  {
    var q := HLineRequest(l, layer, x, y, len, c);
    if Covers(q, a) {
      var r, k :| 0 <= r < q.ySize && 0 <= k < q.xSize && FillCell(q, r, k) == a;
      HLineCells(l, layer, x, y, len, c, k);
      assert a == RowPixel(l, x, y, k);
    }
    if exists k :: 0 <= k < len && a == RowPixel(l, x, y, k) {
      var k :| 0 <= k < len && a == RowPixel(l, x, y, k);
      HLineCells(l, layer, x, y, len, c, k);
      assert FillCell(q, 0, k) == a;
    }
  }

  /** A vertical request from (x, y) of length len covers exactly the pixels
      (x, y + r) for r < len. */
  lemma CoversVLine(l: Layer, layer: nat, x: int, y: int, len: int, c: Color, a: int)
    requires 1 <= l.imageWidth < Two32
    ensures Covers(VLineRequest(l, layer, x, y, len, c), a) <==>
            exists r :: 0 <= r < len && a == ColumnPixel(l, x, y, r)
  {
    var q := VLineRequest(l, layer, x, y, len, c);
    if Covers(q, a) {
      var r, k :| 0 <= r < q.ySize && 0 <= k < q.xSize && FillCell(q, r, k) == a;
      VLineCells(l, layer, x, y, len, c, r);
      assert a == ColumnPixel(l, x, y, r);
    }
    if exists r :: 0 <= r < len && a == ColumnPixel(l, x, y, r) {
      var r :| 0 <= r < len && a == ColumnPixel(l, x, y, r);
      VLineCells(l, layer, x, y, len, c, r);
      assert FillCell(q, r, 0) == a;
    }
  }

  /** A filled rectangle no wider than the layer covers exactly the pixels
      (x + k, y + r) for k < w and r < h. */
  lemma CoversRect(l: Layer, layer: nat, x: int, y: int, w: int, h: int, c: Color, a: int)
    requires 0 <= w <= l.imageWidth < Two32
    ensures Covers(RectRequest(l, layer, x, y, w, h, c), a) <==>
            exists r, k :: 0 <= r < h && 0 <= k < w && a == RectPixel(l, x, y, r, k)
  {
    var q := RectRequest(l, layer, x, y, w, h, c);
    if Covers(q, a) {
      var r, k :| 0 <= r < q.ySize && 0 <= k < q.xSize && FillCell(q, r, k) == a;
      RectCells(l, layer, x, y, w, h, c, r, k);
      assert a == RectPixel(l, x, y, r, k);
    }
    if exists r, k :: 0 <= r < h && 0 <= k < w && a == RectPixel(l, x, y, r, k) {
      var r, k :| 0 <= r < h && 0 <= k < w && a == RectPixel(l, x, y, r, k);
      RectCells(l, layer, x, y, w, h, c, r, k);
      assert FillCell(q, r, k) == a;
    }
  }

  /** With the rectangle inside the layer, the corner (x + w, y + h) is covered
      by none of LCD_DrawRect's four requests. */
  lemma RectOutlineMissesCorner(l: Layer, layer: nat, x: int, y: int, w: int, h: int, c: Color)
    requires 0 <= x && 0 <= y && 0 <= w && 0 <= h && x + w < Two16 && y + h < Two16
    requires x + w < l.imageWidth < Two32
    ensures var o := RectOutline(l, layer, x, y, w, h, c);
            var corner := PixelAddress(l, x + w, y + h);
            !Covers(o[0], corner) && !Covers(o[1], corner) && !Covers(o[2], corner) && !Covers(o[3], corner)
  {
    RowMisses(l, layer, x, y, w, c, x + w, y + h);
    RowMisses(l, layer, x, y + h, w, c, x + w, y + h);
    ColumnMisses(l, layer, x, y, h, c, x + w, y + h);
    ColumnMisses(l, layer, x + w, y, h, c, x + w, y + h);
  }

  /** A horizontal request inside the layer's row misses every pixel off its run. */
  lemma RowMisses(l: Layer, layer: nat, x: int, y: int, len: int, c: Color, px: int, py: int)
    requires 0 <= x && x + len <= l.imageWidth && 0 <= px < l.imageWidth
    requires py != y || !(x <= px < x + len)
    ensures !Covers(HLineRequest(l, layer, x, y, len, c), PixelAddress(l, px, py))
  {
    CoversHLine(l, layer, x, y, len, c, PixelAddress(l, px, py));
    forall k | 0 <= k < len ensures PixelAddress(l, px, py) != RowPixel(l, x, y, k) {
      NotSamePixel(l, px, py, x + k, y);
    }
  }

  /** A vertical request inside the layer misses every pixel off its run. */
  lemma ColumnMisses(l: Layer, layer: nat, x: int, y: int, len: int, c: Color, px: int, py: int)
    requires 0 <= x < l.imageWidth < Two32 && 0 <= px < l.imageWidth
    requires px != x || !(y <= py < y + len)
    ensures !Covers(VLineRequest(l, layer, x, y, len, c), PixelAddress(l, px, py))
  {
    CoversVLine(l, layer, x, y, len, c, PixelAddress(l, px, py));
    forall r | 0 <= r < len ensures PixelAddress(l, px, py) != ColumnPixel(l, x, y, r) {
      NotSamePixel(l, px, py, x, y + r);
    }
  }

  /** Distinct pixels of a row-major layer have distinct addresses. */
  lemma NotSamePixel(l: Layer, x: int, y: int, x': int, y': int)
    requires 0 <= x < l.imageWidth && 0 <= x' < l.imageWidth && (x != x' || y != y')
    ensures PixelAddress(l, x, y) != PixelAddress(l, x', y')
  {
    if PixelAddress(l, x, y) == PixelAddress(l, x', y') {
      PixelAddressInjective(l, x, y, x', y');
    }
  }
}
