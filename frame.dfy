/** The surfaces the drawing code writes to, and what a sequence of writes
    does to memory.

    Two addressing schemes exist side by side, as in the source:
    - a display layer (`Layer`, the controller's per-layer configuration read
      through the active layer), addressed by `PixelAddress`;
    - the projection layer of view (`FastView`: a base address taken from a
      separate table, the display width and the window size), addressed by
      `FastAddress`, used by the rasterisers' fast path. */
module Frame {
  import opened Bytes

  datatype Point = Point(x: int, y: int)

  /** The controller's pixel formats (LTDC_PIXEL_FORMAT_*). */
  datatype PixelFormat = ARGB8888 | RGB888 | RGB565 | ARGB1555 | ARGB4444 | L8 | AL44 | AL88

  /** Per-layer geometry read by the drawing code: ImageWidth, ImageHeight,
      PixelFormat and FBStartAdress. */
  datatype Layer = Layer(imageWidth: int, imageHeight: int, pixelFormat: PixelFormat, fbStart: int)

  /** Bytes per pixel the writers assume: 2 for RGB565, 4 for every other format. */
  function WriteBytes(f: PixelFormat): (n: nat)
    ensures n == 2 || n == 4
    ensures n == 2 <==> f == RGB565
  {
    if f == RGB565 then 2 else 4
  }

  /** Byte address of pixel (x, y) of a layer, as LCD_DrawPixel, LCD_DrawHLine,
      LCD_DrawVLine and LCD_FillRect compute it. */
  function PixelAddress(l: Layer, x: int, y: int): int
  {
    l.fbStart + WriteBytes(l.pixelFormat) * (l.imageWidth * y + x)
  }

  /** The fast path's view: ProjectionLayerAddress[LayerOfView], DisplayWIDTH, LAYERS_SIZE. */
  datatype FastView = FastView(base: int, displayWidth: nat, layersSize: nat)

  /** Address Fast_LCD_DrawPixel writes for a point; its parameters are `uint16_t`. */
  function FastAddress(v: FastView, p: Point): int
  {
    v.base + 4 * (U16(p.y) * v.displayWidth + U16(p.x))
  }

  /** The window check of Fast_LCD_DrawPixel. */
  predicate InWindow(v: FastView, a: int)
  {
    v.base <= a < v.base + v.layersSize
  }

  /** Address DrawFastLineVertical writes for row y of column x (no window check). */
  function ColumnAddress(v: FastView, x: int, y: int): int
  {
    v.base + 4 * (y * v.displayWidth + x)
  }

  /** Byte i lies in the word at address a. */
  predicate Hits(a: int, i: int)
  {
    a <= i < a + 4
  }

  /** One fast pixel write: a 32-bit store when the address lies in the window, nothing otherwise. */
  function FastPlot(m: seq<Byte>, v: FastView, p: Point, c: Color): (r: seq<Byte>)
    ensures |r| == |m|
  {
    var a := FastAddress(v, p);
    if InWindow(v, a) then Store(m, a, c, 4) else m
  }

  /** Fast pixel writes of all points, in order, in one colour. */
  function FastPlotAll(m: seq<Byte>, v: FastView, pts: seq<Point>, c: Color): (r: seq<Byte>)
    ensures |r| == |m|
    decreases |pts|
  {
    if pts == [] then m
    else FastPlot(FastPlotAll(m, v, pts[..|pts| - 1], c), v, pts[|pts| - 1], c)
  }

  /** Unchecked 32-bit stores of rows lo..hi of column x, in increasing row order. */
  function ColumnFill(m: seq<Byte>, v: FastView, x: int, lo: int, hi: int, c: Color): (r: seq<Byte>)
    ensures |r| == |m|
    decreases hi - lo
  {
    if hi < lo then m
    else Store(ColumnFill(m, v, x, lo, hi - 1, c), ColumnAddress(v, x, hi), c, 4)
  }

  /** One LCD_DrawPixel store: 16 bits for RGB565 (the colour truncated), 32 bits otherwise. */
  function LayerPlot(m: seq<Byte>, l: Layer, x: int, y: int, c: Color): (r: seq<Byte>)
    ensures |r| == |m|
  {
    Store(m, PixelAddress(l, x, y), c, WriteBytes(l.pixelFormat))
  }

  /** A pixel write with its own colour. */
  datatype PixelWrite = PixelWrite(x: int, y: int, color: Color)

  function LayerPlotAll(m: seq<Byte>, l: Layer, ws: seq<PixelWrite>): (r: seq<Byte>)
    ensures |r| == |m|
    decreases |ws|
  {
    if ws == [] then m
    else
      var w := ws[|ws| - 1];
      LayerPlot(LayerPlotAll(m, l, ws[..|ws| - 1]), l, w.x, w.y, w.color)
  }

  // ---------------------------------------------------------------------------
  // Composition

  lemma {:induction false} FastPlotAllAppend(m: seq<Byte>, v: FastView, a: seq<Point>, b: seq<Point>, c: Color)
    ensures FastPlotAll(m, v, a + b, c) == FastPlotAll(FastPlotAll(m, v, a, c), v, b, c)
    decreases |b|
  {
    if b == [] {
      assert a + b == a;
    } else {
      var b' := b[..|b| - 1];
      assert (a + b)[..|a + b| - 1] == a + b';
      assert (a + b)[|a + b| - 1] == b[|b| - 1];
      FastPlotAllAppend(m, v, a, b', c);
    }
  }

  lemma {:induction false} LayerPlotAllAppend(m: seq<Byte>, l: Layer, a: seq<PixelWrite>, b: seq<PixelWrite>)
    ensures LayerPlotAll(m, l, a + b) == LayerPlotAll(LayerPlotAll(m, l, a), l, b)
    decreases |b|
  {
    if b == [] {
      assert a + b == a;
    } else {
      var b' := b[..|b| - 1];
      assert (a + b)[..|a + b| - 1] == a + b';
      assert (a + b)[|a + b| - 1] == b[|b| - 1];
      LayerPlotAllAppend(m, l, a, b');
    }
  }

  /** One more point of a trace is one more fast write. */
  lemma FastPlotAllPrefix(m: seq<Byte>, v: FastView, pts: seq<Point>, k: nat, c: Color)
    requires k < |pts|
    ensures FastPlotAll(m, v, pts[..k + 1], c) == FastPlot(FastPlotAll(m, v, pts[..k], c), v, pts[k], c)
  {
    assert pts[..k + 1][..k] == pts[..k];
  }

  /** Eight fast writes, one after another. */
  lemma FastPlotAllEight(m: seq<Byte>, v: FastView, w: seq<Point>, c: Color)
    requires |w| == 8
    ensures FastPlotAll(m, v, w, c) ==
            FastPlot(FastPlot(FastPlot(FastPlot(FastPlot(FastPlot(FastPlot(FastPlot(m, v, w[0], c),
              v, w[1], c), v, w[2], c), v, w[3], c), v, w[4], c), v, w[5], c), v, w[6], c), v, w[7], c)
  {
    assert w[..1][..0] == [];
    FastPlotAllPrefix(m, v, w, 0, c);
    FastPlotAllPrefix(m, v, w, 1, c);
    FastPlotAllPrefix(m, v, w, 2, c);
    FastPlotAllPrefix(m, v, w, 3, c);
    FastPlotAllPrefix(m, v, w, 4, c);
    FastPlotAllPrefix(m, v, w, 5, c);
    FastPlotAllPrefix(m, v, w, 6, c);
    FastPlotAllPrefix(m, v, w, 7, c);
    assert w[..8] == w;
  }

  /** One more write of a list is one more layer write. */
  lemma LayerPlotAllPrefix(m: seq<Byte>, l: Layer, ws: seq<PixelWrite>, k: nat)
    requires k < |ws|
    ensures LayerPlotAll(m, l, ws[..k + 1]) == LayerPlot(LayerPlotAll(m, l, ws[..k]), l, ws[k].x, ws[k].y, ws[k].color)
  {
    assert ws[..k + 1][..k] == ws[..k];
  }

  // ---------------------------------------------------------------------------
  // What the writes leave in memory

  /** Any two fast addresses are either equal or whole words apart. */
  lemma FastByteOffset(v: FastView, p: Point, i: int)
    requires Hits(FastAddress(v, p), i)
    ensures i - FastAddress(v, p) == (i - v.base) % 4
  {
    var t := U16(p.y) * v.displayWidth + U16(p.x);
    assert i - v.base == 4 * t + (i - FastAddress(v, p));
  }

  /** Byte i after the fast writes of `pts`: the colour's byte when some point in
      the window covers it, the old byte otherwise. */
  lemma {:induction false} FastPlotAllBytes(m: seq<Byte>, v: FastView, pts: seq<Point>, c: Color, i: int)
    requires 0 <= i < |m|
    ensures FastPlotAll(m, v, pts, c)[i] ==
      if exists k :: 0 <= k < |pts| && InWindow(v, FastAddress(v, pts[k])) && Hits(FastAddress(v, pts[k]), i)
      then ByteOf(c, (i - v.base) % 4) else m[i]
    decreases |pts|
  {
    if pts != [] {
      var init := pts[..|pts| - 1];
      var p := pts[|pts| - 1];
      FastPlotAllBytes(m, v, init, c, i);
      var a := FastAddress(v, p);
      if InWindow(v, a) && Hits(a, i) {
        FastByteOffset(v, p, i);
      } else {
        if exists k :: 0 <= k < |pts| && InWindow(v, FastAddress(v, pts[k])) && Hits(FastAddress(v, pts[k]), i) {
          var k :| 0 <= k < |pts| && InWindow(v, FastAddress(v, pts[k])) && Hits(FastAddress(v, pts[k]), i);
          assert k < |pts| - 1 && init[k] == pts[k];
        }
        forall k | 0 <= k < |init| ensures init[k] == pts[k] { }
      }
    }
  }

  /** Every drawn point inside the window and inside memory holds the colour. */
  lemma FastPlotAllWord(m: seq<Byte>, v: FastView, pts: seq<Point>, c: Color, k: int)
    requires 0 <= k < |pts|
    requires InWindow(v, FastAddress(v, pts[k]))
    requires 0 <= FastAddress(v, pts[k]) && FastAddress(v, pts[k]) + 4 <= |m|
    ensures Load32(FastPlotAll(m, v, pts, c), FastAddress(v, pts[k])) == c
  {
    var a := FastAddress(v, pts[k]);
    var r := FastPlotAll(m, v, pts, c);
    forall j | 0 <= j < 4 ensures r[a + j] == ByteOf(c, j) {
      FastPlotAllBytes(m, v, pts, c, a + j);
      FastByteOffset(v, pts[k], a + j);
    }
    Load32Bytes(r, a, c);
  }

  /** A byte that no drawn point's in-window word covers keeps its value. */
  lemma FastPlotAllFrame(m: seq<Byte>, v: FastView, pts: seq<Point>, c: Color, i: int)
    requires 0 <= i < |m|
    requires forall k :: 0 <= k < |pts| && InWindow(v, FastAddress(v, pts[k])) ==> !Hits(FastAddress(v, pts[k]), i)
    ensures FastPlotAll(m, v, pts, c)[i] == m[i]
  {
    FastPlotAllBytes(m, v, pts, c, i);
  }

  /** Rows of one column are whole, disjoint words when the display width is positive. */
  lemma ColumnWordsDisjoint(v: FastView, x: int, y: int, y': int)
    requires v.displayWidth > 0 && y < y'
    ensures ColumnAddress(v, x, y) + 4 <= ColumnAddress(v, x, y')
  {
    assert ColumnAddress(v, x, y') - ColumnAddress(v, x, y) == 4 * (y' - y) * v.displayWidth;
    assert (y' - y) * v.displayWidth >= 1;
  }

  /** Byte i after an unchecked column fill: the colour's byte when some row's word
      covers it, the old byte otherwise. */
  lemma {:induction false} ColumnFillBytes(m: seq<Byte>, v: FastView, x: int, lo: int, hi: int, c: Color, i: int)
    requires 0 <= i < |m|
    ensures ColumnFill(m, v, x, lo, hi, c)[i] ==
      if exists y :: lo <= y <= hi && Hits(ColumnAddress(v, x, y), i)
      then ByteOf(c, (i - v.base) % 4) else m[i]
    decreases hi - lo
  {
    if lo <= hi {
      ColumnFillBytes(m, v, x, lo, hi - 1, c, i);
      var a := ColumnAddress(v, x, hi);
      var t := hi * v.displayWidth + x;
      assert a == v.base + 4 * t;
      if Hits(a, i) {
        assert i - v.base == 4 * t + (i - a);
      } else if exists y :: lo <= y <= hi && Hits(ColumnAddress(v, x, y), i) {
        var y :| lo <= y <= hi && Hits(ColumnAddress(v, x, y), i);
        assert y <= hi - 1;
      }
    }
  }

  /** Every row of the column that lies in memory holds the colour, whether or not
      it lies in the window. */
  lemma ColumnFillWord(m: seq<Byte>, v: FastView, x: int, lo: int, hi: int, c: Color, y: int)
    requires lo <= y <= hi
    requires 0 <= ColumnAddress(v, x, y) && ColumnAddress(v, x, y) + 4 <= |m|
    ensures Load32(ColumnFill(m, v, x, lo, hi, c), ColumnAddress(v, x, y)) == c
  {
    var a := ColumnAddress(v, x, y);
    var r := ColumnFill(m, v, x, lo, hi, c);
    forall j | 0 <= j < 4 ensures r[a + j] == ByteOf(c, j) {
      ColumnFillBytes(m, v, x, lo, hi, c, a + j);
      assert Hits(ColumnAddress(v, x, y), a + j);
      WordOffset(v.base, y * v.displayWidth + x, j);
    }
    Load32Bytes(r, a, c);
  }

  /** Byte j of a word at base + 4 * t lies j bytes past a multiple of 4 from base. */
  lemma WordOffset(base: int, t: int, j: int)
    requires 0 <= j < 4
    ensures (base + 4 * t + j - base) % 4 == j
  {
    assert base + 4 * t + j - base == 4 * t + j;
    assert (4 * t + j) % 4 == j;
  }
}
