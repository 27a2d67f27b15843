/** The LCD driver's state and its operations.

    The driver keeps, per layer, the controller's geometry (ImageWidth,
    ImageHeight, PixelFormat, FBStartAdress), a drawing record (text colour,
    background colour, font) and two separate layer selectors: ActiveLayer,
    used by almost everything, and LayerIndex, used only by LCD_InitParams and
    LCD_SetColorPixel. Drawing writes into one byte-addressed memory holding the
    frame buffers. The accelerated fill and the line conversion are not applied
    to memory: each call is recorded, in order, in `fills` and `conversions`. */
module Driver {
  import opened Bytes
  import opened Frame
  import Lines
  import Circles
  import Polygons
  import opened Fills
  import opened Glyphs
  import Bitmaps
  import Pixels

  /** MAX_LAYER_NUMBER: the controller has two layers. */
  const MaxLayers: nat := 2

  const ColorWhite: Color := 0xFFFF_FFFF
  const ColorBlack: Color := 0xFF00_0000

  /** A `uint16_t` value. */
  type Word16 = x: int | 0 <= x < 0x1_0000

  /** LCD_DrawPropTypeDef: TextColor, BackColor and pFont (None for a null pointer). */
  datatype DrawProp = DrawProp(textColor: Color, backColor: Color, font: Option<Font>)

  /** A layer configuration whose fields fit their `uint32_t` registers. */
  predicate LayerInRange(l: Layer)
  {
    0 <= l.imageWidth < Two32 && 0 <= l.imageHeight < Two32 && 0 <= l.fbStart < Two32
  }

  /** Polygon points whose coordinates lie in [0, 0x4000): they pass unchanged
      through the `int16_t` Point fields and `uint16_t` parameters, and every
      line walk between them fits the `int16_t` locals (Lines.SmallFitsInt16). */
  predicate PointsInRange(pts: seq<Point>)
  {
    forall k :: 0 <= k < |pts| ==> 0 <= pts[k].x < 0x4000 && 0 <= pts[k].y < 0x4000
  }

  class Lcd {
    /** The memory holding the frame buffers, by byte address. */
    const mem: array<Byte>
    /** ProjectionLayerAddress[] and LayerOfView, DisplayWIDTH and LAYERS_SIZE of the fast path. */
    const projection: seq<int>
    const layerOfView: int
    const displayWidth: nat
    const layersSize: nat

    /** hLtdcHandler.LayerCfg[].{ImageWidth, ImageHeight, PixelFormat, FBStartAdress} */
    var layers: seq<Layer>
    var drawProp: seq<DrawProp>
    var activeLayer: int
    var layerIndex: int
    /** The LL_FillBuffer and LL_ConvertLineToARGB8888 calls made so far. */
    var fills: seq<FillRequest>
    var conversions: seq<Bitmaps.ConvertRequest>

    ghost predicate Valid()
      reads this
    {
      |layers| == MaxLayers && |drawProp| == MaxLayers &&
      (forall i :: 0 <= i < MaxLayers ==> LayerInRange(layers[i])) &&
      0 <= activeLayer < MaxLayers && 0 <= layerIndex < MaxLayers &&
      0 <= layerOfView < |projection|
    }

    /** The driver's statically initialised state: both selectors 0, the drawing
        records zero. */
    constructor (mem: array<Byte>, layers: seq<Layer>, projection: seq<int>, layerOfView: int,
                 displayWidth: nat, layersSize: nat)
      requires |layers| == MaxLayers && forall i :: 0 <= i < MaxLayers ==> LayerInRange(layers[i])
      requires 0 <= layerOfView < |projection|
      ensures Valid()
      ensures this.mem == mem && this.layers == layers && this.projection == projection
      ensures this.layerOfView == layerOfView && this.displayWidth == displayWidth && this.layersSize == layersSize
      ensures drawProp == [DrawProp(0, 0, None), DrawProp(0, 0, None)]
      ensures activeLayer == 0 && layerIndex == 0 && fills == [] && conversions == []
    {
      this.mem := mem;
      this.layers := layers;
      this.projection := projection;
      this.layerOfView := layerOfView;
      this.displayWidth := displayWidth;
      this.layersSize := layersSize;
      drawProp := [DrawProp(0, 0, None), DrawProp(0, 0, None)];
      activeLayer := 0;
      layerIndex := 0;
      fills := [];
      conversions := [];
    }

    // -------------------------------------------------------------------------
    // Draw state

    function Active(): Layer
      reads this
      requires Valid()
    {
      layers[activeLayer]
    }

    /** The fast path's surface: ProjectionLayerAddress[LayerOfView], DisplayWIDTH, LAYERS_SIZE. */
    function View(): FastView
      requires 0 <= layerOfView < |projection|
    {
      FastView(projection[layerOfView], displayWidth, layersSize)
    }

    function GetXSize(): int
      reads this
      requires Valid()
    {
      layers[activeLayer].imageWidth
    }

    function GetYSize(): int
      reads this
      requires Valid()
    {
      layers[activeLayer].imageHeight
    }

    function GetTextColor(): Color
      reads this
      requires Valid()
    {
      drawProp[activeLayer].textColor
    }

    function GetBackColor(): Color
      reads this
      requires Valid()
    {
      drawProp[activeLayer].backColor
    }

    function GetFont(): Option<Font>
      reads this
      requires Valid()
    {
      drawProp[activeLayer].font
    }

    method SetXSize(w: Color)
      requires Valid()
      modifies this`layers
      ensures Valid()
      ensures layers == old(layers)[activeLayer := old(layers[activeLayer]).(imageWidth := w)]
      ensures GetXSize() == w
    {
      layers := layers[activeLayer := layers[activeLayer].(imageWidth := w)];
    }

    method SetYSize(h: Color)
      requires Valid()
      modifies this`layers
      ensures Valid()
      ensures layers == old(layers)[activeLayer := old(layers[activeLayer]).(imageHeight := h)]
      ensures GetYSize() == h
    {
      layers := layers[activeLayer := layers[activeLayer].(imageHeight := h)];
    }

    /** LCD_SelectLayer stores its argument unchecked; an index past the last
        layer would make every later access out of bounds, so it is required here. */
    method SelectLayer(index: int)
      requires Valid() && 0 <= index < MaxLayers
      modifies this`activeLayer
      ensures Valid() && activeLayer == index
    {
      activeLayer := index;
    }

    method SetTextColor(c: Color)
      requires Valid()
      modifies this`drawProp
      ensures Valid()
      ensures drawProp == old(drawProp)[activeLayer := old(drawProp[activeLayer]).(textColor := c)]
      ensures GetTextColor() == c && GetBackColor() == old(GetBackColor()) && GetFont() == old(GetFont())
    {
      drawProp := drawProp[activeLayer := drawProp[activeLayer].(textColor := c)];
    }

    method SetBackColor(c: Color)
      requires Valid()
      modifies this`drawProp
      ensures Valid()
      ensures drawProp == old(drawProp)[activeLayer := old(drawProp[activeLayer]).(backColor := c)]
      ensures GetBackColor() == c && GetTextColor() == old(GetTextColor()) && GetFont() == old(GetFont())
    {
      drawProp := drawProp[activeLayer := drawProp[activeLayer].(backColor := c)];
    }

    method SetFont(f: Option<Font>)
      requires Valid()
      modifies this`drawProp
      ensures Valid()
      ensures drawProp == old(drawProp)[activeLayer := old(drawProp[activeLayer]).(font := f)]
      ensures GetFont() == f && GetTextColor() == old(GetTextColor()) && GetBackColor() == old(GetBackColor())
    {
      drawProp := drawProp[activeLayer := drawProp[activeLayer].(font := f)];
    }

    /** LCD_InitParams: selects LayerIndex (not ActiveLayer) and sets that
        layer's drawing record. The index is unchecked in the source. */
    method InitParams(index: int, back: Color, text: Color, font: Option<Font>)
      requires Valid() && 0 <= index < MaxLayers
      modifies this`layerIndex, this`drawProp
      ensures Valid() && layerIndex == index
      ensures drawProp == old(drawProp)[index := DrawProp(text, back, font)]
    {
      layerIndex := index;
      drawProp := drawProp[layerIndex := DrawProp(text, back, font)];
    }

    /** LCD_SetColorPixel: the text colour of the layer LayerIndex selects, which
        need not be the active one. */
    method SetColorPixel(c: Color)
      requires Valid()
      modifies this`drawProp
      ensures Valid()
      ensures drawProp == old(drawProp)[layerIndex := old(drawProp[layerIndex]).(textColor := c)]
    {
      drawProp := drawProp[layerIndex := drawProp[layerIndex].(textColor := c)];
    }

    /** The drawing-record part of LCD_LayerDefaultInit and LCD_LayerRgb565Init:
        black text on white with Font24, for the layer given as argument (a
        parameter that shadows the LayerIndex selector, which stays as it is).
        The layer configuration handed to the controller is not modelled. */
    method LayerInit(index: int, font24: Font)
      requires Valid() && 0 <= index < MaxLayers
      modifies this`drawProp
      ensures Valid()
      ensures drawProp == old(drawProp)[index := DrawProp(ColorBlack, ColorWhite, Some(font24))]
    {
      drawProp := drawProp[index := DrawProp(ColorBlack, ColorWhite, Some(font24))];
    }

    // -------------------------------------------------------------------------
    // Pixel writers

    /** One store of the low n bytes of v at address a (a `uint32_t` or
        `uint16_t` write through a pointer). */
    method Write(a: int, v: Color, n: nat)
      requires n == 2 || n == 4
      modifies mem
      ensures mem[..] == Store(old(mem[..]), a, v, n)
    {
      ghost var m0 := mem[..];
      if 0 <= a < mem.Length { mem[a] := ByteOf(v, 0); }
      if 0 <= a + 1 < mem.Length { mem[a + 1] := ByteOf(v, 1); }
      if n == 4 {
        if 0 <= a + 2 < mem.Length { mem[a + 2] := ByteOf(v, 2); }
        if 0 <= a + 3 < mem.Length { mem[a + 3] := ByteOf(v, 3); }
      }
      assert forall i :: 0 <= i < mem.Length ==> mem[..][i] == Store(m0, a, v, n)[i];
    }

    /** LCD_ReadPixel, as written (see Pixels.ReadPixel). */
    function ReadPixel(x: Word16, y: Word16): (r: int)
      reads this, mem
      requires Valid()
      requires 0 <= Pixels.ReadAddress(Active(), x, y)
      requires Pixels.ReadAddress(Active(), x, y) + Pixels.ReadBytes(Active().pixelFormat) <= mem.Length
      ensures 0 <= r < Two32
      ensures Active().pixelFormat == RGB565 ==> r == Pixels.ReadPixelAtWrite(mem[..], Active(), x, y)
    {
      Pixels.ReadPixel(mem[..], Active(), x, y)
    }

    /** LCD_DrawPixel: a 16-bit store for RGB565 layers, a 32-bit one otherwise,
        at the pixel's address in the active layer. */
    method DrawPixel(x: Word16, y: Word16, c: Color)
      requires Valid()
      modifies mem
      ensures mem[..] == LayerPlot(old(mem[..]), Active(), x, y, c)
    {
      var l := layers[activeLayer];
      assert y * l.imageWidth == l.imageWidth * y;
      if l.pixelFormat == RGB565 {
        var a := l.fbStart + 2 * (y * l.imageWidth + x);
        assert a == PixelAddress(l, x, y);
        Write(a, c, 2);
      } else {
        var a := l.fbStart + 4 * (y * l.imageWidth + x);
        assert a == PixelAddress(l, x, y);
        Write(a, c, 4);
      }
    }

    /** Fast_LCD_DrawPixel: a 32-bit store at the fast address when it lies in
        [base, base + LAYERS_SIZE), nothing otherwise. */
    method FastDrawPixel(x: Word16, y: Word16, c: Color)
      requires Valid()
      modifies mem
      ensures mem[..] == FastPlot(old(mem[..]), View(), Point(x, y), c)
    {
      var base := projection[layerOfView];
      var address := base + 4 * (y * displayWidth + x);
      if address > base - 1 {
        if address < base + layersSize {
          Write(address, c, 4);
        }
      }
    }

    /** DrawFastLineVertical: the text colour stored, without any window check,
        in rows min(y1, y2) to max(y1, y2) of column x1, top row first. */
    method DrawFastLineVertical(x1: Word16, y1: Word16, y2: Word16)
      requires Valid()
      modifies mem
      ensures mem[..] == ColumnFill(old(mem[..]), View(), x1, Min(y1, y2), Max(y1, y2), GetTextColor())
    {
      var lo, hi := y1, y2;
      if lo > hi {
        lo, hi := hi, lo;
      }
      var c := drawProp[activeLayer].textColor;
      ghost var m0 := mem[..];
      var y: int := lo;
      while y < hi
        invariant lo <= y <= hi
        invariant mem[..] == ColumnFill(m0, View(), x1, lo, y - 1, c)
      {
        // base + 4 * y * DisplayWIDTH + 4 * x1
        Write(ColumnAddress(View(), x1, y), c, 4);
        y := y + 1;
      }
      Write(ColumnAddress(View(), x1, hi), c, 4);
    }

    // -------------------------------------------------------------------------
    // Accelerated fills and conversions

    /** LL_FillBuffer: the request is recorded with the active layer's format,
        which decides the fill's colour mode. */
    method FillBuffer(layer: nat, dst: int, xSize: int, ySize: int, offLine: int, color: Color)
      requires Valid()
      modifies this`fills
      ensures fills == old(fills) + [FillRequest(layer, dst, xSize, ySize, offLine, color, Active().pixelFormat)]
    {
      fills := fills + [FillRequest(layer, dst, xSize, ySize, offLine, color, layers[activeLayer].pixelFormat)];
    }

    /** LL_ConvertLineToARGB8888: the request is recorded. */
    method ConvertLine(src: int, dst: int, xSize: int, mode: Bitmaps.ColorMode)
      modifies this`conversions
      ensures conversions == old(conversions) + [Bitmaps.ConvertRequest(src, dst, xSize, mode)]
    {
      conversions := conversions + [Bitmaps.ConvertRequest(src, dst, xSize, mode)];
    }

    /** LCD_DrawBitmap: the header fields read as 16-bit halves, the colour
        mode chosen from the bit count, then one line conversion per row, from
        the last stored row up to the first, into consecutive rows of a 4-byte
        layout of the active layer from (Xpos, Ypos) on. */
    method DrawBitmap(xpos: int, ypos: int, bmp: seq<Byte>)
      requires Valid() && |bmp| >= 30
      modifies this`conversions
      ensures conversions == old(conversions) + Bitmaps.BitmapRows(Active(), xpos, ypos, Bitmaps.DecodeHeader(bmp))
    {
      ghost var h := Bitmaps.DecodeHeader(bmp);
      ghost var l := layers[activeLayer];
      ghost var rows := Bitmaps.BitmapRows(l, xpos, ypos, h);
      var index := Load16(bmp, 10) + 0x1_0000 * Load16(bmp, 12);
      var width := Load16(bmp, 18) + 0x1_0000 * Load16(bmp, 20);
      var height := Load16(bmp, 22) + 0x1_0000 * Load16(bmp, 24);
      var bitPixel := Load16(bmp, 28);
      var xsize := layers[activeLayer].imageWidth;
      var address := layers[activeLayer].fbStart + (xsize * ypos + xpos) * 4;
      var mode;
      if bitPixel / 8 == 4 {
        mode := Bitmaps.CmArgb8888;
      } else if bitPixel / 8 == 2 {
        mode := Bitmaps.CmRgb565;
      } else {
        mode := Bitmaps.CmRgb888;
      }
      var src := index + width * (height - 1) * (bitPixel / 8);
      var r := 0;
      assert address == Bitmaps.RowRequest(l, xpos, ypos, h, 0).dst;
      while r < height
        invariant 0 <= r <= height
        invariant src == Bitmaps.RowRequest(l, xpos, ypos, h, r).src && address == Bitmaps.RowRequest(l, xpos, ypos, h, r).dst
        invariant conversions == old(conversions) + rows[..r]
      {
        ConvertLine(src, address, width, mode);
        Bitmaps.RowRequestStep(l, xpos, ypos, h, r);
        assert rows[..r + 1] == rows[..r] + [rows[r]];
        address := address + xsize * 4;
        src := src - width * (bitPixel / 8);
        r := r + 1;
      }
      assert rows[..r] == rows;
    }

    /** The start address LCD_DrawHLine, LCD_DrawVLine and LCD_FillRect compute:
        2 bytes per pixel for RGB565, 4 otherwise. */
    method StartAddress(x: Word16, y: Word16) returns (a: int)
      requires Valid()
      ensures a == PixelAddress(Active(), x, y)
    {
      var l := layers[activeLayer];
      if l.pixelFormat == RGB565 {
        a := l.fbStart + 2 * (l.imageWidth * y + x);
      } else {
        a := l.fbStart + 4 * (l.imageWidth * y + x);
      }
    }

    /** LCD_DrawHLine: one fill of Length pixels in the text colour. */
    method DrawHLine(x: Word16, y: Word16, len: Word16)
      requires Valid()
      modifies this`fills
      ensures fills == old(fills) + [HLineRequest(Active(), activeLayer, x, y, len, GetTextColor())]
    {
      var a := StartAddress(x, y);
      FillBuffer(activeLayer, a, len, 1, 0, drawProp[activeLayer].textColor);
    }

    /** LCD_DrawVLine: one fill of Length rows of one pixel in the text colour. */
    method DrawVLine(x: Word16, y: Word16, len: Word16)
      requires Valid()
      modifies this`fills
      ensures fills == old(fills) + [VLineRequest(Active(), activeLayer, x, y, len, GetTextColor())]
    {
      var a := StartAddress(x, y);
      FillBuffer(activeLayer, a, 1, len, U32(layers[activeLayer].imageWidth - 1), drawProp[activeLayer].textColor);
    }

    /** LCD_DrawRect: the top, bottom, left and right sides, in that order. */
    method DrawRect(x: Word16, y: Word16, w: Word16, h: Word16)
      requires Valid()
      modifies this`fills
      ensures fills == old(fills) + RectOutline(Active(), activeLayer, x, y, w, h, GetTextColor())
    {
      DrawHLine(x, y, w);
      DrawHLine(x, U16(y + h), w);
      DrawVLine(x, y, h);
      DrawVLine(U16(x + w), y, h);
    }

    /** LCD_FillRect: one fill of Width by Height pixels in the text colour (the
        source's LCD_SetTextColor of the text colour changes nothing). */
    method FillRect(x: Word16, y: Word16, w: Word16, h: Word16)
      requires Valid()
      modifies this`fills
      ensures fills == old(fills) + [RectRequest(Active(), activeLayer, x, y, w, h, GetTextColor())]
    {
      var a := StartAddress(x, y);
      FillBuffer(activeLayer, a, w, h, U32(layers[activeLayer].imageWidth - w), drawProp[activeLayer].textColor);
    }

    /** LCD_Clear: one fill of the whole layer. */
    method Clear(c: Color)
      requires Valid()
      modifies this`fills
      ensures fills == old(fills) + [ClearRequest(Active(), activeLayer, c)]
    {
      var l := layers[activeLayer];
      FillBuffer(activeLayer, l.fbStart, l.imageWidth, l.imageHeight, 0, c);
    }

    /** LCD_ClearStringLine: the text line `line` of the current font filled with
        the background colour across the layer's width (Ypos and Width are
        `uint16_t` parameters of LCD_FillRect); the text colour is restored. */
    method ClearStringLine(line: Color)
      requires Valid() && GetFont().Some?
      modifies this`fills, this`drawProp
      ensures Valid() && drawProp == old(drawProp)
      ensures var h := GetFont().value.height;
              fills == old(fills) + [RectRequest(Active(), activeLayer, 0, U16(line * h), U16(GetXSize()), U16(h), GetBackColor())]
    {
      var backup := drawProp[activeLayer].textColor;
      drawProp := drawProp[activeLayer := drawProp[activeLayer].(textColor := drawProp[activeLayer].backColor)];
      var h := drawProp[activeLayer].font.value.height;
      FillRect(0, U16(line * h), U16(layers[activeLayer].imageWidth), U16(h));
      drawProp := drawProp[activeLayer := drawProp[activeLayer].(textColor := backup)];
    }

    // -------------------------------------------------------------------------
    // Rasterisers

    /** The set-up shared by LCD_DrawLine and FillTriangle: the increments, den,
        num, num_add and num_pixels, as Lines.Setup describes them. */
    static method WalkSetup(x1: int, y1: int, x2: int, y2: int)
      returns (xinc1: int, xinc2: int, yinc1: int, yinc2: int, den: int, num: int, numAdd: int, numPixels: int)
      ensures var w := Lines.Setup(x1, y1, x2, y2);
              den == w.den && num == w.den / 2 && numAdd == w.numAdd && numPixels == w.numPixels &&
              Lines.Increments(w, xinc1, xinc2, yinc1, yinc2)
    {
      var deltax := Lines.Abs(x2 - x1);
      var deltay := Lines.Abs(y2 - y1);
      if x2 >= x1 {
        xinc1, xinc2 := 1, 1;
      } else {
        xinc1, xinc2 := -1, -1;
      }
      if y2 >= y1 {
        yinc1, yinc2 := 1, 1;
      } else {
        yinc1, yinc2 := -1, -1;
      }
      if deltax >= deltay {
        xinc1, yinc2 := 0, 0;
        den, num, numAdd, numPixels := deltax, deltax / 2, deltay, deltax;
      } else {
        xinc2, yinc1 := 0, 0;
        den, num, numAdd, numPixels := deltay, deltay / 2, deltax, deltay;
      }
    }

    /** One step of the walk shared by LCD_DrawLine and FillTriangle: num grows by
        num_add; when it reaches den it wraps and the minor coordinate moves
        (xinc1, yinc1); the major coordinate always moves (xinc2, yinc2). */
    static method NextPosition(ghost x1: int, ghost y1: int, ghost x2: int, ghost y2: int, ghost k: nat,
                               xinc1: int, xinc2: int, yinc1: int, yinc2: int, den: int, numAdd: int,
                               x: int, y: int, num: int)
      returns (x': int, y': int, num': int)
      requires Lines.Increments(Lines.Setup(x1, y1, x2, y2), xinc1, xinc2, yinc1, yinc2)
      requires den == Lines.Setup(x1, y1, x2, y2).den && numAdd == Lines.Setup(x1, y1, x2, y2).numAdd
      requires Point(x, y) == Lines.WalkPoint(x1, y1, x2, y2, k) && num == Lines.Residue(den, numAdd, k)
      ensures Point(x', y') == Lines.WalkPoint(x1, y1, x2, y2, k + 1) && num' == Lines.Residue(den, numAdd, k + 1)
    {
      Lines.IncrementStep(x1, y1, x2, y2, k, xinc1, xinc2, yinc1, yinc2, x, y, num);
      x', y', num' := x, y, num + numAdd;
      if num' >= den {
        num' := num' - den;
        x' := x' + xinc1;
        y' := y' + yinc1;
      }
      x' := x' + xinc2;
      y' := y' + yinc2;
    }

    /** LCD_DrawLine: the fast pixel writes of the Bresenham walk from (x1, y1)
        to (x2, y2) in the text colour. The walk's locals are `int16_t`, so the
        end points are required to be below 0x8000 and the walk to fit (num and
        curpixel never pass 0x7FFF). */
    method DrawLine(x1: Word16, y1: Word16, x2: Word16, y2: Word16)
      requires Valid()
      requires x1 < 0x8000 && y1 < 0x8000 && x2 < 0x8000 && y2 < 0x8000
      requires Lines.FitsInt16(x1, y1, x2, y2)
      modifies mem
      ensures mem[..] == FastPlotAll(old(mem[..]), View(), Lines.LinePixels(x1, y1, x2, y2), GetTextColor())
    {
      var xinc1, xinc2, yinc1, yinc2, den, num, numAdd, numPixels := WalkSetup(x1, y1, x2, y2);
      var x: int, y: int := x1, y1;
      ghost var w := Lines.Setup(x1, y1, x2, y2);
      ghost var px := Lines.LinePixels(x1, y1, x2, y2);
      ghost var m0 := mem[..];
      Lines.WalkStart(x1, y1, x2, y2);
      var c := drawProp[activeLayer].textColor;
      var curpixel := 0;
      while curpixel <= numPixels
        invariant 0 <= curpixel <= numPixels + 1
        invariant Point(x, y) == Lines.WalkPoint(x1, y1, x2, y2, curpixel)
        invariant num == Lines.Residue(den, numAdd, curpixel)
        invariant mem[..] == FastPlotAll(m0, View(), px[..curpixel], c)
        decreases numPixels + 1 - curpixel
      {
        Lines.WalkInBox(x1, y1, x2, y2, curpixel);
        Lines.FitsInt16Values(x1, y1, x2, y2, curpixel);
        assert num + numAdd < 0x8000 && curpixel + 1 < 0x8000;
        assert px[curpixel] == Point(x, y);
        FastPlotAllPrefix(m0, View(), px, curpixel, c);
        FastDrawPixel(x, y, c);
        x, y, num := NextPosition(x1, y1, x2, y2, curpixel, xinc1, xinc2, yinc1, yinc2, den, numAdd, x, y, num);
        curpixel := curpixel + 1;
      }
      assert px[..curpixel] == px;
    }

    /** FillTriangle(x1, x2, x3, y1, y2, y3): the walk of LCD_DrawLine along the
        edge from (x1, y1) to (x2, y2), drawing a line from every position to
        (x3, y3). The locals here and in LCD_DrawLine are `int16_t`; vertices
        below 0x4000 keep every walk inside them (Lines.SmallFitsInt16). */
    method FillTriangle(x1: Word16, x2: Word16, x3: Word16, y1: Word16, y2: Word16, y3: Word16)
      requires Valid()
      requires x1 < 0x4000 && y1 < 0x4000 && x2 < 0x4000 && y2 < 0x4000 && x3 < 0x4000 && y3 < 0x4000
      modifies mem
      ensures mem[..] == Polygons.PlotLines(old(mem[..]), View(), Polygons.TriangleSegments(x1, x2, x3, y1, y2, y3), GetTextColor())
    {
      var xinc1, xinc2, yinc1, yinc2, den, num, numAdd, numPixels := WalkSetup(x1, y1, x2, y2);
      var x: int, y: int := x1, y1;
      ghost var segs := Polygons.TriangleSegments(x1, x2, x3, y1, y2, y3);
      ghost var m0 := mem[..];
      Lines.WalkStart(x1, y1, x2, y2);
      var c := drawProp[activeLayer].textColor;
      var curpixel := 0;
      while curpixel <= numPixels
        invariant 0 <= curpixel <= numPixels + 1
        invariant Point(x, y) == Lines.WalkPoint(x1, y1, x2, y2, curpixel)
        invariant num == Lines.Residue(den, numAdd, curpixel)
        invariant mem[..] == Polygons.PlotLines(m0, View(), segs[..curpixel], c)
        decreases numPixels + 1 - curpixel
      {
        Polygons.TriangleSegmentAt(x1, x2, x3, y1, y2, y3, curpixel, Point(x, y));
        Lines.SmallFitsInt16(x, y, x3, y3);
        Lines.SmallFitsInt16(x1, y1, x2, y2);
        Lines.FitsInt16Values(x1, y1, x2, y2, curpixel);
        assert num + numAdd < 0x8000 && curpixel + 1 < 0x8000;
        Polygons.PlotLinesPrefix(m0, View(), segs, curpixel, c);
        DrawLine(x, y, x3, y3);
        x, y, num := NextPosition(x1, y1, x2, y2, curpixel, xinc1, xinc2, yinc1, yinc2, den, numAdd, x, y, num);
        curpixel := curpixel + 1;
      }
      assert segs[..curpixel] == segs;
    }

    /** LCD_DrawPolygon: nothing for fewer than two points; otherwise the line
        from the first point to the last, then the lines from each point to the
        next. The points are required to lie in [0, 0x4000), see PointsInRange. */
    method DrawPolygon(points: seq<Point>, count: Word16)
      requires Valid() && count <= |points| && PointsInRange(points[..count])
      modifies mem
      ensures mem[..] == Polygons.PlotLines(old(mem[..]), View(), Polygons.PolygonSegments(points[..count]), GetTextColor())
    {
      if count < 2 {
        return;
      }
      ghost var m0 := mem[..];
      PolygonClosing(points, count);
      PolygonEdges(m0, points, count);
    }

    /** The loop of LCD_DrawPolygon: the line from each point to the next. */
    method PolygonEdges(ghost m0: seq<Byte>, points: seq<Point>, count: nat)
      requires Valid() && 2 <= count <= |points| && PointsInRange(points[..count])
      requires mem[..] == Polygons.PlotLines(m0, View(), Polygons.PolygonSegments(points[..count])[..1], GetTextColor())
      modifies mem
      ensures mem[..] == Polygons.PlotLines(m0, View(), Polygons.PolygonSegments(points[..count]), GetTextColor())
    {
      ghost var segs := Polygons.PolygonSegments(points[..count]);
      Polygons.PolygonSegmentsWhole(points[..count]);
      var i := 0;
      while i < count - 1
        invariant 0 <= i <= count - 1
        invariant mem[..] == Polygons.PlotLines(m0, View(), segs[..i + 1], GetTextColor())
      {
        PolygonEdge(m0, points, count, i);
        i := i + 1;
      }
    }

    /** The first line of LCD_DrawPolygon: from the first point to the last. */
    method PolygonClosing(points: seq<Point>, count: nat)
      requires Valid() && 2 <= count <= |points| && PointsInRange(points[..count])
      modifies mem
      ensures mem[..] == Polygons.PlotLines(old(mem[..]), View(), Polygons.PolygonSegments(points[..count])[..1], GetTextColor())
    {
      ghost var segs := Polygons.PolygonSegments(points[..count]);
      assert points[..count][0] == points[0] && points[..count][count - 1] == points[count - 1];
      Polygons.PlotLinesPrefix(mem[..], View(), segs, 0, GetTextColor());
      Lines.SmallFitsInt16(points[0].x, points[0].y, points[count - 1].x, points[count - 1].y);
      DrawLine(points[0].x, points[0].y, points[count - 1].x, points[count - 1].y);
    }

    /** The line from point i to point i + 1, after the closing line and the
        lines before it. */
    method PolygonEdge(ghost m0: seq<Byte>, points: seq<Point>, count: nat, i: nat)
      requires Valid() && i + 1 < count <= |points| && PointsInRange(points[..count])
      requires mem[..] == Polygons.PlotLines(m0, View(), Polygons.PolygonSegments(points[..count])[..i + 1], GetTextColor())
      modifies mem
      ensures mem[..] == Polygons.PlotLines(m0, View(), Polygons.PolygonSegments(points[..count])[..i + 2], GetTextColor())
    {
      ghost var segs := Polygons.PolygonSegments(points[..count]);
      assert points[..count][i] == points[i] && points[..count][i + 1] == points[i + 1];
      assert segs[i + 1] == Polygons.Segment(points[i], points[i + 1]);
      Polygons.PlotLinesPrefix(m0, View(), segs, i + 1, GetTextColor());
      Lines.SmallFitsInt16(points[i].x, points[i].y, points[i + 1].x, points[i + 1].y);
      DrawLine(points[i].x, points[i].y, points[i + 1].x, points[i + 1].y);
    }

    /** The bounding box loop of LCD_FillPolygon, over the first `count` points
        (at least the first point is read even when `count` is 0). */
    static method PolygonBox(points: seq<Point>, count: nat) returns (left: int, right: int, top: int, bottom: int)
      requires 1 <= |points| && count <= |points|
      ensures Polygons.Box(left, right, top, bottom) == Polygons.BoxOf(points[..if count == 0 then 1 else count])
    {
      left, right := points[0].x, points[0].x;
      top, bottom := points[0].y, points[0].y;
      var counter := 1;
      assert points[..1] == [points[0]];
      while counter < count
        invariant 1 <= counter <= if count == 0 then 1 else count
        invariant Polygons.Box(left, right, top, bottom) == Polygons.BoxOf(points[..counter])
      {
        assert points[..counter + 1][..counter] == points[..counter];
        var p := points[counter];
        if p.x < left {
          left := p.x;
        }
        if p.x > right {
          right := p.x;
        }
        if p.y < top {
          top := p.y;
        }
        if p.y > bottom {
          bottom := p.y;
        }
        counter := counter + 1;
      }
    }

    /** LCD_FillPolygon: the bounding box of the first `count` points, then
        nothing for fewer than two points; otherwise, for every edge and then
        the closing edge, the three triangles of Polygons.Fan around the box's
        centre. */
    method FillPolygon(points: seq<Point>, count: Word16)
      requires Valid() && 1 <= |points| && count <= |points| && PointsInRange(points[..count])
      modifies mem
      ensures mem[..] == Polygons.PlotTriangles(old(mem[..]), View(), Polygons.PolygonTriangles(points[..count]), GetTextColor())
    {
      var left, right, top, bottom := PolygonBox(points, count);
      if count < 2 {
        return;
      }
      ghost var pts := points[..count];
      var center := Point((left + right) / 2, (bottom + top) / 2);
      assert center == Polygons.Center(Polygons.BoxOf(pts));
      Polygons.CenterWithin(pts, 0, 0x4000);
      ghost var m0 := mem[..];
      FillEdgeFans(points, count, center);
      assert pts[0] == points[0] && pts[count - 1] == points[count - 1];
      FanFill(m0, Polygons.EdgeFans(pts, center), points[0], points[count - 1], center);
    }

    /** The edge loop of LCD_FillPolygon: the fans of the edges from each of the
        first `count` points to the next. After a round with n the edges between
        the first n points are filled. */
    method FillEdgeFans(points: seq<Point>, count: nat, center: Point)
      requires Valid() && 2 <= count <= |points| && PointsInRange(points[..count])
      requires 0 <= center.x < 0x4000 && 0 <= center.y < 0x4000
      modifies mem
      ensures mem[..] == Polygons.PlotTriangles(old(mem[..]), View(), Polygons.EdgeFans(points[..count], center), GetTextColor())
    {
      ghost var m0 := mem[..];
      assert points[..1] == [points[0]];
      var n := 1;
      while n < count
        invariant 1 <= n <= count
        invariant mem[..] == Polygons.PlotTriangles(m0, View(), Polygons.EdgeFans(points[..n], center), GetTextColor())
      {
        EdgeFanFill(m0, points, count, n, center);
        n := n + 1;
      }
    }

    /** The fan of the edge from point n - 1 to point n, after those before it. */
    method EdgeFanFill(ghost m0: seq<Byte>, points: seq<Point>, count: nat, n: nat, center: Point)
      requires Valid() && 1 <= n < count <= |points| && PointsInRange(points[..count])
      requires 0 <= center.x < 0x4000 && 0 <= center.y < 0x4000
      requires mem[..] == Polygons.PlotTriangles(m0, View(), Polygons.EdgeFans(points[..n], center), GetTextColor())
      modifies mem
      ensures mem[..] == Polygons.PlotTriangles(m0, View(), Polygons.EdgeFans(points[..n + 1], center), GetTextColor())
    {
      assert points[..count][n - 1] == points[n - 1] && points[..count][n] == points[n];
      Polygons.EdgeFansPrefix(points, center, n);
      FanFill(m0, Polygons.EdgeFans(points[..n], center), points[n - 1], points[n], center);
    }

    /** The three FillTriangle calls of one edge p -> q around the centre. */
    method FanFill(ghost m0: seq<Byte>, ghost ts: seq<Polygons.Triangle>, p: Point, q: Point, center: Point)
      requires Valid()
      requires 0 <= p.x < 0x4000 && 0 <= p.y < 0x4000 && 0 <= q.x < 0x4000 && 0 <= q.y < 0x4000
      requires 0 <= center.x < 0x4000 && 0 <= center.y < 0x4000
      requires mem[..] == Polygons.PlotTriangles(m0, View(), ts, GetTextColor())
      modifies mem
      ensures mem[..] == Polygons.PlotTriangles(m0, View(), ts + Polygons.Fan(p, q, center), GetTextColor())
    {
      var t1, t2, t3 := Polygons.Triangle(p, q, center), Polygons.Triangle(p, center, q), Polygons.Triangle(center, q, p);
      ghost var ts1, ts2 := ts + [t1], ts + [t1, t2];
      assert ts + Polygons.Fan(p, q, center) == ts2 + [t3] && ts2 == ts1 + [t2];
      FillOne(m0, ts, t1);
      FillOne(m0, ts1, t2);
      FillOne(m0, ts2, t3);
    }

    /** One FillTriangle call, as the next of a sequence of triangles. */
    method FillOne(ghost m0: seq<Byte>, ghost ts: seq<Polygons.Triangle>, t: Polygons.Triangle)
      requires Valid()
      requires 0 <= t.a.x < 0x4000 && 0 <= t.a.y < 0x4000 && 0 <= t.b.x < 0x4000 && 0 <= t.b.y < 0x4000
      requires 0 <= t.c.x < 0x4000 && 0 <= t.c.y < 0x4000
      requires mem[..] == Polygons.PlotTriangles(m0, View(), ts, GetTextColor())
      modifies mem
      ensures mem[..] == Polygons.PlotTriangles(m0, View(), ts + [t], GetTextColor())
    {
      Polygons.PlotTrianglesSnoc(m0, View(), ts, t, GetTextColor());
      FillTriangle(t.a.x, t.b.x, t.c.x, t.a.y, t.b.y, t.c.y);
    }

    // -------------------------------------------------------------------------
    // Circles

    /** One step of the outline recurrence of LCD_DrawCircle and LCD_FillCircle. */
    static method CircleNext(decision: int, x: int, y: int) returns (decision': int, x': int, y': int)
      ensures (decision', x', y') == Circles.CircleStep(decision, x, y)
    {
      if decision < 0 {
        decision' := decision + 4 * x + 6;
        y' := y;
      } else {
        decision' := decision + 4 * (x - y) + 10;
        y' := y - 1;
      }
      x' := x + 1;
    }

    /** The eight Fast_LCD_DrawPixel calls of the LCD_DrawCircle step (x, y). */
    method CircleStepDraw(xpos: Word16, ypos: Word16, x: int, y: int)
      requires Valid()
      modifies mem
      ensures mem[..] == Circles.StepPlot(old(mem[..]), View(), xpos, ypos, x, y, GetTextColor())
    {
      var c := drawProp[activeLayer].textColor;
      FastDrawPixel(U16(xpos + x), U16(ypos - y), c);
      FastDrawPixel(U16(xpos - x), U16(ypos - y), c);
      FastDrawPixel(U16(xpos + y), U16(ypos - x), c);
      FastDrawPixel(U16(xpos - y), U16(ypos - x), c);
      FastDrawPixel(U16(xpos + x), U16(ypos + y), c);
      FastDrawPixel(U16(xpos - x), U16(ypos + y), c);
      FastDrawPixel(U16(xpos + y), U16(ypos + x), c);
      FastDrawPixel(U16(xpos - y), U16(ypos + x), c);
    }

    /** One pass of LCD_DrawCircle's loop: the eight writes of step (x, y), then the
        recurrence. */
    method CircleStepAt(ghost m0: seq<Byte>, ghost steps: seq<Point>, xpos: Word16, ypos: Word16, ghost radius: nat,
                        decision: int, x: int, y: int) returns (decision': int, x': int, y': int)
      requires Valid() && x <= y
      requires steps + Circles.CircleFrom(decision, x, y) == Circles.CircleSteps(radius)
      requires mem[..] == FastPlotAll(m0, View(), Circles.CircleWritesOf(xpos, ypos, steps), GetTextColor())
      modifies mem
      ensures steps + [Point(x, y)] + Circles.CircleFrom(decision', x', y') == Circles.CircleSteps(radius)
      ensures mem[..] == FastPlotAll(m0, View(), Circles.CircleWritesOf(xpos, ypos, steps + [Point(x, y)]), GetTextColor())
      ensures y' - x' < y - x
    {
      CircleStepDraw(xpos, ypos, x, y);
      Circles.CircleWritesStep(m0, View(), xpos, ypos, steps, x, y, GetTextColor());
      Circles.CircleFromNext(steps, decision, x, y);
      decision', x', y' := CircleNext(decision, x, y);
    }

    /** LCD_DrawCircle: the eight mirrored fast pixel writes of every step of the
        outline recurrence, in the text colour. current_y is signed here: with
        Radius 0 the source's unsigned current_y wraps and the loop does not
        stop (see Circles.RadiusZeroKeepsLooping); for a positive radius the
        two agree (Circles.CircleStepAgrees). */
    method DrawCircle(xpos: Word16, ypos: Word16, radius: Word16)
      requires Valid()
      modifies mem
      ensures mem[..] == FastPlotAll(old(mem[..]), View(), Circles.CircleWrites(xpos, ypos, radius), GetTextColor())
    {
      var c := drawProp[activeLayer].textColor;
      var decision := 3 - 2 * radius;
      var x, y := 0, radius;
      ghost var m0 := mem[..];
      ghost var steps: seq<Point> := [];
      while x <= y
        invariant steps + Circles.CircleFrom(decision, x, y) == Circles.CircleSteps(radius)
        invariant mem[..] == FastPlotAll(m0, View(), Circles.CircleWritesOf(xpos, ypos, steps), c)
        decreases y - x + 1
      {
        ghost var s := Point(x, y);
        decision, x, y := CircleStepAt(m0, steps, xpos, ypos, radius, decision, x, y);
        steps := steps + [s];
      }
      assert steps == Circles.CircleSteps(radius);
    }

    /** The LCD_DrawHLine calls of one LCD_FillCircle step (x, y). */
    method CircleStepRuns(xpos: Word16, ypos: Word16, x: int, y: int)
      requires Valid()
      modifies this`fills
      ensures fills == old(fills) + Circles.StepRuns(Active(), activeLayer, xpos, ypos, x, y, GetTextColor())
    {
      if y > 0 {
        DrawHLine(U16(xpos - y), U16(ypos + x), U16(2 * y));
        DrawHLine(U16(xpos - y), U16(ypos - x), U16(2 * y));
      }
      if x > 0 {
        DrawHLine(U16(xpos - x), U16(ypos - y), U16(2 * x));
        DrawHLine(U16(xpos - x), U16(ypos + y), U16(2 * x));
      }
    }

    /** One pass of LCD_FillCircle's loop: the runs of step (x, y), then the
        recurrence. */
    method CircleRunsAt(ghost f0: seq<FillRequest>, ghost steps: seq<Point>, xpos: Word16, ypos: Word16, ghost radius: nat,
                        decision: int, x: int, y: int) returns (decision': int, x': int, y': int)
      requires Valid() && x <= y
      requires steps + Circles.CircleFrom(decision, x, y) == Circles.CircleSteps(radius)
      requires fills == f0 + Circles.CircleRunsOf(Active(), activeLayer, xpos, ypos, steps, GetTextColor())
      modifies this`fills
      ensures steps + [Point(x, y)] + Circles.CircleFrom(decision', x', y') == Circles.CircleSteps(radius)
      ensures fills == f0 + Circles.CircleRunsOf(Active(), activeLayer, xpos, ypos, steps + [Point(x, y)], GetTextColor())
      ensures y' - x' < y - x
    {
      CircleStepRuns(xpos, ypos, x, y);
      Circles.CircleRunsOfSnoc(Active(), activeLayer, xpos, ypos, steps, x, y, GetTextColor());
      Circles.CircleFromNext(steps, decision, x, y);
      decision', x', y' := CircleNext(decision, x, y);
    }

    /** LCD_FillCircle: the horizontal runs of every step of the outline
        recurrence, then LCD_DrawCircle over them (the source's two
        LCD_SetTextColor calls set the text colour it already has). */
    method FillCircle(xpos: Word16, ypos: Word16, radius: Word16)
      requires Valid()
      modifies this`fills, mem
      ensures fills == old(fills) + Circles.FillCircleRuns(Active(), activeLayer, xpos, ypos, radius, GetTextColor())
      ensures mem[..] == FastPlotAll(old(mem[..]), View(), Circles.CircleWrites(xpos, ypos, radius), GetTextColor())
    {
      var decision := 3 - 2 * radius;
      var x, y := 0, radius;
      ghost var f0 := fills;
      ghost var steps: seq<Point> := [];
      while x <= y
        invariant steps + Circles.CircleFrom(decision, x, y) == Circles.CircleSteps(radius)
        invariant fills == f0 + Circles.CircleRunsOf(Active(), activeLayer, xpos, ypos, steps, GetTextColor())
        invariant mem[..] == old(mem[..])
        decreases y - x + 1
      {
        ghost var s := Point(x, y);
        decision, x, y := CircleRunsAt(f0, steps, xpos, ypos, radius, decision, x, y);
        steps := steps + [s];
      }
      assert steps == Circles.CircleSteps(radius);
      DrawCircle(xpos, ypos, radius);
    }

    /** One pass of LCD_DrawFullCircle's loop before its spans, on the `int16_t`
        locals f, ddF_x, ddF_y, x and y. */
    static method DiscNext(x: int, y: int, f: int, ddFx: int, ddFy: int)
      returns (x': int, y': int, f': int, ddFx': int, ddFy': int)
      ensures Circles.DiscState(x', y', f', ddFx', ddFy') == Circles.DiscStep(Circles.DiscState(x, y, f, ddFx, ddFy))
    {
      x', y', f', ddFx', ddFy' := x, y, f, ddFx, ddFy;
      if f' >= 0 {
        y' := y' - 1;
        ddFy' := ddFy' + 2;
        f' := f' + ddFy';
      }
      x' := x' + 1;
      ddFx' := ddFx' + 2;
      f' := f' + ddFx';
    }

    /** The four DrawFastLineVertical calls of the LCD_DrawFullCircle pass that
        ends at (x, y). */
    method DiscSpansDraw(xpos: Word16, ypos: Word16, x: int, y: int)
      requires Valid()
      modifies mem
      ensures mem[..] == Circles.DiscPassPlot(old(mem[..]), View(), xpos, ypos, x, y, GetTextColor())
    {
      DrawFastLineVertical(U16(xpos + x), U16(ypos - y), U16(ypos + y));
      DrawFastLineVertical(U16(xpos - x), U16(ypos - y), U16(ypos + y));
      DrawFastLineVertical(U16(xpos + y), U16(ypos - x), U16(ypos + x));
      DrawFastLineVertical(U16(xpos - y), U16(ypos - x), U16(ypos + x));
    }

    /** One pass of LCD_DrawFullCircle's loop: the recurrence, then the four spans. */
    method DiscPassAt(ghost m1: seq<Byte>, ghost passes: seq<Circles.DiscState>, xpos: Word16, ypos: Word16, ghost radius: int,
                      x: int, y: int, f: int, ddFx: int, ddFy: int)
      returns (x': int, y': int, f': int, ddFx': int, ddFy': int)
      requires Valid() && x < y
      requires passes + Circles.DiscFrom(Circles.DiscState(x, y, f, ddFx, ddFy)) == Circles.DiscFrom(Circles.DiscStart(radius))
      requires mem[..] == Circles.SpansFill(m1, View(), Circles.DiscSpansOf(xpos, ypos, passes), GetTextColor())
      modifies mem
      ensures var s := Circles.DiscState(x', y', f', ddFx', ddFy');
              passes + [s] + Circles.DiscFrom(s) == Circles.DiscFrom(Circles.DiscStart(radius)) &&
              mem[..] == Circles.SpansFill(m1, View(), Circles.DiscSpansOf(xpos, ypos, passes + [s]), GetTextColor())
      ensures y' - x' < y - x
    {
      Circles.DiscFromNext(passes, Circles.DiscState(x, y, f, ddFx, ddFy));
      x', y', f', ddFx', ddFy' := DiscNext(x, y, f, ddFx, ddFy);
      DiscSpansDraw(xpos, ypos, x', y');
      Circles.DiscPassFill(m1, View(), xpos, ypos, passes, Circles.DiscState(x', y', f', ddFx', ddFy'), x', y', GetTextColor());
    }

    /** LCD_DrawFullCircle: the vertical line through the centre with
        LCD_DrawLine, then four DrawFastLineVertical spans per pass of the
        midpoint recurrence. The centre line's ends are handed to the `int16_t`
        locals of LCD_DrawLine, so they are required to be below 0x8000; the
        line is vertical and at most 0x7FFE long, so its walk fits. */
    method DrawFullCircle(xpos: Word16, ypos: Word16, radius: Word16)
      requires Valid()
      requires xpos < 0x8000 && radius <= ypos && ypos + radius < 0x8000
      modifies mem
      ensures mem[..] == Circles.SpansFill(FastPlotAll(old(mem[..]), View(), Lines.LinePixels(xpos, ypos - radius, xpos, ypos + radius), GetTextColor()),
                                           View(), Circles.DiscSpansOf(xpos, ypos, Circles.DiscFrom(Circles.DiscStart(radius))), GetTextColor())
    {
      var c := drawProp[activeLayer].textColor;
      var f, ddFx, ddFy, x, y := 1 - radius, 1, -2 * radius, 0, radius;
      Lines.VerticalFitsInt16(xpos + x, ypos - y, ypos + y);
      DrawLine(xpos + x, ypos - y, xpos + x, ypos + y);
      ghost var m1 := mem[..];
      ghost var passes: seq<Circles.DiscState> := [];
      while x < y
        invariant passes + Circles.DiscFrom(Circles.DiscState(x, y, f, ddFx, ddFy)) == Circles.DiscFrom(Circles.DiscStart(radius))
        invariant mem[..] == Circles.SpansFill(m1, View(), Circles.DiscSpansOf(xpos, ypos, passes), c)
        decreases y - x
      {
        x, y, f, ddFx, ddFy := DiscPassAt(m1, passes, xpos, ypos, radius, x, y, f, ddFx, ddFy);
        passes := passes + [Circles.DiscState(x, y, f, ddFx, ddFy)];
      }
      assert passes == Circles.DiscFrom(Circles.DiscStart(radius));
    }

    // -------------------------------------------------------------------------
    // Text

    /** DrawChar: glyph row i is drawn at row Ypos + i (the source counts Ypos
        up, a `uint16_t`), pixel j of it at column Xpos + j. The font and the
        colours are those of the active layer's drawing record, which nothing
        changes while the glyph is drawn; they are read once here. */
    method DrawChar(xpos: Word16, ypos: Word16, c: int)
      requires Valid() && GetFont().Some? && ValidFont(GetFont().value) && GlyphInTable(GetFont().value, c)
      modifies mem
      ensures mem[..] == LayerPlotAll(old(mem[..]), layers[activeLayer], GlyphWrites(drawProp[activeLayer].font.value, c, xpos, ypos,
                                      drawProp[activeLayer].textColor, drawProp[activeLayer].backColor))
    {
      ghost var m0 := mem[..];
      ghost var l := layers[activeLayer];
      var f := drawProp[activeLayer].font.value;
      var tc, bc := drawProp[activeLayer].textColor, drawProp[activeLayer].backColor;
      var offset := Offset(f.width);
      var i := 0;
      while i < f.height
        invariant 0 <= i <= f.height && l == layers[activeLayer]
        invariant mem[..] == LayerPlotAll(m0, l, GlyphRows(f, c, xpos, ypos, tc, bc, i))
      {
        GlyphRowDraw(l, f, c, xpos, ypos, tc, bc, i, offset);
        GlyphRowsStep(m0, l, f, c, xpos, ypos, tc, bc, i);
        i := i + 1;
      }
    }

    /** One row of DrawChar: the row's bytes combined into `line`, then its
        pixels left to right at row Ypos + i. */
    method GlyphRowDraw(ghost l: Layer, f: Font, c: int, xpos: Word16, ypos: Word16, tc: Color, bc: Color, i: int, offset: int)
      requires Valid() && l == layers[activeLayer] && ValidFont(f) && GlyphInTable(f, c) && 0 <= i < f.height && offset == Offset(f.width)
      modifies mem
      ensures mem[..] == LayerPlotAll(old(mem[..]), l, GlyphRow(f, c, xpos, ypos, tc, bc, i))
    {
      ghost var m1 := mem[..];
      ghost var row := GlyphRow(f, c, xpos, ypos, tc, bc, i);
      var nb := RowBytes(f.width);
      RowStart(f, c, i);
      var line := GlyphLine(f.table, c + nb * i, nb);
      var y: int := ypos + i;
      var j := 0;
      while j < f.width
        invariant 0 <= j <= f.width && l == layers[activeLayer]
        invariant mem[..] == LayerPlotAll(m1, l, row[..j])
      {
        GlyphPixel(l, f, c, xpos, ypos, tc, bc, i, j, y, line, offset);
        LayerPlotAllPrefix(m1, l, row, j);
        j := j + 1;
      }
      assert row[..f.width] == row;
    }

    /** The row switch of DrawChar: 1, 2 or 3 bytes from pchar combined most
        significant first (the source's `|` of non-overlapping shifted bytes is
        their sum). */
    static method GlyphLine(t: seq<Byte>, p: int, nb: nat) returns (line: int)
      requires 0 <= p && p + ReadCount(nb) <= |t|
      ensures line == RowBits(t, p, nb)
    {
      if nb == 1 {
        line := t[p];
      } else if nb == 2 {
        line := t[p] as int * 0x100 + t[p + 1] as int;
      } else {
        line := t[p] as int * 0x1_0000 + t[p + 1] as int * 0x100 + t[p + 2] as int;
      }
    }

    /** Pixel j of glyph row i: LCD_DrawPixel at (Xpos + j, Ypos) in the text
        colour when bit Width - j + offset - 1 of `line` is set, in the
        background colour otherwise. */
    method GlyphPixel(ghost l: Layer, f: Font, ghost c: int, xpos: Word16, ghost ypos: Word16, tc: Color, bc: Color,
                      ghost i: int, j: int, y: int, line: int, offset: int)
      requires Valid() && l == layers[activeLayer] && ValidFont(f) && GlyphInTable(f, c) && 0 <= i < f.height && 0 <= j < f.width
      requires y == ypos + i && offset == Offset(f.width) && line == RowLine(f, c, i)
      modifies mem
      ensures var w := GlyphWrite(f, c, xpos, ypos, tc, bc, i, j);
              mem[..] == LayerPlot(old(mem[..]), l, w.x, w.y, w.color)
    {
      if Bit(line, f.width - j + offset - 1) {
        DrawPixel(U16(xpos + j), U16(y), tc);
      } else {
        DrawPixel(U16(xpos + j), U16(y), bc);
      }
    }

    /** LCD_DisplayChar: the glyph of Ascii, (Ascii - ' ') * Height * ((Width + 7) / 8)
        bytes into the font table, drawn with DrawChar. */
    method DisplayChar(xpos: Word16, ypos: Word16, ascii: Byte)
      requires Valid() && GetFont().Some? && ValidFont(GetFont().value) && GlyphFits(GetFont().value, ascii)
      modifies mem
      ensures var f := GetFont().value;
              mem[..] == LayerPlotAll(old(mem[..]), Active(), GlyphWrites(f, GlyphIndex(f, ascii), xpos, ypos, GetTextColor(), GetBackColor()))
    {
      var f := drawProp[activeLayer].font.value;
      DrawChar(xpos, ypos, (ascii - 32) * f.height * ((f.width + 7) / 8));
    }

    /** The size loop of LCD_DisplayStringAt: bytes are counted up to the
        terminating 0. */
    static method TextSize(text: seq<Byte>) returns (size: nat)
      requires 0 in text
      ensures size == Strlen(text)
    {
      size := 0;
      while text[size] != 0
        invariant size <= Strlen(text)
        invariant forall k :: 0 <= k < size ==> text[k] != 0
        decreases Strlen(text) - size
      {
        size := size + 1;
      }
    }

    /** The start column of LCD_DisplayStringAt: the alignment switch on
        `uint32_t` values stored in the `uint16_t` ref_column, then the clamp. */
    static method TextStart(xsize: int, width: nat, size: nat, xpos: Word16, mode: AlignMode) returns (refColumn: int)
      requires 1 <= width
      ensures refColumn == StartColumn(xsize, width, size, xpos, mode)
    {
      var chars := xsize / width;
      match mode {
        case CenterMode =>
          refColumn := U16(U32(xpos + U32(U32(chars - size) * width) / 2));
        case LeftMode =>
          refColumn := xpos;
        case RightMode =>
          refColumn := U16(U32(U32(U32(chars - size) * width) - xpos));
        case OtherMode =>
          refColumn := xpos;
      }
      if refColumn < 1 || refColumn >= 0x8000 {
        refColumn := 1;
      }
    }

    /** LCD_DisplayStringAt: the characters of the string from the start column
        on, one glyph width apart (a `uint16_t` sum), for as long as there is a
        character left and the `uint16_t`-masked width left, XSize - i * Width,
        is at least one glyph. Only the characters drawn need a glyph in the
        font table. The counter i, a `uint16_t` that counts up with Text, is
        U16(k) for the k characters passed; the column is kept unbounded and
        truncated where it is passed. */
    method DisplayStringAt(xpos: Word16, ypos: Word16, text: seq<Byte>, mode: AlignMode)
      requires Valid() && GetFont().Some? && ValidFont(GetFont().value) && 0 in text
      requires forall k :: 0 <= k < DrawnCount(GetXSize(), GetFont().value.width, Strlen(text)) ==> GlyphFits(GetFont().value, text[k])
      modifies mem
      ensures var f := GetFont().value;
              var n := Strlen(text);
              mem[..] == LayerPlotAll(old(mem[..]), Active(),
                                      TextWrites(f, text, DrawnCount(GetXSize(), f.width, n), StartColumn(GetXSize(), f.width, n, xpos, mode),
                                                 ypos, GetTextColor(), GetBackColor()))
    {
      ghost var f := drawProp[activeLayer].font.value;
      ghost var tc, bc := drawProp[activeLayer].textColor, drawProp[activeLayer].backColor;
      ghost var m0 := mem[..];
      ghost var l, p := layers[activeLayer], drawProp[activeLayer];
      var width := drawProp[activeLayer].font.value.width;
      var xsize := layers[activeLayer].imageWidth;
      var size := TextSize(text);
      ghost var count := DrawnCount(xsize, width, size);
      var start := TextStart(xsize, width, size, xpos, mode);
      var column := start;
      var k := 0;
      while text[k] != 0 && U16(xsize - U16(k) * width) >= width
        invariant 0 <= k <= size && width == f.width && column == start + k * f.width
        invariant StopIndex(xsize, width, size, k) == count
        invariant l == layers[activeLayer] && p == drawProp[activeLayer]
        invariant mem[..] == LayerPlotAll(m0, l, TextWrites(f, text, k, start, ypos, tc, bc))
        decreases size - k
      {
        TextGoes(text, xsize, width, size, k);
        DisplayChar(U16(column), ypos, text[k]);
        TextWritesStep(m0, l, f, text, k, start, column, ypos, tc, bc);
        column := NextColumn(start, k, column, width);
        k := k + 1;
      }
      TextStops(text, xsize, width, size, k);
    }

    /** The column of the next character, one glyph width on. */
    static method NextColumn(ghost start: int, ghost k: int, column: int, width: int) returns (next: int)
      requires column == start + k * width
      ensures next == start + (k + 1) * width
    {
      next := column + width;
    }

    /** LCD_DisplayStringAtLine: the string left-aligned at Xpos 0, which the
        start-column clamp moves to column 1, on text line `line`. LINE(line)
        is taken as line * font height, a `uint16_t` argument. */
    method DisplayStringAtLine(line: Word16, text: seq<Byte>)
      requires Valid() && GetFont().Some? && ValidFont(GetFont().value) && 0 in text
      requires forall k :: 0 <= k < DrawnCount(GetXSize(), GetFont().value.width, Strlen(text)) ==> GlyphFits(GetFont().value, text[k])
      modifies mem
      ensures var f := GetFont().value;
              mem[..] == LayerPlotAll(old(mem[..]), Active(),
                                      TextWrites(f, text, DrawnCount(GetXSize(), f.width, Strlen(text)), 1,
                                                 U16(line * f.height), GetTextColor(), GetBackColor()))
    {
      var f := drawProp[activeLayer].font.value;
      LeftStart(GetXSize(), f.width, Strlen(text), 0, LeftMode);
      DisplayStringAt(0, U16(line * f.height), text, LeftMode);
    }


  }
}
