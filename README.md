# LCD framebuffer graphics layer

This project models the drawing layer of the STM32 LCD driver in
`IAR/PLC/Src/lcd.c`. The driver keeps:

- per-layer controller geometry: image width and height, pixel format, frame buffer start;
- a per-layer drawing record: text colour, background colour, font;
- two separate layer selectors. `ActiveLayer` is used by almost everything. `LayerIndex` is used only by `LCD_InitParams` and `LCD_SetColorPixel`.

Everything it draws is integer rasterisation plus address arithmetic over frame buffer memory.

The driver is the class `Driver.Lcd`. Its memory is one byte-addressed `array<Byte>` that holds the frame buffers. Every pixel store is a little-endian 2- or 4-byte write into it.

Drawing reaches memory by three routes, each specified by a pure function of the old memory:

- **The layer path.** `LCD_DrawPixel` uses the active layer's start, width and format (`Frame.LayerPlot`, `Frame.LayerPlotAll`).
- **The fast path.** `Fast_LCD_DrawPixel` is window-checked and uses `ProjectionLayerAddress[LayerOfView]`, `DisplayWIDTH` and `LAYERS_SIZE` (`Frame.FastPlot`, `Frame.FastPlotAll`).
- **The unchecked column store.** `DrawFastLineVertical` writes without a bounds check (`Frame.ColumnFill`).

The DMA2D fill (`LL_FillBuffer`) and line conversion (`LL_ConvertLineToARGB8888`) are not applied to memory. Each call is recorded, in order, as a request in the fields `fills` and `conversions`. The fill request's geometry is then given a meaning by lemmas: which pixel addresses it covers.

The rasterisers are proved against traces:

- **Bresenham lines.** `LCD_DrawLine` and `FillTriangle`, in module `Lines`. The walk is given in closed form.
- **Polygons.** `LCD_DrawPolygon` and `LCD_FillPolygon`, in module `Polygons`.
- **Circles.** In module `Circles`:
  - the midpoint outline of `LCD_DrawCircle`;
  - the spans of `LCD_FillCircle`;
  - the `f`/`ddF_x`/`ddF_y` disc recurrence of `LCD_DrawFullCircle`.
- **Glyphs.** The glyph expansion of `DrawChar`, in module `Glyphs`.
- **Text layout.** The text layout of `LCD_DisplayStringAt`, also in module `Glyphs`.
- **Bitmaps.** The BMP header decoding and row mapping of `LCD_DrawBitmap`, in module `Bitmaps`, following the Windows bitmap format: a BITMAPFILEHEADER followed by a BITMAPINFOHEADER.

Each drawing method's `ensures` states the whole new memory, or the whole new request log, as such a trace function of the old state. The lemmas prove what the source promises about the trace: counts, end points, steps, symmetry, bounding boxes, loop invariants, decoding and read-back.

Unsigned arithmetic is written out:

- `Bytes.U16` converts a value to `uint16_t`;
- `Bytes.U32` converts a value to `uint32_t`.

The `uint16_t` parameters of the drawing functions are the subset type `Driver.Word16`.

## Model

| member | source | states |
|---|---|---|
| Driver.Lcd.constructor | IAR/PLC/Src/lcd.c:128-130 | The statically initialised state: ActiveLayer and LayerIndex are 0, both drawing records are zero with no font, and nothing has been drawn or requested. |
| Driver.Lcd.SetXSize | IAR/PLC/Src/lcd.c:166-188 | Only the active layer's image width changes, to the given value, and LCD_GetXSize then returns it. |
| Driver.Lcd.SetYSize | IAR/PLC/Src/lcd.c:175-198 | Only the active layer's image height changes, and LCD_GetYSize then returns it. |
| Driver.Lcd.GetXSize | IAR/PLC/Src/lcd.c:166-169 | The active layer's image width, which LCD_SetXSize sets (see Driver.Lcd.SetXSize). |
| Driver.Lcd.GetYSize | IAR/PLC/Src/lcd.c:175-178 | The active layer's image height, which LCD_SetYSize sets. |
| Driver.Lcd.GetTextColor | IAR/PLC/Src/lcd.c:379-382 | The active layer's text colour, which LCD_SetTextColor sets. |
| Driver.Lcd.GetBackColor | IAR/PLC/Src/lcd.c:398-401 | The active layer's background colour, which LCD_SetBackColor sets. |
| Driver.Lcd.GetFont | IAR/PLC/Src/lcd.c:417-420 | The active layer's font, which LCD_SetFont sets. |
| Driver.Lcd.ReadPixel | IAR/PLC/Src/lcd.c:428-456 | LCD_ReadPixel as written: an unsigned 32-bit value, and on an RGB565 layer the value at the address LCD_DrawPixel writes. |
| Driver.Lcd.SelectLayer | IAR/PLC/Src/lcd.c:273-276 | ActiveLayer becomes the index; nothing else changes. |
| Driver.Lcd.SetTextColor | IAR/PLC/Src/lcd.c:370-382 | Only the active layer's text colour changes. LCD_GetTextColor returns the new colour, and the background colour and font read as before. |
| Driver.Lcd.SetBackColor | IAR/PLC/Src/lcd.c:389-401 | Only the active layer's background colour changes. The text colour and font read as before. |
| Driver.Lcd.SetFont | IAR/PLC/Src/lcd.c:408-420 | Only the active layer's font changes. Both colours read as before. |
| Driver.Lcd.InitParams | IAR/PLC/Src/lcd.c:1387-1392 | LayerIndex becomes the index, and that layer's record (not the active layer's) becomes the given colours and font. |
| Driver.Lcd.SetColorPixel | IAR/PLC/Src/lcd.c:1394-1396 | The text colour of the layer LayerIndex selects changes, even when ActiveLayer differs. |
| Driver.Lcd.LayerInit | IAR/PLC/Src/lcd.c:206-266 | The drawing-record reset shared by LCD_LayerDefaultInit and LCD_LayerRgb565Init: the record of the given layer becomes black text on white with Font24, and the other layer's record is kept. |
| Driver.Lcd.Write | IAR/PLC/Src/lcd.c:904-908 | A 2- or 4-byte store changes memory exactly as `Bytes.Store` describes. |
| Driver.Lcd.DrawPixel | IAR/PLC/Src/lcd.c:899-910 | Memory afterwards is one layer write. For RGB565 that is 2 bytes of the truncated colour at 2*(y*XSize+x) past the start; for every other format it is 4 bytes at 4*(y*XSize+x). |
| Driver.Lcd.FastDrawPixel | IAR/PLC/Src/lcd.c:913-920 | The word at base+4*(y*DisplayWIDTH+x) gets the colour only when that address lies in [base, base+LAYERS_SIZE). Otherwise memory is unchanged. |
| Driver.Lcd.DrawFastLineVertical | IAR/PLC/Src/lcd.c:1445-1456 | Rows min(y1,y2) to max(y1,y2) of column x1 get the text colour, with no bounds check, so the same cells are written for either argument order. |
| Driver.Lcd.FillBuffer | IAR/PLC/Src/lcd.c:1309-1337 | One fill request is appended. It carries the layer, destination, sizes, line offset and colour, and the active layer's pixel format chooses the DMA2D colour mode. |
| Driver.Lcd.ConvertLine | IAR/PLC/Src/lcd.c:1347-1374 | One conversion request of one row is appended, with its source, destination, width and input colour mode. |
| Driver.Lcd.DrawBitmap | IAR/PLC/Src/lcd.c:928-979 | Exactly the conversions `Bitmaps.BitmapRows` lists for the decoded header are appended, one per bitmap row, top row first. |
| Driver.Lcd.StartAddress | IAR/PLC/Src/lcd.c:590-597 | The start address of the fills is pixel (x, y)'s address in the active layer: 2 bytes per pixel for RGB565, 4 bytes otherwise. |
| Driver.Lcd.DrawHLine | IAR/PLC/Src/lcd.c:585-601 | Appends one request of Length pixels by 1 row, with no line offset, in the text colour. |
| Driver.Lcd.DrawVLine | IAR/PLC/Src/lcd.c:610-626 | Appends one request of 1 pixel by Length rows, with line offset XSize-1, in the text colour. |
| Driver.Lcd.DrawRect | IAR/PLC/Src/lcd.c:713-722 | Appends four line requests in source order: the top edge, the edge at Ypos+Height, the left edge, the edge at Xpos+Width. |
| Driver.Lcd.FillRect | IAR/PLC/Src/lcd.c:989-1007 | Appends one request of Width by Height pixels, with line offset XSize-Width. |
| Driver.Lcd.Clear | IAR/PLC/Src/lcd.c:463-467 | Appends one request covering the whole layer, from its frame buffer start, in the given colour. |
| Driver.Lcd.ClearStringLine | IAR/PLC/Src/lcd.c:474-485 | Appends one background-coloured rectangle request with these fields: row Line*FontHeight, full width, font height tall. The drawing records afterwards equal the old ones, so the text colour is restored. |
| Driver.Lcd.WalkSetup | IAR/PLC/Src/lcd.c:642-686 | The deltas, the four increments, den, num = den/2, num_add and num_pixels are those of the walk `Lines.Setup`. |
| Driver.Lcd.NextPosition | IAR/PLC/Src/lcd.c:693-701 | One loop step takes position k and numerator k of the walk to position k+1 and numerator k+1. |
| Driver.Lcd.DrawLine | IAR/PLC/Src/lcd.c:636-703 | For a walk whose `int16_t` locals cannot wrap (`Lines.FitsInt16`), memory afterwards is the fast writes, in the text colour, of exactly the pixels `Lines.LinePixels` gives, in order. |
| Driver.Lcd.FillTriangle | IAR/PLC/Src/lcd.c:1231-1297 | For vertices below 0x4000, memory afterwards is one LCD_DrawLine from each position of the walk from (x1,y1) to (x2,y2) towards (x3,y3), in order. |
| Driver.Lcd.DrawPolygon | IAR/PLC/Src/lcd.c:838-856 | For points in [0, 0x4000), memory afterwards is LCD_DrawLine applied to `Polygons.PolygonSegments` of the first PointCount points. That is nothing below two points; otherwise the closing edge and then each edge i to i+1. |
| Driver.Lcd.PolygonClosing | IAR/PLC/Src/lcd.c:847 | The first draw is the closing edge from point 0 to the last point. |
| Driver.Lcd.PolygonEdges | IAR/PLC/Src/lcd.c:849-855 | After the loop, every edge segment has been drawn after the closing edge. |
| Driver.Lcd.PolygonEdge | IAR/PLC/Src/lcd.c:851-854 | One pass draws the next edge, i to i+1. |
| Driver.Lcd.PolygonBox | IAR/PLC/Src/lcd.c:1069-1093 | The bounding box is `Polygons.BoxOf` of the points. Point 0 is read even when PointCount is 0. |
| Driver.Lcd.FillPolygon | IAR/PLC/Src/lcd.c:1064-1122 | For points in [0, 0x4000), memory afterwards is FillTriangle of each triangle `Polygons.PolygonTriangles` lists, in order. That is nothing below two points. |
| Driver.Lcd.FillEdgeFans | IAR/PLC/Src/lcd.c:1106-1117 | The loop fills the three triangles of every edge i to i+1 around the centre. |
| Driver.Lcd.EdgeFanFill | IAR/PLC/Src/lcd.c:1108-1116 | One pass adds the fan of one edge. |
| Driver.Lcd.FanFill | IAR/PLC/Src/lcd.c:1114-1116 | The three FillTriangle calls of one edge, in source vertex order. |
| Driver.Lcd.FillOne | IAR/PLC/Src/lcd.c:1114 | One FillTriangle call adds one triangle to the fill trace. |
| Driver.Lcd.CircleNext | IAR/PLC/Src/lcd.c:759-768 | The decision update and the x and y steps are `Circles.CircleStep`. |
| Driver.Lcd.CircleStepDraw | IAR/PLC/Src/lcd.c:743-757 | The eight Fast_LCD_DrawPixel calls of one step, with their `uint16_t` conversions, in source order. |
| Driver.Lcd.CircleStepAt | IAR/PLC/Src/lcd.c:741-769 | One loop pass moves one step from the steps still to come to the steps drawn, and its writes follow those of the earlier steps. |
| Driver.Lcd.DrawCircle | IAR/PLC/Src/lcd.c:731-770 | Memory afterwards is the fast writes of `Circles.CircleWrites`: for every step of the midpoint recurrence from (0, R), its eight symmetric pixels. |
| Driver.Lcd.CircleStepRuns | IAR/PLC/Src/lcd.c:1031-1041 | The two horizontal runs at Ypos±x when y > 0, then the two at Ypos∓y when x > 0, are appended as line requests. |
| Driver.Lcd.CircleRunsAt | IAR/PLC/Src/lcd.c:1029-1052 | One loop pass appends its runs and moves one step along the shared recurrence. |
| Driver.Lcd.FillCircle | IAR/PLC/Src/lcd.c:1016-1056 | The fill requests appended are the runs of every step. Memory afterwards is the outline LCD_DrawCircle draws. |
| Driver.Lcd.DiscNext | IAR/PLC/Src/lcd.c:801-809 | The updates of y, ddF_y, f, x and ddF_x are `Circles.DiscStep`. |
| Driver.Lcd.DiscSpansDraw | IAR/PLC/Src/lcd.c:812-825 | The four DrawFastLineVertical calls of one pass, in order. |
| Driver.Lcd.DiscPassAt | IAR/PLC/Src/lcd.c:796-828 | One loop pass: the state advances along `Circles.DiscFrom`, and its four spans follow the spans of the earlier passes. |
| Driver.Lcd.DrawFullCircle | IAR/PLC/Src/lcd.c:772-831 | Memory afterwards is the centre column drawn by LCD_DrawLine, then the four column spans of every pass of the disc recurrence. |
| Driver.Lcd.DrawChar | IAR/PLC/Src/lcd.c:1172-1219 | Memory afterwards is the layer writes listed by `Glyphs.GlyphWrites`: H*W pixels, row by row, each in the text or background colour. |
| Driver.Lcd.GlyphRowDraw | IAR/PLC/Src/lcd.c:1187-1217 | One row of the glyph is drawn: the W writes of `Glyphs.GlyphRow`. |
| Driver.Lcd.GlyphLine | IAR/PLC/Src/lcd.c:1189-1204 | The combined row value is `Glyphs.RowBits`: 1, 2 or 3 bytes, big-endian. |
| Driver.Lcd.GlyphPixel | IAR/PLC/Src/lcd.c:1208-1215 | Pixel j of row i is written with the colour its bit selects. |
| Driver.Lcd.DisplayChar | IAR/PLC/Src/lcd.c:494-498 | DrawChar of the glyph at table index (Ascii-' ')*H*((W+7)/8), in the active layer's colours. |
| Driver.Lcd.TextSize | IAR/PLC/Src/lcd.c:519 | The counted size is the string's length up to its NUL. |
| Driver.Lcd.TextStart | IAR/PLC/Src/lcd.c:522-552 | The start column is `Glyphs.StartColumn`. |
| Driver.Lcd.NextColumn | IAR/PLC/Src/lcd.c:560 | The column of character k+1 is the start column plus (k+1)*W. |
| Driver.Lcd.DisplayStringAt | IAR/PLC/Src/lcd.c:512-565 | Memory afterwards is the glyphs of the first `Glyphs.DrawnCount` characters. Character k is drawn at column ref_column+k*W, truncated to `uint16_t`. |
| Driver.Lcd.DisplayStringAtLine | IAR/PLC/Src/lcd.c:573-576 | Left-aligned text from column 1 (Xpos 0 is clamped to 1) on row Line*FontHeight. |
| Frame.WriteBytes | IAR/PLC/Src/lcd.c:902-909 | A write is 2 bytes exactly for RGB565 and 4 bytes otherwise. |
| Frame.PixelAddress | IAR/PLC/Src/lcd.c:899-910 | The address LCD_DrawPixel writes for pixel (x, y): the layer start plus 2 or 4 bytes per pixel times XSize*y+x. Distinct pixels within the row width get distinct addresses (Fills.PixelAddressInjective). |
| Frame.FastAddress | IAR/PLC/Src/lcd.c:916 | The word Fast_LCD_DrawPixel addresses: base + 4*(y*DisplayWIDTH + x), with the coordinates as `uint16_t`. |
| Frame.InWindow | IAR/PLC/Src/lcd.c:917 | The window test of Fast_LCD_DrawPixel: base-1 < a < base+LAYERS_SIZE, that is a in [base, base+LAYERS_SIZE). |
| Frame.ColumnAddress | IAR/PLC/Src/lcd.c:1453-1454 | The word DrawFastLineVertical writes for row y of column x: base + 4*y*DisplayWIDTH + 4*x. |
| Frame.FastPlot | IAR/PLC/Src/lcd.c:913-920 | One Fast_LCD_DrawPixel call keeps the memory's size; which bytes it changes is stated by Frame.FastPlotAllBytes. |
| Frame.ColumnFill | IAR/PLC/Src/lcd.c:1445-1456 | DrawFastLineVertical's rows lo to hi keep the memory's size; which bytes they change is stated by Frame.ColumnFillBytes. |
| Frame.LayerPlot | IAR/PLC/Src/lcd.c:899-910 | One LCD_DrawPixel call keeps the memory's size; it is the store of Bytes.Store at Frame.PixelAddress. |
| Frame.FastPlotAllBytes | IAR/PLC/Src/lcd.c:916-919 | After fast writes, a byte holds the colour's byte exactly when some drawn point's in-window word covers it. Otherwise it keeps its old value. |
| Frame.FastPlotAllWord | IAR/PLC/Src/lcd.c:916-919 | Every drawn point whose address lies in the window and in memory reads back the colour. |
| Frame.FastPlotAllFrame | IAR/PLC/Src/lcd.c:917-918 | A byte that no in-window word covers keeps its value: points outside the window change nothing. |
| Frame.FastByteOffset | IAR/PLC/Src/lcd.c:916 | Fast addresses are whole words from the base, so a covered byte's position in its word is its distance from the base mod 4. |
| Frame.ColumnFillBytes | IAR/PLC/Src/lcd.c:1452-1454 | After a column fill, a byte holds the colour's byte exactly when the word of some row from lo to hi covers it. Otherwise it keeps its old value. |
| Frame.ColumnFillWord | IAR/PLC/Src/lcd.c:1452-1454 | Every row of the column that lies in memory reads back the colour, with no window check. |
| Frame.ColumnWordsDisjoint | IAR/PLC/Src/lcd.c:1453 | With a positive display width, the rows of one column are disjoint words. So exactly hi-lo+1 words are written. |
| Frame.FastPlotAllAppend | IAR/PLC/Src/lcd.c:691 | Drawing two traces one after the other is drawing their concatenation. |
| Frame.LayerPlotAllAppend | IAR/PLC/Src/lcd.c:1210-1214 | The same composition law for layer writes. |
| Bytes.Store | IAR/PLC/Src/lcd.c:904-908 | A little-endian store changes exactly the n bytes from the address, to the value's bytes. |
| Bytes.LoadStore32 | IAR/PLC/Src/lcd.c:908 | Reading back a 32-bit store gives the stored colour. |
| Bytes.LoadStore16 | IAR/PLC/Src/lcd.c:904 | Reading back a 16-bit store gives the colour cast to `uint16_t`. |
| Bytes.U16 | IAR/PLC/Src/lcd.c:514 | The conversion to `uint16_t` lies in [0, 2^16), is the identity there, and agrees with the value modulo 2^16. |
| Bytes.U32 | IAR/PLC/Src/lcd.c:515 | The conversion to `uint32_t` lies in [0, 2^32), is the identity there, and agrees with the value modulo 2^32. |
| Pixels.ReadBytes | IAR/PLC/Src/lcd.c:432-453 | LCD_ReadPixel loads 4 bytes for ARGB8888 and RGB888, 2 for RGB565, ARGB4444 and AL88, and 1 otherwise. |
| Pixels.ReadAddress | IAR/PLC/Src/lcd.c:432-450 | The address LCD_ReadPixel reads is the address LCD_DrawPixel writes on RGB565; on the 4-byte formats it is that address only for the pixel at offset 0. |
| Pixels.ReadPixel | IAR/PLC/Src/lcd.c:428-456 | The as-written read lies in [0, 2^32), is below 2^16 for the 2-byte formats, and on RGB565 equals the read at the writer's address. |
| Pixels.Loaded | IAR/PLC/Src/lcd.c:432-453 | The value read is an unsigned 32-bit value (RGB888 masked to 24 bits). |
| Pixels.ReadBackAtWrite | IAR/PLC/Src/lcd.c:428-456 | A read at the address LCD_DrawPixel writes returns the written colour, as far as the format keeps it. |
| Pixels.ReadBackRgb565 | IAR/PLC/Src/lcd.c:442-447 | On an RGB565 layer, LCD_ReadPixel as written returns what LCD_DrawPixel wrote, truncated to 16 bits. |
| Pixels.ReadPixelMissesArgb8888 | IAR/PLC/Src/lcd.c:432-436 | Counterexample: on an ARGB8888 layer, reading pixel (1, 0) as written returns 0xFFFF0000 after 0xFFFFFFFF was drawn there. |
| Pixels.LoadStoreLow16 | IAR/PLC/Src/lcd.c:447 | A 16-bit load at the start of a store of 2 or more bytes returns the low 16 bits. |
| Fills.RectCells | IAR/PLC/Src/lcd.c:989-1007 | Row r, column k of a fill-rectangle request is the address of pixel (x+k, y+r), when the rectangle is no wider than the layer. |
| Fills.HLineCells | IAR/PLC/Src/lcd.c:585-601 | Cell k of a horizontal line request is pixel (x+k, y). |
| Fills.VLineCells | IAR/PLC/Src/lcd.c:610-626 | Row r of a vertical line request is pixel (x, y+r). |
| Fills.ClearCells | IAR/PLC/Src/lcd.c:463-467 | Cell (k, r) of the clear request is pixel (k, r) of the layer. |
| Fills.CoversHLine | IAR/PLC/Src/lcd.c:585-601 | A horizontal request covers an address exactly when it is one of its Length pixels (both directions). |
| Fills.CoversVLine | IAR/PLC/Src/lcd.c:610-626 | A vertical request covers an address exactly when it is one of its Length pixels (both directions). |
| Fills.CoversRect | IAR/PLC/Src/lcd.c:989-1007 | A rectangle request covers an address exactly when it is one of its Width*Height pixels (both directions). |
| Fills.RectOutlineCells | IAR/PLC/Src/lcd.c:713-722 | LCD_DrawRect's four requests cover the top and bottom edges (x+k) and the left and right edges (y+k). |
| Fills.RectOutlineMissesCorner | IAR/PLC/Src/lcd.c:716-721 | The corner (Xpos+Width, Ypos+Height) is covered by none of the four requests: the outline is open there. |
| Fills.RowMisses | IAR/PLC/Src/lcd.c:585-601 | A horizontal request inside the row misses every pixel off its run. |
| Fills.ColumnMisses | IAR/PLC/Src/lcd.c:610-626 | A vertical request misses every pixel off its run. |
| Fills.PixelAddressInjective | IAR/PLC/Src/lcd.c:592-596 | Two pixels within the row width share an address only when they are the same pixel. |
| Fills.NotSamePixel | IAR/PLC/Src/lcd.c:592-596 | Distinct pixels have distinct addresses. |
| Fills.HLineRequest | IAR/PLC/Src/lcd.c:592-600 | The request LCD_DrawHLine makes; the addresses it covers are stated by Fills.HLineCells and Fills.CoversHLine. |
| Fills.VLineRequest | IAR/PLC/Src/lcd.c:617-625 | The request LCD_DrawVLine makes; the addresses it covers are stated by Fills.VLineCells and Fills.CoversVLine. |
| Fills.RectRequest | IAR/PLC/Src/lcd.c:997-1006 | The request LCD_FillRect makes; the addresses it covers are stated by Fills.RectCells and Fills.CoversRect. |
| Fills.ClearRequest | IAR/PLC/Src/lcd.c:466 | The request LCD_Clear makes; the addresses it covers are stated by Fills.ClearCells. |
| Fills.RectOutline | IAR/PLC/Src/lcd.c:716-721 | The four requests of LCD_DrawRect, in source order; what they cover is stated by Fills.RectOutlineCells and Fills.RectOutlineMissesCorner. |
| Lines.Setup | IAR/PLC/Src/lcd.c:642-686 | num_add <= den = num_pixels = max(\|dx\|, \|dy\|), and the directions are ±1. |
| Lines.WalkPoint | IAR/PLC/Src/lcd.c:688-701 | The position after k steps, in closed form; Lines.IncrementStep ties it to the source's loop body. |
| Lines.LinePixels | IAR/PLC/Src/lcd.c:688-702 | The num_pixels+1 positions LCD_DrawLine visits; their count, ends, steps and distinctness are the Lines lemmas below. |
| Lines.FitsInt16 | IAR/PLC/Src/lcd.c:638-640 | The condition under which LCD_DrawLine's `int16_t` locals cannot wrap: den+num_add <= 0x8000 and den < 0x7FFF. |
| Lines.FitsInt16Values | IAR/PLC/Src/lcd.c:688-699 | Under Lines.FitsInt16, num+num_add and curpixel+1 stay in [0, 0x8000) at every pass, so the locals hold the values the model computes. |
| Lines.SmallFitsInt16 | IAR/PLC/Src/lcd.c:642-686 | End points in [0, 0x4000) always give a walk that fits. |
| Lines.VerticalFitsInt16 | IAR/PLC/Src/lcd.c:786 | A vertical line shorter than 0x7FFF fits, as the centre line of LCD_DrawFullCircle does. |
| Lines.WalkStep | IAR/PLC/Src/lcd.c:693-699 | In closed form, the numerator wraps (subtracting den) exactly when the minor coordinate moves. |
| Lines.WalkAdvance | IAR/PLC/Src/lcd.c:693-701 | Each step moves the driving coordinate by its direction, and the other exactly when the numerator wraps. |
| Lines.IncrementStep | IAR/PLC/Src/lcd.c:693-701 | The source's increments xinc1/xinc2/yinc1/yinc2 realise that step in both branches of the test. |
| Lines.ResidueRange | IAR/PLC/Src/lcd.c:693-699 | The numerator stays in [0, den) when den > 0. |
| Lines.WalkStart | IAR/PLC/Src/lcd.c:644-686 | The walk starts at (x1, y1) with num = den/2. |
| Lines.WalkEnd | IAR/PLC/Src/lcd.c:688-702 | After den steps the minor coordinate has moved exactly num_add times. |
| Lines.MinorStepsMonotone | IAR/PLC/Src/lcd.c:693-699 | The minor coordinate's step count never decreases. |
| Lines.LinePixelCount | IAR/PLC/Src/lcd.c:688 | LCD_DrawLine visits exactly max(\|x2-x1\|, \|y2-y1\|)+1 pixels. |
| Lines.LineEndpoints | IAR/PLC/Src/lcd.c:644-702 | The first pixel is (x1, y1) and the last is (x2, y2). |
| Lines.LineStep | IAR/PLC/Src/lcd.c:693-701 | Between consecutive pixels, the driving coordinate moves exactly one unit towards the end and the other moves zero or one unit. |
| Lines.LineNoRepeat | IAR/PLC/Src/lcd.c:688-702 | No pixel is visited twice. |
| Lines.WalkInBox | IAR/PLC/Src/lcd.c:688-702 | Every visited pixel lies in the bounding box of the end points. |
| Polygons.PlotLinesPixels | IAR/PLC/Src/lcd.c:847-854 | Drawing segments one by one writes the pixels of all of them in order. |
| Polygons.PolygonSegments | IAR/PLC/Src/lcd.c:847-855 | The lines LCD_DrawPolygon draws; their number and order are stated by Polygons.PolygonSegmentsWhole and Polygons.PolygonClosed. |
| Polygons.TriangleSegments | IAR/PLC/Src/lcd.c:1283-1296 | The lines FillTriangle draws; their shape is stated by Polygons.TriangleSegmentsShape and Polygons.TriangleSegmentAt. |
| Polygons.BoxOf | IAR/PLC/Src/lcd.c:1069-1093 | The bounding box of the points; it is tight (Polygons.BoxOfTight). |
| Polygons.Center | IAR/PLC/Src/lcd.c:1100-1101 | The rounded-down centre of the box; it lies in the box (Polygons.CenterInBox). |
| Polygons.Fan | IAR/PLC/Src/lcd.c:1114-1116 | The three FillTriangle vertex orders of one edge around the centre. |
| Polygons.PolygonTriangles | IAR/PLC/Src/lcd.c:1100-1121 | The triangles LCD_FillPolygon fills; their count and vertices are stated by Polygons.PolygonTriangleCount and Polygons.PolygonTrianglesHaveCenter. |
| Polygons.SegmentsPixelsAppend | IAR/PLC/Src/lcd.c:849-855 | The pixel trace of concatenated segment lists is the concatenation of their traces. |
| Polygons.SegmentsPixelsFrom | IAR/PLC/Src/lcd.c:849-855 | Every pixel of a segment list is a pixel of one of its segments. |
| Polygons.PlotLinesPrefix | IAR/PLC/Src/lcd.c:849-855 | One more segment is one more line's fast writes. |
| Polygons.TriangleSegmentsShape | IAR/PLC/Src/lcd.c:1283-1296 | FillTriangle draws max(\|x2-x1\|, \|y2-y1\|)+1 lines, all ending at (x3, y3). The first starts at (x1, y1), the last at (x2, y2), and consecutive starts are neighbouring pixels. |
| Polygons.TriangleSegmentAt | IAR/PLC/Src/lcd.c:1283-1296 | Line k of FillTriangle starts at position k of the walk, which lies between the first two vertices. |
| Polygons.TriangleInBox | IAR/PLC/Src/lcd.c:1231-1297 | Every pixel FillTriangle draws lies in the bounding box of its three vertices. |
| Polygons.PolygonSegmentsWhole | IAR/PLC/Src/lcd.c:847-855 | LCD_DrawPolygon's segment list has exactly PointCount entries. |
| Polygons.PolygonClosed | IAR/PLC/Src/lcd.c:847-855 | There are PointCount line draws. Draw i+1 is edge i to i+1, and draw 0 is the closing edge, drawn from point 0 to the last point. |
| Polygons.BoxOfTight | IAR/PLC/Src/lcd.c:1069-1093 | The box holds every point, and each of its four sides touches a point. |
| Polygons.EdgeFans | IAR/PLC/Src/lcd.c:1106-1117 | The loop fills 3 triangles for each of the PointCount-1 edges. |
| Polygons.EdgeFansPrefix | IAR/PLC/Src/lcd.c:1106-1117 | Walking one more edge adds that edge's three triangles. |
| Polygons.PolygonTriangleCount | IAR/PLC/Src/lcd.c:1106-1121 | LCD_FillPolygon fills exactly 3*PointCount triangles. |
| Polygons.PolygonTrianglesHaveCenter | IAR/PLC/Src/lcd.c:1100-1121 | Every triangle has the bounding box's centre as a vertex. |
| Polygons.EdgeFansHaveCenter | IAR/PLC/Src/lcd.c:1114-1116 | Every fan triangle has the centre as a vertex. |
| Polygons.EdgeFansVertices | IAR/PLC/Src/lcd.c:1108-1116 | Every fan vertex is one of the points or the centre. |
| Polygons.CenterInBox | IAR/PLC/Src/lcd.c:1100-1101 | The centre (rounded down) lies inside the bounding box. |
| Polygons.CenterWithin | IAR/PLC/Src/lcd.c:1100-1101 | When all coordinates lie in [lo, hi), so does the centre. |
| Polygons.PolygonVerticesInBox | IAR/PLC/Src/lcd.c:1100-1121 | All vertices of all filled triangles lie in the bounding box. |
| Polygons.PolygonFillInBox | IAR/PLC/Src/lcd.c:1064-1122 | Every pixel LCD_FillPolygon draws lies in the bounding box of its points. |
| Polygons.PlotTrianglesPixels | IAR/PLC/Src/lcd.c:1114-1121 | Filling triangles one by one writes the pixels of all their lines in order. |
| Polygons.TrianglesInBox | IAR/PLC/Src/lcd.c:1283-1296 | The pixels of triangles whose vertices lie in a box lie in that box. |
| Circles.CircleStepDecision | IAR/PLC/Src/lcd.c:759-768 | The recurrence keeps the decision equal to twice the midpoint test of the next pixel, plus a constant. |
| Circles.CircleStep | IAR/PLC/Src/lcd.c:759-768 | The signed step of the outline recurrence; Circles.CircleStepDecision and Circles.CircleFromShape state what it keeps. |
| Circles.StepWrites | IAR/PLC/Src/lcd.c:743-757 | The eight pixel arguments of one step, with their `uint16_t` conversions; Circles.StepWritesInRange relates them to the reflections. |
| Circles.CircleFromShape | IAR/PLC/Src/lcd.c:741-769 | The visited steps have x increasing by one, x <= y, and y staying or dropping by one at each step. The walk starts at (x, y) when x <= y. |
| Circles.CircleStepsShape | IAR/PLC/Src/lcd.c:737-769 | For radius R, step k is at x = k with k <= y <= R, starting at (0, R). |
| Circles.CircleFromPositive | IAR/PLC/Src/lcd.c:766 | For a positive radius, y stays >= 1, so the unsigned current_y never wraps. |
| Circles.CircleInRange | IAR/PLC/Src/lcd.c:743-757 | Away from the 16-bit edges, the `uint16_t` conversions change nothing: the writes are the eight reflections of every step. |
| Circles.StepWritesInRange | IAR/PLC/Src/lcd.c:743-757 | The same result for one step. |
| Circles.CircleWritesAt | IAR/PLC/Src/lcd.c:743-757 | Write 8k+j of the outline is write j of step k. |
| Circles.CirclePixelsAt | IAR/PLC/Src/lcd.c:743-757 | Pixel 8k+j is reflection j of step k. |
| Circles.CircleSymmetric | IAR/PLC/Src/lcd.c:743-757 | The outline is symmetric: each drawn pixel's mirror images in both axes through the centre, and across the diagonal, are drawn too. |
| Circles.OctantMirrors | IAR/PLC/Src/lcd.c:743-757 | Within one step's eight pixels, the mirror images of each pixel are again among them. |
| Circles.OctantDrawn | IAR/PLC/Src/lcd.c:743-757 | Every reflection of every step is drawn. |
| Circles.CircleWritesStep | IAR/PLC/Src/lcd.c:743-757 | The eight writes of one more step follow those of the earlier steps. |
| Circles.CircleFromNext | IAR/PLC/Src/lcd.c:741-769 | A running step moves from the steps to come to the steps done. |
| Circles.RadiusZeroKeepsLooping | IAR/PLC/Src/lcd.c:737-769 | Counterexample: with Radius 0 the first step leaves current_y = 0xFFFFFFFF and current_x = 1, and the loop guard still holds. |
| Circles.RadiusZeroSingleStep | IAR/PLC/Src/lcd.c:737-769 | With signed coordinates, radius 0 gives the single step (0, 0). |
| Circles.CircleStepAgrees | IAR/PLC/Src/lcd.c:759-768 | On a step with x <= y, y >= 1 and a decision far from the `int32_t` limits, the as-written step and the signed step agree. |
| Circles.CircleStepAsWritten | IAR/PLC/Src/lcd.c:759-768 | The step with the source's machine types: `uint32_t` coordinates, the unsigned increment and the `int32_t` decision; Circles.RadiusZeroKeepsLooping and Circles.CircleStepAgrees are its properties. |
| Circles.AsWrittenRun | IAR/PLC/Src/lcd.c:733-769 | The source's loop with its machine types, from a given state, visits exactly the given positions and then stops. |
| Circles.DecisionBounded | IAR/PLC/Src/lcd.c:735 | The bound -4R <= d < 4x+10 the decision keeps at every visited step. |
| Circles.CircleStepBounded | IAR/PLC/Src/lcd.c:759-768 | A step from a visited position keeps y in [0, R] and, while the loop goes on, the decision bound. |
| Circles.CircleFromAsWritten | IAR/PLC/Src/lcd.c:741-769 | From a state that keeps the bound, the as-written loop visits exactly the positions of the signed recurrence and stops. |
| Circles.CircleStepsAsWritten | IAR/PLC/Src/lcd.c:733-769 | For every radius from 1 to 0xFFFF, LCD_DrawCircle's loop as written visits exactly the steps of the signed recurrence and then stops. |
| Circles.DiscStartInvariant | IAR/PLC/Src/lcd.c:776-800 | The identities ddF_x = 2x+1, ddF_y = -2y and f = x²+y²-r²+2x-y+1 from the source's comments hold at loop entry. |
| Circles.DiscStep | IAR/PLC/Src/lcd.c:801-809 | One pass of the disc recurrence; Circles.DiscStepInvariant states what it keeps. |
| Circles.DiscSpans | IAR/PLC/Src/lcd.c:812-825 | The four DrawFastLineVertical spans of one pass, with their `uint16_t` conversions; Circles.DiscSpanHeights gives their heights. |
| Circles.DiscStepInvariant | IAR/PLC/Src/lcd.c:796-809 | One pass keeps the three identities, moves x up by one, and moves y down by at most one. |
| Circles.DiscFromShape | IAR/PLC/Src/lcd.c:796-828 | The identities hold at every pass, x rises by one per pass, y never increases, the loop ends with x >= y, and it makes no pass exactly when x >= y at the start. |
| Circles.DiscSpanHeights | IAR/PLC/Src/lcd.c:812-825 | Inside the 16-bit range, the first two spans of a pass are 2y+1 rows tall at columns Xpos±x, and the other two are 2x+1 rows tall at Xpos±y. |
| Circles.DiscPassSpans | IAR/PLC/Src/lcd.c:812-825 | The four column writes of a pass are its four spans, one after another. |
| Circles.DiscPassFill | IAR/PLC/Src/lcd.c:796-828 | The spans of one more pass follow those of the earlier passes. |
| Circles.DiscFromNext | IAR/PLC/Src/lcd.c:796 | A pass that runs (x < y) is followed by the passes from its end state. |
| Circles.SpansFillAppend | IAR/PLC/Src/lcd.c:812-825 | Filling two span lists one after the other is filling their concatenation. |
| Circles.StepRuns | IAR/PLC/Src/lcd.c:1031-1041 | A step yields 2 runs when y > 0 plus 2 more when x > 0. |
| Circles.CircleRunsOfSnoc | IAR/PLC/Src/lcd.c:1029-1052 | The runs of one more step follow those of the earlier steps. |
| Circles.FillCircleRunMeetsOutline | IAR/PLC/Src/lcd.c:1033-1055 | The first run of step k is the line request of the 2y pixels from (Xpos-y, Ypos+x). The pixel just past its end, (Xpos+y, Ypos+x), is write 8k+6 of the closing LCD_DrawCircle, so the outline completes the run. |
| Glyphs.RowBytes | IAR/PLC/Src/lcd.c:1187-1189 | A row takes (W+7)/8 bytes: the least number of bytes holding W bits. |
| Glyphs.Offset | IAR/PLC/Src/lcd.c:1183 | offset = 8*((W+7)/8)-W lies in [0, 8). |
| Glyphs.GlyphIndex | IAR/PLC/Src/lcd.c:496-497 | The glyph of a character from ' ' on starts at a non-negative table index. |
| Glyphs.RowBits | IAR/PLC/Src/lcd.c:1189-1204 | The combined row value is below 2^24. |
| Glyphs.RowStart | IAR/PLC/Src/lcd.c:1187 | Row i starts at c+((W+7)/8)*i, and the bytes it reads lie in the table. |
| Glyphs.GlyphWritesAt | IAR/PLC/Src/lcd.c:1185-1218 | DrawChar makes exactly H*W writes. Write i*W+j is pixel (Xpos+j, Ypos+i), in the text colour exactly when bit W-j+offset-1 of row i is set and in the background colour otherwise. |
| Glyphs.GlyphWrite | IAR/PLC/Src/lcd.c:1208-1215 | The write of pixel j of row i of a glyph, in the colour its bit selects; Glyphs.GlyphWritesAt places it in the glyph's writes. |
| Glyphs.GlyphRowsAt | IAR/PLC/Src/lcd.c:1185-1218 | The first n rows hold n*W writes, and write i*W+j is pixel j of row i. |
| Glyphs.GlyphRowsLength | IAR/PLC/Src/lcd.c:1185-1218 | The first n rows hold n*W writes. |
| Glyphs.GlyphRowsStep | IAR/PLC/Src/lcd.c:1185-1218 | A drawn row completes the first i+1 rows. |
| Glyphs.PixelOnIsTableBit | IAR/PLC/Src/lcd.c:1187-1208 | For W <= 24, pixel j of row i is on exactly when bit 7-j%8 of table byte c+((W+7)/8)*i+j/8 is set: the glyph is stored MSB first. |
| Glyphs.RowBitsMsbFirst | IAR/PLC/Src/lcd.c:1193-1202 | The row combination places byte k at bits 8*(nb-1-k) and up. |
| Glyphs.MsbTwo | IAR/PLC/Src/lcd.c:1197 | The two-byte row is big-endian. |
| Glyphs.MsbThree | IAR/PLC/Src/lcd.c:1202 | The three-byte row is big-endian. |
| Glyphs.BitByPow2 | IAR/PLC/Src/lcd.c:1208 | The test `line & (1 << n)` is the parity of line / 2^n. |
| Glyphs.Strlen | IAR/PLC/Src/lcd.c:519 | The size counted is the index of the first NUL: every earlier byte is non-zero. |
| Glyphs.StartColumn | IAR/PLC/Src/lcd.c:524-552 | The start column always lies in [1, 0x8000). |
| Glyphs.LeftStart | IAR/PLC/Src/lcd.c:531-552 | LEFT and unknown modes start at Xpos itself when it lies in [1, 0x8000), and at 1 otherwise. |
| Glyphs.CenterMargins | IAR/PLC/Src/lcd.c:526-529 | With Xpos = 0 and no clamping, the centred start is ref = ((XSize/W-size)*W)/2, the left margin ref is no wider than the right margin XSize-ref-size*W, and the right one is wider by at most W. |
| Glyphs.RightAligned | IAR/PLC/Src/lcd.c:536-539 | With Xpos = 0, right-aligned text ends at the last whole character cell: ref+size*W = (XSize/W)*W. |
| Glyphs.StopIndex | IAR/PLC/Src/lcd.c:555 | The loop stops at an index between its start and the string length. |
| Glyphs.TextGoes | IAR/PLC/Src/lcd.c:555-563 | While a character is left and the room test passes, character k is drawn and the stop index lies further on. |
| Glyphs.TextStops | IAR/PLC/Src/lcd.c:555 | When the string has ended or there is no room, drawing stops at k. |
| Glyphs.StopTest | IAR/PLC/Src/lcd.c:555 | For XSize < 2^16, the masked room test passes exactly when k < XSize/W. |
| Glyphs.StopIndexFrom | IAR/PLC/Src/lcd.c:555-564 | From any index below the limit, the loop stops at min(strlen, XSize/W). |
| Glyphs.DrawnCount | IAR/PLC/Src/lcd.c:555-564 | The number of characters LCD_DisplayStringAt draws; Glyphs.DrawnCountIsMin shows it is min(strlen, XSize/W). |
| Glyphs.DrawnCountIsMin | IAR/PLC/Src/lcd.c:555-564 | For XSize < 2^16 and W >= 1, exactly min(strlen, XSize/W) characters are drawn. |
| Glyphs.TextWritesLength | IAR/PLC/Src/lcd.c:555-564 | count characters make count*H*W writes. |
| Glyphs.TextWrites | IAR/PLC/Src/lcd.c:555-564 | The layer writes of the first count characters; Glyphs.TextWritesLength and Glyphs.TextWritesStep state their length and order. |
| Glyphs.TextWritesStep | IAR/PLC/Src/lcd.c:558-560 | Drawing character k at column ref+k*W, truncated to `uint16_t`, completes the first k+1 characters. |
| Bitmaps.Field32 | IAR/PLC/Src/lcd.c:935-944 | A field of two little-endian halves, low \| high << 16, is an unsigned 32-bit value. |
| Bitmaps.Field32Store | IAR/PLC/Src/lcd.c:935-944 | A field reads back what a 32-bit little-endian store put there. |
| Bitmaps.DecodeHeader | IAR/PLC/Src/lcd.c:935-947 | The offset, width, height and bit count LCD_DrawBitmap reads; Bitmaps.DecodeEncode and Bitmaps.DecodeReadsHeaderBytes state what it decodes. |
| Bitmaps.DecodeEncode | IAR/PLC/Src/lcd.c:935-947 | Decoding the header of a bitmap written in BMP layout gives back its bfOffBits, biWidth, biHeight and biBitCount. |
| Bitmaps.DecodeReadsHeaderBytes | IAR/PLC/Src/lcd.c:935-947 | Only bytes 10 to 29 of the file decide the decoded header. |
| Bitmaps.InputMode | IAR/PLC/Src/lcd.c:953-964 | The colour mode chosen from bits per pixel; Bitmaps.InputModeByBits states it by ranges. |
| Bitmaps.InputModeByBits | IAR/PLC/Src/lcd.c:953-964 | ARGB8888 exactly for 32 to 39 bits per pixel, RGB565 exactly for 16 to 23, RGB888 for every other count. |
| Bitmaps.BitmapRows | IAR/PLC/Src/lcd.c:970-978 | One conversion per bitmap row. |
| Bitmaps.RowRequest | IAR/PLC/Src/lcd.c:966-977 | The conversion of bitmap row r; Bitmaps.RowRequestStep and Bitmaps.BitmapRowsFlip state its addresses. |
| Bitmaps.RowRequestStep | IAR/PLC/Src/lcd.c:976-977 | From one row to the next, the source moves back width*(bpp/8) bytes, the destination moves forward XSize*4 bytes, and width and mode are kept. |
| Bitmaps.BitmapRowsFlip | IAR/PLC/Src/lcd.c:950-978 | Row r writes destination row Ypos+r at start+4*(XSize*Ypos+Xpos)+r*4*XSize. It reads source offset+(height-1-r)*width*(bpp/8): source rows go bottom-up while destination rows go top-down, and the last row reads from offset. |

## Left out

- The LTDC and HAL calls are not modelled: visibility, transparency, layer address and window, colour keying (lcd.c:287-363), `HAL_LTDC_ConfigLayer` in the two layer initialisers (lcd.c:227, 261), and `LCD_Init` (lcd.c:1400-1420). They are calls into hardware code that is not part of this model.
- Driver.Lcd.LayerInit: only the drawing-record reset is modelled. The controller configuration of the layers (format, start address, window) is not. One method stands for both LCD_LayerDefaultInit and LCD_LayerRgb565Init, whose resets are identical.
- Driver.Lcd.FillBuffer, Driver.Lcd.ConvertLine: the DMA2D transfers are recorded as requests, not applied to memory. The pixel-format conversion, the HAL return codes and the polling timeout are not modelled. The fill's effect is stated only through the `Fills` lemmas about the addresses a request covers.
- `LCD_DrawEllipse` and `LCD_FillEllipse` (lcd.c:866-890, 1132-1156) are not modelled: their pixel positions depend on floating-point arithmetic.
- `LCD_SetLight` (lcd.c:1422-1443) is not modelled: it assigns a dead local and writes a DAC register.
- The font tables (lcd.c:78-84) are not modelled: a font is an abstract value {Width, Height, table}.
- `volatile` and memory-mapped semantics are not modelled. Bytes written outside the modelled memory array are dropped.
- `uint32_t` address wrap-around is not modelled. Addresses are unbounded integers: frame buffer start + offset, the fast path's window check, and the bitmap's source pointer arithmetic.
- Driver.Lcd.DrawLine: the wrap of its `int16_t` locals is not modelled. The method requires end points below 0x8000 and `Lines.FitsInt16`: den+num_add <= 0x8000, so `num += num_add` cannot pass 0x7FFF, and den < 0x7FFF, so `curpixel++` cannot wrap. Longer lines, where the source draws other pixels or loops forever, are excluded.
- Driver.Lcd.FillTriangle, Driver.Lcd.DrawPolygon, Driver.Lcd.FillPolygon: they require coordinates below 0x4000. That bound is stronger than the source needs. It guarantees `Lines.FitsInt16` for every line they draw (`Lines.SmallFitsInt16`), and it keeps FillTriangle's own walk and the polygon centre inside `int16_t`.
- Driver.Lcd.DrawFullCircle: it requires the centre line to lie below 0x8000. The centre line is vertical and at most 0x7FFE long, so it fits (`Lines.VerticalFitsInt16`).
- Driver.Lcd.SelectLayer, Driver.Lcd.InitParams, Driver.Lcd.LayerInit: the source does not range-check the layer index (lcd.c:273-276, 1387-1392, 229-231, 263-265). The model requires it to lie below MaxLayers, because an index past the two drawing records would write memory the model does not have.
- Driver.Lcd.DrawCircle, Driver.Lcd.FillCircle: radius 0 follows the corrected step (see Findings). For every radius from 1 to 0xFFFF, `Circles.CircleStepsAsWritten` proves that the source's loop, with its `uint32_t` and `int32_t` variables, visits exactly `Circles.CircleSteps`.
- Driver.Lcd.ReadPixel: it keeps the source's 2-byte stride for every format, as written; the corrected read at the writer's address is `Pixels.ReadPixelAtWrite`. Its contract states the read-back only for RGB565, where the two strides agree. The other read-back properties are the `Pixels` lemmas about `Pixels.ReadPixel`, which it returns.
- Driver.Lcd.DrawBitmap: the header is decoded from a byte sequence of at least 30 bytes. The source's u32 `Xpos`/`Ypos` are unbounded integers. BMP row padding is not handled, exactly as in the source.
- Glyphs.PixelOnIsTableBit: the MSB-first reading of a glyph is proved for widths up to 24 (three bytes). For widths 25 to 32 the source reads only three bytes, and the model follows `Glyphs.RowBits` there.
- Glyphs.ValidFont: fonts are limited to widths 1 to 32, so that `1 << n` stays within a 32-bit word.
- Driver.Lcd.DisplayStringAtLine: `LINE(x)` is taken to be x times the font height, because lcd.h, where the macro is defined, is not part of this model.
- Driver.Lcd.DisplayStringAt: text is a NUL-terminated byte sequence, so any aliasing between the text and the frame buffer is not modelled. The colours and font are read once per character, which matches the source because nothing in between changes them.
- The `LCD_SetTextColor(DrawProp[ActiveLayer].TextColor)` calls in `LCD_FillRect`, `LCD_FillCircle` and `LCD_ClearStringLine` set the colour it already has, so they are modelled as no-ops.
- Some source functions are split into several methods, one per loop body. Examples: `Driver.Lcd.PolygonEdge`, `Driver.Lcd.CircleStepAt`, `Driver.Lcd.GlyphRowDraw`. Together they perform the same statements in the same order.

## Findings

| source | as written | input that shows it | evidently intended | confidence | as-written member | corrected member |
|---|---|---|---|---|---|---|
| IAR/PLC/Src/lcd.c:734-768 | `current_y` is `uint32_t`, so `current_y--` at 0 wraps to 0xFFFFFFFF and `current_x <= current_y` keeps holding | `LCD_DrawCircle(x, y, 0)` (and `LCD_FillCircle(x, y, 0)`): after the first step current_x = 1, current_y = 0xFFFFFFFF, and the loop goes on | radius 0 draws the centre pixel and stops | not executed | Circles.RadiusZeroKeepsLooping | Circles.RadiusZeroSingleStep |
| IAR/PLC/Src/lcd.c:432-436 | ARGB8888 pixels are read at 2*(y*XSize+x), but `LCD_DrawPixel` writes them at 4*(y*XSize+x) | ARGB8888 layer 2 pixels wide: draw 0xFFFFFFFF at (1, 0), then read (1, 0); the read returns 0xFFFF0000 | the read uses the writer's stride, so a pixel reads back as drawn | not executed | Pixels.ReadPixelMissesArgb8888 | Pixels.ReadBackAtWrite |
