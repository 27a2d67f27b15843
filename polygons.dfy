/** Line-draw requests made by FillTriangle, LCD_DrawPolygon and LCD_FillPolygon,
    and the pixels they lead to. Every one of these ends in LCD_DrawLine, so a
    shape is described by its list of segments in drawing order. */
module Polygons {
  import opened Bytes
  import opened Frame
  import opened Lines

  /** One LCD_DrawLine(from.x, from.y, to.x, to.y) call. */
  datatype Segment = Segment(from: Point, to: Point)

  function SegmentPixels(s: Segment): seq<Point>
  {
    LinePixels(s.from.x, s.from.y, s.to.x, s.to.y)
  }

  /** The pixels of all segments, segment after segment. */
  function SegmentsPixels(segs: seq<Segment>): seq<Point>
    decreases |segs|
  {
    if segs == [] then []
    else SegmentsPixels(segs[..|segs| - 1]) + SegmentPixels(segs[|segs| - 1])
  }

  lemma {:induction false} SegmentsPixelsAppend(a: seq<Segment>, b: seq<Segment>)
    ensures SegmentsPixels(a + b) == SegmentsPixels(a) + SegmentsPixels(b)
    decreases |b|
  {
    if b == [] {
      assert a + b == a;
    } else {
      var b' := b[..|b| - 1];
      assert (a + b)[..|a + b| - 1] == a + b';
      assert (a + b)[|a + b| - 1] == b[|b| - 1];
      assert SegmentsPixels(a + b) == SegmentsPixels(a + b') + SegmentPixels(b[|b| - 1]);
      SegmentsPixelsAppend(a, b');
      assert SegmentsPixels(b) == SegmentsPixels(b') + SegmentPixels(b[|b| - 1]);
    }
  }

  /** Every pixel of a list of segments is a pixel of one of them. */
  lemma {:induction false} SegmentsPixelsFrom(segs: seq<Segment>, i: nat)
    requires i < |SegmentsPixels(segs)|
    ensures exists k, j :: 0 <= k < |segs| && 0 <= j < |SegmentPixels(segs[k])| &&
                           SegmentsPixels(segs)[i] == SegmentPixels(segs[k])[j]
    decreases |segs|
  {
    var init := segs[..|segs| - 1];
    var n := |SegmentsPixels(init)|;
    if i < n {
      SegmentsPixelsFrom(init, i);
      var k, j :| 0 <= k < |init| && 0 <= j < |SegmentPixels(init[k])| &&
                  SegmentsPixels(init)[i] == SegmentPixels(init[k])[j];
      assert init[k] == segs[k];
    } else {
      assert SegmentsPixels(segs)[i] == SegmentPixels(segs[|segs| - 1])[i - n];
    }
  }

  /** What the driver draws through LCD_DrawLine: lines one after another, one
      FillTriangle call, or FillTriangle calls one after another. */
  datatype Drawing = Lines(segs: seq<Segment>) | Filled(t: Triangle) | FilledAll(ts: seq<Triangle>)

  function Stage(d: Drawing): nat
  {
    match d
    case Lines(_) => 0
    case Filled(_) => 1
    case FilledAll(_) => 2
  }

  function Parts(d: Drawing): nat
  {
    match d
    case Lines(segs) => |segs|
    case Filled(_) => 0
    case FilledAll(ts) => |ts|
  }

  /** Memory after a drawing: each line is LCD_DrawLine's fast writes, each
      triangle the lines FillTriangle draws. */
  function Plot(m: seq<Byte>, v: FastView, d: Drawing, c: Color): seq<Byte>
    decreases Stage(d), Parts(d)
  {
    match d
    case Lines(segs) =>
      if segs == [] then m
      else FastPlotAll(Plot(m, v, Lines(segs[..|segs| - 1]), c), v, SegmentPixels(segs[|segs| - 1]), c)
    case Filled(t) => Plot(m, v, Lines(TriangleLines(t)), c)
    case FilledAll(ts) =>
      if ts == [] then m
      else Plot(Plot(m, v, FilledAll(ts[..|ts| - 1]), c), v, Filled(ts[|ts| - 1]), c)
  }

  /** Memory after LCD_DrawLine has drawn each segment in turn. */
  function PlotLines(m: seq<Byte>, v: FastView, segs: seq<Segment>, c: Color): seq<Byte>
  {
    Plot(m, v, Lines(segs), c)
  }

  lemma PlotLinesPrefix(m: seq<Byte>, v: FastView, segs: seq<Segment>, k: nat, c: Color)
    requires k < |segs|
    ensures PlotLines(m, v, segs[..k + 1], c) == FastPlotAll(PlotLines(m, v, segs[..k], c), v, SegmentPixels(segs[k]), c)
  {
    assert segs[..k + 1][..k] == segs[..k];
  }

  /** Drawing the segments one by one writes the pixels of all of them in order. */
  lemma {:induction false} PlotLinesPixels(m: seq<Byte>, v: FastView, segs: seq<Segment>, c: Color)
    ensures PlotLines(m, v, segs, c) == FastPlotAll(m, v, SegmentsPixels(segs), c)
    decreases |segs|
  {
    if segs != [] {
      var init := segs[..|segs| - 1];
      PlotLinesPixels(m, v, init, c);
      FastPlotAllAppend(m, v, SegmentsPixels(init), SegmentPixels(segs[|segs| - 1]), c);
    }
  }

  predicate InBox(p: Point, a: Point, b: Point, c: Point)
  {
    Min3(a.x, b.x, c.x) <= p.x <= Max3(a.x, b.x, c.x) && Min3(a.y, b.y, c.y) <= p.y <= Max3(a.y, b.y, c.y)
  }

  function Min3(a: int, b: int, c: int): int
  {
    if a <= b && a <= c then a else if b <= c then b else c
  }

  function Max3(a: int, b: int, c: int): int
  {
    if a >= b && a >= c then a else if b >= c then b else c
  }

  // ---------------------------------------------------------------------------
  // FillTriangle(x1, x2, x3, y1, y2, y3)

  /** FillTriangle walks the edge from (x1, y1) to (x2, y2) with the same
      incremental walk as LCD_DrawLine and, at every position, draws a line to
      (x3, y3). */
  function TriangleSegments(x1: int, x2: int, x3: int, y1: int, y2: int, y3: int): seq<Segment>
  {
    var edge := LinePixels(x1, y1, x2, y2);
    seq(|edge|, (k: int) requires 0 <= k < |edge| => Segment(edge[k], Point(x3, y3)))
  }

  /** FillTriangle draws max(|x2-x1|, |y2-y1|) + 1 lines, all ending at the third
      vertex; the first starts at the first vertex, the last at the second, and
      consecutive starts are neighbouring pixels of the first edge. */
  lemma TriangleSegmentsShape(x1: int, x2: int, x3: int, y1: int, y2: int, y3: int)
    ensures var s := TriangleSegments(x1, x2, x3, y1, y2, y3);
            |s| == Max(Abs(x2 - x1), Abs(y2 - y1)) + 1 &&
            s[0].from == Point(x1, y1) && s[|s| - 1].from == Point(x2, y2) &&
            (forall k :: 0 <= k < |s| ==> s[k].to == Point(x3, y3)) &&
            (forall k :: 0 <= k < |s| - 1 ==> Abs(s[k + 1].from.x - s[k].from.x) <= 1 && Abs(s[k + 1].from.y - s[k].from.y) <= 1)
  {
    LineEndpoints(x1, y1, x2, y2);
    forall k | 0 <= k < |TriangleSegments(x1, x2, x3, y1, y2, y3)| - 1
      ensures var s := TriangleSegments(x1, x2, x3, y1, y2, y3);
              Abs(s[k + 1].from.x - s[k].from.x) <= 1 && Abs(s[k + 1].from.y - s[k].from.y) <= 1
    {
      LineStep(x1, y1, x2, y2, k);
    }
  }

  /** Position k of FillTriangle's walk is the start of its k-th line and lies
      between the first two vertices. */
  lemma TriangleSegmentAt(x1: int, x2: int, x3: int, y1: int, y2: int, y3: int, k: nat, p: Point)
    requires k <= Setup(x1, y1, x2, y2).numPixels && p == WalkPoint(x1, y1, x2, y2, k)
    ensures k < |TriangleSegments(x1, x2, x3, y1, y2, y3)|
    ensures TriangleSegments(x1, x2, x3, y1, y2, y3)[k] == Segment(p, Point(x3, y3))
    ensures (x1 <= p.x <= x2 || x2 <= p.x <= x1) && (y1 <= p.y <= y2 || y2 <= p.y <= y1)
  {
    WalkInBox(x1, y1, x2, y2, k);
  }

  /** Every pixel FillTriangle draws lies in the bounding box of its three vertices. */
  lemma TriangleInBox(x1: int, x2: int, x3: int, y1: int, y2: int, y3: int, i: nat)
    requires i < |SegmentsPixels(TriangleSegments(x1, x2, x3, y1, y2, y3))|
    ensures InBox(SegmentsPixels(TriangleSegments(x1, x2, x3, y1, y2, y3))[i], Point(x1, y1), Point(x2, y2), Point(x3, y3))
  {
    var segs := TriangleSegments(x1, x2, x3, y1, y2, y3);
    SegmentsPixelsFrom(segs, i);
    var k, j :| 0 <= k < |segs| && 0 <= j < |SegmentPixels(segs[k])| &&
                SegmentsPixels(segs)[i] == SegmentPixels(segs[k])[j];
    WalkInBox(x1, y1, x2, y2, k);
    var q := segs[k].from;
    assert q == WalkPoint(x1, y1, x2, y2, k) && segs[k].to == Point(x3, y3);
    WalkInBox(q.x, q.y, x3, y3, j);
    assert SegmentPixels(segs[k])[j] == WalkPoint(q.x, q.y, x3, y3, j);
    BetweenInBox(WalkPoint(q.x, q.y, x3, y3, j), q, Point(x1, y1), Point(x2, y2), Point(x3, y3));
  }

  /** A point between q and c, with q between a and b, lies in the box of a, b and c. */
  lemma BetweenInBox(p: Point, q: Point, a: Point, b: Point, c: Point)
    requires (a.x <= q.x <= b.x || b.x <= q.x <= a.x) && (a.y <= q.y <= b.y || b.y <= q.y <= a.y)
    requires (q.x <= p.x <= c.x || c.x <= p.x <= q.x) && (q.y <= p.y <= c.y || c.y <= p.y <= q.y)
    ensures InBox(p, a, b, c)
  {
  }

  // ---------------------------------------------------------------------------
  // LCD_DrawPolygon

  /** The lines LCD_DrawPolygon draws: nothing for fewer than two points,
      otherwise first the closing edge from the first point to the last, then
      every edge from point i to point i + 1 in order. */
  function PolygonSegments(pts: seq<Point>): seq<Segment>
  {
    if |pts| < 2 then []
    else [Segment(pts[0], pts[|pts| - 1])] +
         seq(|pts| - 1, (i: int) requires 0 <= i < |pts| - 1 => Segment(pts[i], pts[i + 1]))
  }

  lemma PolygonSegmentsWhole(pts: seq<Point>)
    requires 2 <= |pts|
    ensures PolygonSegments(pts)[..|pts|] == PolygonSegments(pts)
  {
  }

  /** The outline draws as many lines as there are points, and each edge of the
      closed polygon (point i to point (i + 1) mod n) is one of them, the
      closing edge drawn from its far end. */
  lemma PolygonClosed(pts: seq<Point>, i: nat)
    requires 2 <= |pts| && i < |pts|
    ensures |PolygonSegments(pts)| == |pts|
    ensures var s := PolygonSegments(pts);
            var e := Segment(pts[i], pts[(i + 1) % |pts|]);
            if i < |pts| - 1 then s[i + 1] == e else s[0] == Segment(e.to, e.from)
  {
    if i == |pts| - 1 {
      assert (i + 1) % |pts| == 0;
    } else {
      assert (i + 1) % |pts| == i + 1;
    }
  }

  // ---------------------------------------------------------------------------
  // LCD_FillPolygon

  datatype Box = Box(left: int, right: int, top: int, bottom: int)

  /** The bounding box LCD_FillPolygon's first loop computes. */
  function BoxOf(pts: seq<Point>): Box
    requires |pts| >= 1
    decreases |pts|
  {
    if |pts| == 1 then Box(pts[0].x, pts[0].x, pts[0].y, pts[0].y)
    else
      var b := BoxOf(pts[..|pts| - 1]);
      var p := pts[|pts| - 1];
      Box(if p.x < b.left then p.x else b.left, if p.x > b.right then p.x else b.right,
          if p.y < b.top then p.y else b.top, if p.y > b.bottom then p.y else b.bottom)
  }

  /** The box holds every point, and each side touches at least one point. */
  lemma {:induction false} BoxOfTight(pts: seq<Point>)
    requires |pts| >= 1
    ensures var b := BoxOf(pts);
            (forall k :: 0 <= k < |pts| ==> b.left <= pts[k].x <= b.right && b.top <= pts[k].y <= b.bottom) &&
            (exists k :: 0 <= k < |pts| && pts[k].x == b.left) && (exists k :: 0 <= k < |pts| && pts[k].x == b.right) &&
            (exists k :: 0 <= k < |pts| && pts[k].y == b.top) && (exists k :: 0 <= k < |pts| && pts[k].y == b.bottom)
    decreases |pts|
  {
    if |pts| > 1 {
      var init := pts[..|pts| - 1];
      BoxOfTight(init);
      forall k | 0 <= k < |init| ensures init[k] == pts[k] { }
      var b0 := BoxOf(init);
      var p := pts[|pts| - 1];
      var kl :| 0 <= kl < |init| && init[kl].x == b0.left;
      var kr :| 0 <= kr < |init| && init[kr].x == b0.right;
      var kt :| 0 <= kt < |init| && init[kt].y == b0.top;
      var kb :| 0 <= kb < |init| && init[kb].y == b0.bottom;
      var n := |pts| - 1;
      assert pts[if p.x < b0.left then n else kl].x == BoxOf(pts).left;
      assert pts[if p.x > b0.right then n else kr].x == BoxOf(pts).right;
      assert pts[if p.y < b0.top then n else kt].y == BoxOf(pts).top;
      assert pts[if p.y > b0.bottom then n else kb].y == BoxOf(pts).bottom;
    }
  }

  /** One FillTriangle(a.x, b.x, c.x, a.y, b.y, c.y) call. */
  datatype Triangle = Triangle(a: Point, b: Point, c: Point)

  /** The three FillTriangle calls LCD_FillPolygon makes for the edge p -> q around the centre. */
  function Fan(p: Point, q: Point, center: Point): seq<Triangle>
  {
    [Triangle(p, q, center), Triangle(p, center, q), Triangle(center, q, p)]
  }

  function EdgeFans(pts: seq<Point>, center: Point): (r: seq<Triangle>)
    requires |pts| >= 1
    ensures |r| == 3 * (|pts| - 1)
    decreases |pts|
  {
    if |pts| == 1 then []
    else EdgeFans(pts[..|pts| - 1], center) + Fan(pts[|pts| - 2], pts[|pts| - 1], center)
  }

  /** The centre LCD_FillPolygon uses: the middle of the bounding box, rounded down. */
  function Center(b: Box): Point
  {
    Point((b.left + b.right) / 2, (b.bottom + b.top) / 2)
  }

  /** All triangles LCD_FillPolygon fills for the first `count` points: nothing
      for fewer than two, otherwise the three fans of every edge i -> i + 1 and
      then those of the closing edge. */
  function PolygonTriangles(pts: seq<Point>): seq<Triangle>
  {
    if |pts| < 2 then []
    else
      var c := Center(BoxOf(pts));
      EdgeFans(pts, c) + Fan(pts[0], pts[|pts| - 1], c)
  }

  /** LCD_FillPolygon fills three triangles per point. */
  lemma PolygonTriangleCount(pts: seq<Point>)
    requires 2 <= |pts|
    ensures |PolygonTriangles(pts)| == 3 * |pts|
  {
  }

  /** Every triangle LCD_FillPolygon fills has the centre of the bounding box as a vertex. */
  lemma PolygonTrianglesHaveCenter(pts: seq<Point>, k: nat)
    requires 2 <= |pts| && k < 3 * |pts|
    ensures var t := PolygonTriangles(pts)[k];
            var c := Center(BoxOf(pts));
            t.a == c || t.b == c || t.c == c
  {
    var c := Center(BoxOf(pts));
    var ef := EdgeFans(pts, c);
    var fan := Fan(pts[0], pts[|pts| - 1], c);
    assert PolygonTriangles(pts) == ef + fan;
    if k < |ef| {
      EdgeFansHaveCenter(pts, c, k);
      assert PolygonTriangles(pts)[k] == ef[k];
    } else {
      assert PolygonTriangles(pts)[k] == fan[k - |ef|];
    }
  }

  /** When every coordinate lies in [lo, hi), so do those of the centre. */
  lemma CenterWithin(pts: seq<Point>, lo: int, hi: int)
    requires 1 <= |pts|
    requires forall k :: 0 <= k < |pts| ==> lo <= pts[k].x < hi && lo <= pts[k].y < hi
    ensures lo <= Center(BoxOf(pts)).x < hi && lo <= Center(BoxOf(pts)).y < hi
  {
    BoxOfTight(pts);
  }

  /** The centre lies inside the bounding box, which holds every point. */
  lemma CenterInBox(pts: seq<Point>)
    requires 1 <= |pts|
    ensures BoxOf(pts).left <= Center(BoxOf(pts)).x <= BoxOf(pts).right
    ensures BoxOf(pts).top <= Center(BoxOf(pts)).y <= BoxOf(pts).bottom
  {
    BoxOfTight(pts);
    assert BoxOf(pts).left <= pts[0].x <= BoxOf(pts).right;
    assert BoxOf(pts).top <= pts[0].y <= BoxOf(pts).bottom;
  }

  lemma {:induction false} EdgeFansHaveCenter(pts: seq<Point>, c: Point, k: nat)
    requires |pts| >= 1 && k < |EdgeFans(pts, c)|
    ensures var t := EdgeFans(pts, c)[k]; t.a == c || t.b == c || t.c == c
    decreases |pts|
  {
    var init := pts[..|pts| - 1];
    if k < |EdgeFans(init, c)| {
      EdgeFansHaveCenter(init, c, k);
    }
  }

  /** The line draws of one FillTriangle call. */
  function TriangleLines(t: Triangle): seq<Segment>
  {
    TriangleSegments(t.a.x, t.b.x, t.c.x, t.a.y, t.b.y, t.c.y)
  }

  /** The line draws of a sequence of FillTriangle calls, call after call. */
  function TrianglesSegments(ts: seq<Triangle>): seq<Segment>
    decreases |ts|
  {
    if ts == [] then []
    else TrianglesSegments(ts[..|ts| - 1]) + TriangleLines(ts[|ts| - 1])
  }

  lemma TrianglesSegmentsSnoc(ts: seq<Triangle>, t: Triangle)
    ensures TrianglesSegments(ts + [t]) == TrianglesSegments(ts) + TriangleLines(t)
  {
    assert (ts + [t])[..|ts|] == ts;
  }

  /** Memory after FillTriangle has filled each triangle in turn. */
  function PlotTriangles(m: seq<Byte>, v: FastView, ts: seq<Triangle>, c: Color): seq<Byte>
  {
    Plot(m, v, FilledAll(ts), c)
  }

  lemma PlotTrianglesSnoc(m: seq<Byte>, v: FastView, ts: seq<Triangle>, t: Triangle, c: Color)
    ensures PlotTriangles(m, v, ts + [t], c) == PlotLines(PlotTriangles(m, v, ts, c), v, TriangleLines(t), c)
  {
    assert (ts + [t])[..|ts|] == ts;
    assert Plot(PlotTriangles(m, v, ts, c), v, Filled(t), c) == PlotLines(PlotTriangles(m, v, ts, c), v, TriangleLines(t), c);
  }

  /** Filling the triangles one by one writes the pixels of all their lines in order. */
  lemma {:induction false} PlotTrianglesPixels(m: seq<Byte>, v: FastView, ts: seq<Triangle>, c: Color)
    ensures PlotTriangles(m, v, ts, c) == FastPlotAll(m, v, SegmentsPixels(TrianglesSegments(ts)), c)
    decreases |ts|
  {
    if ts != [] {
      var init := ts[..|ts| - 1];
      var t := ts[|ts| - 1];
      assert ts == init + [t];
      PlotTrianglesSnoc(m, v, init, t, c);
      TrianglesSegmentsSnoc(init, t);
      PlotTrianglesPixels(m, v, init, c);
      PlotLinesPixels(PlotTriangles(m, v, init, c), v, TriangleLines(t), c);
      FastPlotAllAppend(m, v, SegmentsPixels(TrianglesSegments(init)), SegmentsPixels(TriangleLines(t)), c);
      SegmentsPixelsAppend(TrianglesSegments(init), TriangleLines(t));
    }
  }

  /** Walking one more edge of the polygon adds that edge's fan. */
  lemma EdgeFansPrefix(pts: seq<Point>, c: Point, n: nat)
    requires 1 <= n < |pts|
    ensures EdgeFans(pts[..n + 1], c) == EdgeFans(pts[..n], c) + Fan(pts[n - 1], pts[n], c)
  {
    assert pts[..n + 1][..n] == pts[..n];
  }

  predicate InsideBox(p: Point, b: Box)
  {
    b.left <= p.x <= b.right && b.top <= p.y <= b.bottom
  }

  /** Every pixel that the FillTriangle calls of `ts` draw lies in a box that
      holds all their vertices. */
  lemma {:induction false} TrianglesInBox(ts: seq<Triangle>, b: Box, i: nat)
    requires forall k :: 0 <= k < |ts| ==> InsideBox(ts[k].a, b) && InsideBox(ts[k].b, b) && InsideBox(ts[k].c, b)
    requires i < |SegmentsPixels(TrianglesSegments(ts))|
    ensures InsideBox(SegmentsPixels(TrianglesSegments(ts))[i], b)
    decreases |ts|
  {
    var init := ts[..|ts| - 1];
    var t := ts[|ts| - 1];
    SegmentsPixelsAppend(TrianglesSegments(init), TriangleLines(t));
    var left := SegmentsPixels(TrianglesSegments(init));
    var all := SegmentsPixels(TrianglesSegments(ts));
    assert all == left + SegmentsPixels(TriangleLines(t));
    if i < |left| {
      forall k | 0 <= k < |init| ensures init[k] == ts[k] { }
      TrianglesInBox(init, b, i);
      assert all[i] == left[i];
    } else {
      TriangleInBox(t.a.x, t.b.x, t.c.x, t.a.y, t.b.y, t.c.y, i - |left|);
      assert all[i] == SegmentsPixels(TriangleLines(t))[i - |left|];
      InBoxInside(all[i], t.a, t.b, t.c, b);
    }
  }

  /** The bounding box of three points inside a box lies inside that box. */
  lemma InBoxInside(p: Point, a: Point, c: Point, d: Point, b: Box)
    requires InBox(p, a, c, d) && InsideBox(a, b) && InsideBox(c, b) && InsideBox(d, b)
    ensures InsideBox(p, b)
  {
  }

  /** Every vertex of the edge fans is one of the points or the centre. */
  lemma {:induction false} EdgeFansVertices(pts: seq<Point>, c: Point, k: nat)
    requires |pts| >= 1 && k < |EdgeFans(pts, c)|
    ensures var t := EdgeFans(pts, c)[k];
            (t.a in pts || t.a == c) && (t.b in pts || t.b == c) && (t.c in pts || t.c == c)
    decreases |pts|
  {
    var init := pts[..|pts| - 1];
    if k < |EdgeFans(init, c)| {
      EdgeFansVertices(init, c, k);
      var t := EdgeFans(pts, c)[k];
      assert forall p :: p in init ==> p in pts;
    } else {
      assert pts[|pts| - 2] in pts && pts[|pts| - 1] in pts;
    }
  }

  lemma MemberInBox(pts: seq<Point>, p: Point)
    requires |pts| >= 1 && p in pts
    ensures InsideBox(p, BoxOf(pts))
  {
    BoxOfTight(pts);
    var k :| 0 <= k < |pts| && pts[k] == p;
  }

  /** The vertices of every triangle LCD_FillPolygon fills lie in the bounding box. */
  lemma PolygonVerticesInBox(pts: seq<Point>, k: nat)
    requires 2 <= |pts| && k < |PolygonTriangles(pts)|
    ensures var t := PolygonTriangles(pts)[k];
            var b := BoxOf(pts);
            InsideBox(t.a, b) && InsideBox(t.b, b) && InsideBox(t.c, b)
  {
    var b := BoxOf(pts);
    var c := Center(b);
    CenterInBox(pts);
    var ef := EdgeFans(pts, c);
    var fan := Fan(pts[0], pts[|pts| - 1], c);
    assert PolygonTriangles(pts) == ef + fan;
    var t := PolygonTriangles(pts)[k];
    if k < |ef| {
      EdgeFansVertices(pts, c, k);
      assert t == ef[k];
    } else {
      assert t == fan[k - |ef|];
      assert pts[0] in pts && pts[|pts| - 1] in pts;
    }
    if t.a in pts { MemberInBox(pts, t.a); }
    if t.b in pts { MemberInBox(pts, t.b); }
    if t.c in pts { MemberInBox(pts, t.c); }
  }

  /** Every pixel LCD_FillPolygon draws lies in the bounding box of its points. */
  lemma PolygonFillInBox(pts: seq<Point>, i: nat)
    requires i < |SegmentsPixels(TrianglesSegments(PolygonTriangles(pts)))|
    ensures InsideBox(SegmentsPixels(TrianglesSegments(PolygonTriangles(pts)))[i], BoxOf(pts))
  {
    var ts := PolygonTriangles(pts);
    if |pts| >= 2 {
      var b := BoxOf(pts);
      forall k | 0 <= k < |ts| ensures InsideBox(ts[k].a, b) && InsideBox(ts[k].b, b) && InsideBox(ts[k].c, b) {
        PolygonVerticesInBox(pts, k);
      }
      TrianglesInBox(ts, b, i);
    }
  }
}
