/** The two circle recurrences of the driver, kept apart as in the source.

    - LCD_DrawCircle (and the outline pass of LCD_FillCircle): decision variable
      d = 3 - 2R; per step d += 4x + 6 (keep y) or d += 4(x - y) + 10 (y - 1);
      x + 1 every step; loop while x <= y; eight mirrored pixels per step.
    - LCD_DrawFullCircle: f = 1 - R, ddF_x = 1, ddF_y = -2R; loop while x < y;
      four vertical spans per step. */
module Circles {
  import opened Bytes
  import opened Frame
  import opened Fills

  // ---------------------------------------------------------------------------
  // Midpoint outline (LCD_DrawCircle)

  /** One step of LCD_DrawCircle's recurrence on (decision, current_x, current_y). */
  function CircleStep(d: int, x: int, y: int): (int, int, int)
  {
    if d < 0 then (d + 4 * x + 6, x + 1, y)
    else (d + 4 * (x - y) + 10, x + 1, y - 1)
  }

  /** The (current_x, current_y) pairs the loop visits from the given state. */
  function CircleFrom(d: int, x: int, y: int): seq<Point>
    decreases y - x + 1
  {
    if x > y then []
    else
      var (d', x', y') := CircleStep(d, x, y);
      [Point(x, y)] + CircleFrom(d', x', y')
  }

  function CircleSteps(radius: nat): seq<Point>
  {
    CircleFrom(3 - 2 * radius, 0, radius)
  }

  /** The decision variable as a function of the position (2 times the midpoint
      test of the next pixel, plus a constant). */
  function Decision(radius: int, x: int, y: int): int
  {
    2 * (x * x + y * y - radius * radius) + 4 * x - 2 * y + 3
  }

  /** Pixel j of the eight symmetric pixels LCD_DrawCircle emits for one step, in source order. */
  function Octant(xpos: int, ypos: int, s: Point, j: int): Point
  {
    if j == 0 then Point(xpos + s.x, ypos - s.y)
    else if j == 1 then Point(xpos - s.x, ypos - s.y)
    else if j == 2 then Point(xpos + s.y, ypos - s.x)
    else if j == 3 then Point(xpos - s.y, ypos - s.x)
    else if j == 4 then Point(xpos + s.x, ypos + s.y)
    else if j == 5 then Point(xpos - s.x, ypos + s.y)
    else if j == 6 then Point(xpos + s.y, ypos + s.x)
    else Point(xpos - s.y, ypos + s.x)
  }

  /** The eight pixels of one step. */
  function Octants(xpos: int, ypos: int, s: Point): (r: seq<Point>)
    ensures |r| == 8
  {
    seq(8, (j: int) => Octant(xpos, ypos, s, j))
  }

  function CirclePixelsOf(xpos: int, ypos: int, steps: seq<Point>): (r: seq<Point>)
    ensures |r| == 8 * |steps|
    decreases |steps|
  {
    if steps == [] then []
    else CirclePixelsOf(xpos, ypos, steps[..|steps| - 1]) + Octants(xpos, ypos, steps[|steps| - 1])
  }

  /** Every pixel LCD_DrawCircle hands to the fast pixel writer, in order. */
  function CirclePixels(xpos: int, ypos: int, radius: nat): seq<Point>
  {
    CirclePixelsOf(xpos, ypos, CircleSteps(radius))
  }

  /** The eight Fast_LCD_DrawPixel calls of one LCD_DrawCircle step, with the
      conversions of their `uint16_t` arguments, in source order. */
  function StepWrites(xpos: int, ypos: int, x: int, y: int): (r: seq<Point>)
    ensures |r| == 8
  {
    [Point(U16(xpos + x), U16(ypos - y)), Point(U16(xpos - x), U16(ypos - y)),
     Point(U16(xpos + y), U16(ypos - x)), Point(U16(xpos - y), U16(ypos - x)),
     Point(U16(xpos + x), U16(ypos + y)), Point(U16(xpos - x), U16(ypos + y)),
     Point(U16(xpos + y), U16(ypos + x)), Point(U16(xpos - y), U16(ypos + x))]
  }

  function CircleWritesOf(xpos: int, ypos: int, steps: seq<Point>): (r: seq<Point>)
    ensures |r| == 8 * |steps|
    decreases |steps|
  {
    if steps == [] then []
    else
      var s := steps[|steps| - 1];
      CircleWritesOf(xpos, ypos, steps[..|steps| - 1]) + StepWrites(xpos, ypos, s.x, s.y)
  }

  /** Every pixel LCD_DrawCircle hands to Fast_LCD_DrawPixel, in order. */
  function CircleWrites(xpos: int, ypos: int, radius: nat): seq<Point>
  {
    CircleWritesOf(xpos, ypos, CircleSteps(radius))
  }

  lemma CircleWritesSnoc(xpos: int, ypos: int, steps: seq<Point>, s: Point)
    ensures CircleWritesOf(xpos, ypos, steps + [s]) == CircleWritesOf(xpos, ypos, steps) + StepWrites(xpos, ypos, s.x, s.y)
  {
    assert (steps + [s])[..|steps|] == steps;
  }

  /** Memory after the eight writes of a step, one Fast_LCD_DrawPixel call after another. */
  function StepPlot(m: seq<Byte>, v: FastView, xpos: int, ypos: int, x: int, y: int, c: Color): seq<Byte>
  {
    FastPlot(FastPlot(FastPlot(FastPlot(FastPlot(FastPlot(FastPlot(FastPlot(m,
      v, Point(U16(xpos + x), U16(ypos - y)), c), v, Point(U16(xpos - x), U16(ypos - y)), c),
      v, Point(U16(xpos + y), U16(ypos - x)), c), v, Point(U16(xpos - y), U16(ypos - x)), c),
      v, Point(U16(xpos + x), U16(ypos + y)), c), v, Point(U16(xpos - x), U16(ypos + y)), c),
      v, Point(U16(xpos + y), U16(ypos + x)), c), v, Point(U16(xpos - y), U16(ypos + x)), c)
  }

  /** The writes of one more step follow those of the steps before it. */
  lemma CircleWritesStep(m: seq<Byte>, v: FastView, xpos: int, ypos: int, steps: seq<Point>, x: int, y: int, c: Color)
    ensures StepPlot(FastPlotAll(m, v, CircleWritesOf(xpos, ypos, steps), c), v, xpos, ypos, x, y, c) ==
            FastPlotAll(m, v, CircleWritesOf(xpos, ypos, steps + [Point(x, y)]), c)
  {
    var m' := FastPlotAll(m, v, CircleWritesOf(xpos, ypos, steps), c);
    CircleWritesSnoc(xpos, ypos, steps, Point(x, y));
    FastPlotAllAppend(m, v, CircleWritesOf(xpos, ypos, steps), StepWrites(xpos, ypos, x, y), c);
    FastPlotAllEight(m', v, StepWrites(xpos, ypos, x, y), c);
  }

  /** A step that runs (x <= y) moves one step from the steps still to come to
      the steps done. */
  lemma CircleFromNext(done: seq<Point>, d: int, x: int, y: int)
    requires x <= y
    ensures var (d', x', y') := CircleStep(d, x, y);
            done + CircleFrom(d, x, y) == (done + [Point(x, y)]) + CircleFrom(d', x', y')
  {
  }

  /** Away from the edges of the 16-bit range a step's writes are its eight
      symmetric pixels. */
  lemma StepWritesInRange(xpos: int, ypos: int, radius: int, s: Point)
    requires radius <= xpos && xpos + radius < Two16 && radius <= ypos && ypos + radius < Two16
    requires 0 <= s.x <= s.y <= radius
    ensures StepWrites(xpos, ypos, s.x, s.y) == Octants(xpos, ypos, s)
  {
    var w, o := StepWrites(xpos, ypos, s.x, s.y), Octants(xpos, ypos, s);
    assert forall j :: 0 <= j < 8 ==> w[j] == o[j];
  }

  lemma {:induction false} CircleWritesOfInRange(xpos: int, ypos: int, radius: int, steps: seq<Point>)
    requires radius <= xpos && xpos + radius < Two16 && radius <= ypos && ypos + radius < Two16
    requires forall k :: 0 <= k < |steps| ==> 0 <= steps[k].x <= steps[k].y <= radius
    ensures CircleWritesOf(xpos, ypos, steps) == CirclePixelsOf(xpos, ypos, steps)
    decreases |steps|
  {
    if steps != [] {
      CircleWritesOfInRange(xpos, ypos, radius, steps[..|steps| - 1]);
      StepWritesInRange(xpos, ypos, radius, steps[|steps| - 1]);
    }
  }

  /** A circle inside the 16-bit coordinate range (Radius <= Xpos, Ypos and
      Xpos + Radius, Ypos + Radius < 2^16) is drawn at exactly its outline
      pixels: the conversions to `uint16_t` change nothing. */
  lemma CircleInRange(xpos: int, ypos: int, radius: nat)
    requires radius <= xpos && xpos + radius < Two16 && radius <= ypos && ypos + radius < Two16
    ensures CircleWrites(xpos, ypos, radius) == CirclePixels(xpos, ypos, radius)
  {
    CircleStepsShape(radius);
    CircleWritesOfInRange(xpos, ypos, radius, CircleSteps(radius));
  }

  /** The recurrence keeps d equal to Decision(R, x, y). */
  lemma CircleStepDecision(radius: int, d: int, x: int, y: int)
    requires d == Decision(radius, x, y)
    ensures var (d', x', y') := CircleStep(d, x, y); d' == Decision(radius, x', y')
  {
  }

  /** What every visited step satisfies, from a state reached by the recurrence:
      x counts up from its start, y never increases and drops by at most one per
      step, every step has x <= y and satisfies the decision identity, and the
      walk stops at the first x greater than y. */
  lemma {:induction false} CircleFromShape(radius: int, d: int, x: int, y: int)
    requires d == Decision(radius, x, y)
    ensures var s := CircleFrom(d, x, y);
            (forall k :: 0 <= k < |s| ==> s[k].x == x + k && s[k].x <= s[k].y <= y) &&
            (forall k :: 0 < k < |s| ==> s[k].y == s[k - 1].y || s[k].y == s[k - 1].y - 1) &&
            (x <= y ==> |s| > 0 && s[0] == Point(x, y))
    decreases y - x + 1
  {
    if x <= y {
      var (d', x', y') := CircleStep(d, x, y);
      CircleStepDecision(radius, d, x, y);
      CircleFromShape(radius, d', x', y');
      var s := CircleFrom(d, x, y);
      var t := CircleFrom(d', x', y');
      assert s == [Point(x, y)] + t;
      assert forall k :: 0 < k < |s| ==> s[k] == t[k - 1];
      assert y' <= y && y' >= y - 1;
    }
  }

  /** For a positive radius the y coordinate of every visited step stays positive,
      so the source's unsigned current_y never wraps. */
  lemma {:induction false} CircleFromPositive(d: int, x: int, y: int)
    requires 1 <= y && 0 <= x && (x == 0 || 1 <= x)
    ensures forall k :: 0 <= k < |CircleFrom(d, x, y)| ==> CircleFrom(d, x, y)[k].y >= 1
    decreases y - x + 1
  {
    if x <= y {
      var (d', x', y') := CircleStep(d, x, y);
      var s := CircleFrom(d, x, y);
      assert s == [Point(x, y)] + CircleFrom(d', x', y');
      if x' <= y' {
        CircleFromPositive(d', x', y');
      }
    }
  }

  /** LCD_DrawCircle's steps for a radius: one step per column x = 0, 1, ..., each
      with x <= y <= radius, starting at (0, radius). */
  lemma CircleStepsShape(radius: nat)
    ensures var s := CircleSteps(radius);
            |s| > 0 && s[0] == Point(0, radius) &&
            forall k :: 0 <= k < |s| ==> s[k].x == k && k <= s[k].y <= radius
  {
    CircleFromShape(radius, 3 - 2 * radius, 0, radius);
  }

  /** The eight pixels of step k all lie on the eight reflections of its offset. */
  lemma CirclePixelsAt(xpos: int, ypos: int, steps: seq<Point>, k: nat, j: nat)
    requires k < |steps| && j < 8
    ensures CirclePixelsOf(xpos, ypos, steps)[8 * k + j] == Octants(xpos, ypos, steps[k])[j]
    decreases |steps|
  {
    var init := steps[..|steps| - 1];
    if k < |steps| - 1 {
      CirclePixelsAt(xpos, ypos, init, k, j);
    }
  }

  /** Write 8k + j of the outline is write j of step k. */
  lemma {:induction false} CircleWritesAt(xpos: int, ypos: int, steps: seq<Point>, k: nat, j: nat)
    requires k < |steps| && j < 8
    ensures CircleWritesOf(xpos, ypos, steps)[8 * k + j] == StepWrites(xpos, ypos, steps[k].x, steps[k].y)[j]
    decreases |steps|
  {
    var init := steps[..|steps| - 1];
    if k < |steps| - 1 {
      CircleWritesAt(xpos, ypos, init, k, j);
      assert init[k] == steps[k];
    }
  }

  /** The outline of radius R: for every step, the pixel reflected in either axis
      through the centre and across the diagonal is also drawn. */
  lemma CircleSymmetric(xpos: int, ypos: int, radius: nat, i: nat)
    requires i < |CirclePixels(xpos, ypos, radius)|
    ensures var px := CirclePixels(xpos, ypos, radius);
            var p := px[i];
            Point(2 * xpos - p.x, p.y) in px && Point(p.x, 2 * ypos - p.y) in px &&
            Point(xpos + (p.y - ypos), ypos + (p.x - xpos)) in px
  {
    var steps := CircleSteps(radius);
    var k, j := i / 8, i % 8;
    assert i == 8 * k + j;
    CirclePixelsAt(xpos, ypos, steps, k, j);
    var a, b, c := OctantMirrors(xpos, ypos, steps[k], j);
    OctantDrawn(xpos, ypos, steps, k, a);
    OctantDrawn(xpos, ypos, steps, k, b);
    OctantDrawn(xpos, ypos, steps, k, c);
  }

  /** Every pixel of every step's eight is drawn. */
  lemma OctantDrawn(xpos: int, ypos: int, steps: seq<Point>, k: nat, j: nat)
    requires k < |steps| && j < 8
    ensures Octants(xpos, ypos, steps[k])[j] in CirclePixelsOf(xpos, ypos, steps)
  {
    CirclePixelsAt(xpos, ypos, steps, k, j);
    assert CirclePixelsOf(xpos, ypos, steps)[8 * k + j] == Octants(xpos, ypos, steps[k])[j];
  }

  /** Within one step's eight pixels, the mirror images of pixel j in the two
      axes and across the diagonal are pixels a, b and c. */
  lemma OctantMirrors(xpos: int, ypos: int, s: Point, j: nat) returns (a: nat, b: nat, c: nat)
    requires j < 8
    ensures a < 8 && b < 8 && c < 8
    ensures var o := Octants(xpos, ypos, s);
            o[a] == Point(2 * xpos - o[j].x, o[j].y) && o[b] == Point(o[j].x, 2 * ypos - o[j].y) &&
            o[c] == Point(xpos + (o[j].y - ypos), ypos + (o[j].x - xpos))
  {
    a := if j % 2 == 0 then j + 1 else j - 1;
    b := if j < 4 then j + 4 else j - 4;
    c := [7, 3, 5, 1, 6, 2, 4, 0][j];
  }

  /** Conversion of a `uint32_t` value to `int32_t`. */
  function I32(u: int): int
    requires 0 <= u < Two32
  {
    if u >= 0x8000_0000 then u - Two32 else u
  }

  /** LCD_DrawCircle's step with the source's machine types: current_x and
      current_y are `uint32_t`, so `current_y--` wraps at zero, and the
      increment 4(x - y) + 10 is computed unsigned before it is added to the
      `int32_t` decision variable. */
  function CircleStepAsWritten(d: int, x: int, y: int): (int, int, int)
    requires 0 <= x < Two32 && 0 <= y < Two32
  {
    if d < 0 then (I32(U32(d + U32(4 * x) + 6)), U32(x + 1), y)
    else (I32(U32(d + U32(4 * U32(x - y)) + 10)), U32(x + 1), U32(y - 1))
  }

  /** With radius 0 the first step leaves current_y = 0xFFFFFFFF and current_x = 1,
      so the guard current_x <= current_y still holds and the loop goes on drawing. */
  lemma RadiusZeroKeepsLooping()
    ensures var (d', x', y') := CircleStepAsWritten(3 - 2 * 0, 0, 0);
            y' == 0xFFFF_FFFF && x' == 1 && x' <= y'
  {
  }

  /** With signed coordinates the same radius yields the single step (0, 0): the
      eight pixels of the centre and nothing else. */
  lemma RadiusZeroSingleStep()
    ensures CircleSteps(0) == [Point(0, 0)]
  {
    assert CircleFrom(13, 1, -1) == [];
  }

  /** On a step with x <= y, y >= 1 and a decision far from the `int32_t`
      limits, the two step functions agree (CircleStepsAsWritten shows every
      visited step of a radius from 1 to 0xFFFF is such a step). */
  lemma CircleStepAgrees(d: int, x: int, y: int)
    requires 0 <= x <= y < 0x1000_0000 && 1 <= y && -0x4000_0000 < d < 0x4000_0000
    ensures CircleStepAsWritten(d, x, y) == CircleStep(d, x, y)
  {
    if d >= 0 && x < y {
      assert U32(x - y) == x - y + Two32;
      assert U32(4 * U32(x - y)) == 4 * (x - y) + Two32;
      assert U32(d + U32(4 * U32(x - y)) + 10) == U32(d + 4 * (x - y) + 10);
    }
  }

  /** The source's loop, with its machine types, started in state (d, x, y),
      visits exactly the positions pts and then finds `current_x <= current_y`
      false. */
  predicate AsWrittenRun(d: int, x: int, y: int, pts: seq<Point>)
    requires 0 <= x < Two32 && 0 <= y < Two32
    decreases |pts|
  {
    if pts == [] then x > y
    else
      var (d', x', y') := CircleStepAsWritten(d, x, y);
      x <= y && pts[0] == Point(x, y) && AsWrittenRun(d', x', y', pts[1..])
  }

  /** The bound the decision variable keeps at every visited step. */
  predicate DecisionBounded(radius: int, d: int, x: int)
  {
    -4 * radius <= d < 4 * x + 10
  }

  /** A step from a visited position keeps the bound whenever the loop goes on. */
  lemma CircleStepBounded(radius: int, d: int, x: int, y: int)
    requires 0 <= x <= y <= radius && 1 <= y && DecisionBounded(radius, d, x)
    ensures var (d', x', y') := CircleStep(d, x, y);
            0 <= y' <= radius && (x' <= y' ==> DecisionBounded(radius, d', x'))
  {
  }

  /** From a state that keeps the bound, the source's loop visits what
      CircleFrom lists. */
  lemma {:induction false} CircleFromAsWritten(radius: int, d: int, x: int, y: int)
    requires 1 <= radius < 0x1_0000 && 0 <= x <= radius + 1 && 0 <= y <= radius
    requires x <= y ==> 1 <= y && DecisionBounded(radius, d, x)
    ensures AsWrittenRun(d, x, y, CircleFrom(d, x, y))
    decreases y - x + 1
  {
    if x <= y {
      CircleStepAgrees(d, x, y);
      CircleStepBounded(radius, d, x, y);
      var (d', x', y') := CircleStep(d, x, y);
      CircleFromAsWritten(radius, d', x', y');
      var pts := CircleFrom(d, x, y);
      assert pts == [Point(x, y)] + CircleFrom(d', x', y');
      assert pts[1..] == CircleFrom(d', x', y');
    }
  }

  /** For every radius from 1 to 0xFFFF the source's loop, with `uint32_t`
      coordinates, an `int32_t` decision and the unsigned increment, visits
      exactly the steps of the signed recurrence and then stops. */
  lemma CircleStepsAsWritten(radius: int)
    requires 1 <= radius < 0x1_0000
    ensures AsWrittenRun(3 - 2 * radius, 0, radius, CircleSteps(radius))
  {
    CircleFromAsWritten(radius, 3 - 2 * radius, 0, radius);
  }

  // ---------------------------------------------------------------------------
  // Filled disc (LCD_DrawFullCircle)

  datatype DiscState = DiscState(x: int, y: int, f: int, ddFx: int, ddFy: int)

  function DiscStart(radius: int): DiscState
  {
    DiscState(0, radius, 1 - radius, 1, -2 * radius)
  }

  /** One pass of LCD_DrawFullCircle's loop body before its four spans. */
  function DiscStep(s: DiscState): DiscState
  {
    var s1 := if s.f >= 0 then DiscState(s.x, s.y - 1, s.f + s.ddFy + 2, s.ddFx, s.ddFy + 2) else s;
    DiscState(s1.x + 1, s1.y, s1.f + s1.ddFx + 2, s1.ddFx + 2, s1.ddFy)
  }

  /** The loop-head identities stated in the source's comments. */
  predicate DiscInvariant(radius: int, s: DiscState)
  {
    s.ddFx == 2 * s.x + 1 && s.ddFy == -2 * s.y &&
    s.f == s.x * s.x + s.y * s.y - radius * radius + 2 * s.x - s.y + 1
  }

  lemma DiscStartInvariant(radius: int)
    ensures DiscInvariant(radius, DiscStart(radius))
  {
  }

  /** One pass keeps the identities, moves x one to the right and y down by at most one. */
  lemma DiscStepInvariant(radius: int, s: DiscState)
    requires DiscInvariant(radius, s)
    ensures DiscInvariant(radius, DiscStep(s))
    ensures DiscStep(s).x == s.x + 1
    ensures DiscStep(s).y == s.y || DiscStep(s).y == s.y - 1
  {
    var s1 := if s.f >= 0 then DiscState(s.x, s.y - 1, s.f + s.ddFy + 2, s.ddFx, s.ddFy + 2) else s;
    assert DiscInvariant(radius, s1) by {
      if s.f >= 0 {
        assert (s.y - 1) * (s.y - 1) == s.y * s.y - 2 * s.y + 1;
      }
    }
    assert (s1.x + 1) * (s1.x + 1) == s1.x * s1.x + 2 * s1.x + 1;
  }

  /** The states after each pass (the positions whose spans are drawn). */
  function DiscFrom(s: DiscState): seq<DiscState>
    decreases s.y - s.x
  {
    if s.x >= s.y then []
    else
      var s' := DiscStep(s);
      [s'] + DiscFrom(s')
  }

  /** Every pass satisfies the identities, x is one more than in the pass before
      and y is never larger; after the last pass x >= y. */
  lemma {:induction false} DiscFromShape(radius: int, s: DiscState)
    requires DiscInvariant(radius, s)
    ensures var t := DiscFrom(s);
            (forall k :: 0 <= k < |t| ==> DiscInvariant(radius, t[k]) && t[k].x == s.x + k + 1 && t[k].y <= s.y) &&
            (forall k :: 0 < k < |t| ==> t[k].y <= t[k - 1].y) &&
            (|t| > 0 ==> t[|t| - 1].x >= t[|t| - 1].y) &&
            (|t| == 0 <==> s.x >= s.y)
    decreases s.y - s.x
  {
    if s.x < s.y {
      var s' := DiscStep(s);
      DiscStepInvariant(radius, s);
      DiscFromShape(radius, s');
      var t := DiscFrom(s);
      assert t == [s'] + DiscFrom(s');
      assert forall k :: 0 < k < |t| ==> t[k] == DiscFrom(s')[k - 1];
    }
  }

  /** An unchecked vertical span request: DrawFastLineVertical(x, y1, y2). */
  datatype Span = Span(x: int, y1: int, y2: int)

  /** The four spans LCD_DrawFullCircle draws after a pass, with the conversions
      of its `uint16_t` parameters. */
  function DiscSpans(xpos: int, ypos: int, x: int, y: int): seq<Span>
  {
    [Span(U16(xpos + x), U16(ypos - y), U16(ypos + y)),
     Span(U16(xpos - x), U16(ypos - y), U16(ypos + y)),
     Span(U16(xpos + y), U16(ypos - x), U16(ypos + x)),
     Span(U16(xpos - y), U16(ypos - x), U16(ypos + x))]
  }

  function DiscSpansOf(xpos: int, ypos: int, t: seq<DiscState>): (r: seq<Span>)
    ensures |r| == 4 * |t|
    decreases |t|
  {
    if t == [] then []
    else
      var s := t[|t| - 1];
      DiscSpansOf(xpos, ypos, t[..|t| - 1]) + DiscSpans(xpos, ypos, s.x, s.y)
  }

  /** What one span request does to memory: rows min(y1, y2) to max(y1, y2) of column x. */
  function SpanFill(m: seq<Byte>, v: FastView, sp: Span, c: Color): (r: seq<Byte>)
    ensures |r| == |m|
  {
    ColumnFill(m, v, sp.x, Min(sp.y1, sp.y2), Max(sp.y1, sp.y2), c)
  }

  /** What a sequence of span requests does to memory, in one colour. */
  function SpansFill(m: seq<Byte>, v: FastView, spans: seq<Span>, c: Color): (r: seq<Byte>)
    ensures |r| == |m|
    decreases |spans|
  {
    if spans == [] then m
    else SpanFill(SpansFill(m, v, spans[..|spans| - 1], c), v, spans[|spans| - 1], c)
  }

  lemma SpansFillPrefix(m: seq<Byte>, v: FastView, d: seq<Span>, k: nat, c: Color)
    requires k < |d|
    ensures SpansFill(m, v, d[..k + 1], c) == SpanFill(SpansFill(m, v, d[..k], c), v, d[k], c)
  {
    assert d[..k + 1][..k] == d[..k];
  }

  /** Memory after the four DrawFastLineVertical calls of a pass ending at (x, y). */
  function DiscPassPlot(m: seq<Byte>, v: FastView, xpos: int, ypos: int, x: int, y: int, c: Color): seq<Byte>
  {
    var m1 := ColumnFill(m, v, U16(xpos + x), Min(U16(ypos - y), U16(ypos + y)), Max(U16(ypos - y), U16(ypos + y)), c);
    var m2 := ColumnFill(m1, v, U16(xpos - x), Min(U16(ypos - y), U16(ypos + y)), Max(U16(ypos - y), U16(ypos + y)), c);
    var m3 := ColumnFill(m2, v, U16(xpos + y), Min(U16(ypos - x), U16(ypos + x)), Max(U16(ypos - x), U16(ypos + x)), c);
    ColumnFill(m3, v, U16(xpos - y), Min(U16(ypos - x), U16(ypos + x)), Max(U16(ypos - x), U16(ypos + x)), c)
  }

  /** The four spans of a pass, one request after another. */
  lemma DiscPassSpans(m: seq<Byte>, v: FastView, xpos: int, ypos: int, x: int, y: int, c: Color)
    ensures DiscPassPlot(m, v, xpos, ypos, x, y, c) == SpansFill(m, v, DiscSpans(xpos, ypos, x, y), c)
  {
    var d := DiscSpans(xpos, ypos, x, y);
    assert d[..0] == [];
    SpansFillPrefix(m, v, d, 0, c);
    SpansFillPrefix(m, v, d, 1, c);
    SpansFillPrefix(m, v, d, 2, c);
    SpansFillPrefix(m, v, d, 3, c);
    assert d[..4] == d;
  }

  lemma DiscSpansOfSnoc(xpos: int, ypos: int, passes: seq<DiscState>, s: DiscState)
    ensures DiscSpansOf(xpos, ypos, passes + [s]) == DiscSpansOf(xpos, ypos, passes) + DiscSpans(xpos, ypos, s.x, s.y)
  {
    assert (passes + [s])[..|passes|] == passes;
  }

  /** The spans of one more pass follow those of the passes before it. */
  lemma DiscPassFill(m: seq<Byte>, v: FastView, xpos: int, ypos: int, passes: seq<DiscState>, s: DiscState, x: int, y: int, c: Color)
    requires s.x == x && s.y == y
    ensures DiscPassPlot(SpansFill(m, v, DiscSpansOf(xpos, ypos, passes), c), v, xpos, ypos, x, y, c) ==
            SpansFill(m, v, DiscSpansOf(xpos, ypos, passes + [s]), c)
  {
    DiscPassSpans(SpansFill(m, v, DiscSpansOf(xpos, ypos, passes), c), v, xpos, ypos, x, y, c);
    DiscSpansOfSnoc(xpos, ypos, passes, s);
    SpansFillAppend(m, v, DiscSpansOf(xpos, ypos, passes), DiscSpans(xpos, ypos, x, y), c);
  }

  /** A pass that runs (x < y) is followed by the passes from its end state. */
  lemma DiscFromNext(done: seq<DiscState>, s: DiscState)
    requires s.x < s.y
    ensures done + DiscFrom(s) == (done + [DiscStep(s)]) + DiscFrom(DiscStep(s))
  {
  }

  /** With the disc inside the 16-bit coordinate range, the first two spans of a
      pass at (x, y) are each 2y + 1 rows tall and the other two 2x + 1. */
  lemma DiscSpanHeights(xpos: int, ypos: int, s: DiscState)
    requires 0 <= s.x && 0 <= s.y
    requires s.x <= xpos && s.y <= xpos && xpos + s.x < Two16 && xpos + s.y < Two16
    requires s.x <= ypos && s.y <= ypos && ypos + s.x < Two16 && ypos + s.y < Two16
    ensures var sp := DiscSpans(xpos, ypos, s.x, s.y);
            sp[0].y2 - sp[0].y1 + 1 == 2 * s.y + 1 && sp[1].y2 - sp[1].y1 + 1 == 2 * s.y + 1 &&
            sp[2].y2 - sp[2].y1 + 1 == 2 * s.x + 1 && sp[3].y2 - sp[3].y1 + 1 == 2 * s.x + 1 &&
            sp[0].x == xpos + s.x && sp[1].x == xpos - s.x && sp[2].x == xpos + s.y && sp[3].x == xpos - s.y
  {
  }

  lemma {:induction false} SpansFillAppend(m: seq<Byte>, v: FastView, a: seq<Span>, b: seq<Span>, c: Color)
    ensures SpansFill(m, v, a + b, c) == SpansFill(SpansFill(m, v, a, c), v, b, c)
    decreases |b|
  {
    if b == [] {
      assert a + b == a;
    } else {
      var b' := b[..|b| - 1];
      assert (a + b)[..|a + b| - 1] == a + b';
      assert (a + b)[|a + b| - 1] == b[|b| - 1];
      SpansFillAppend(m, v, a, b', c);
    }
  }

  // ---------------------------------------------------------------------------
  // Filled circle as horizontal runs (LCD_FillCircle)

  /** The LCD_DrawHLine requests LCD_FillCircle makes at a step (current_x, current_y)
      of the outline recurrence: two runs of 2 * current_y pixels from
      Xpos - current_y on rows Ypos + current_x and Ypos - current_x when
      current_y > 0, then two runs of 2 * current_x pixels from Xpos - current_x
      on rows Ypos - current_y and Ypos + current_y when current_x > 0. */
  function StepRuns(l: Layer, layer: nat, xpos: int, ypos: int, x: int, y: int, c: Color): (r: seq<FillRequest>)
    ensures |r| == (if y > 0 then 2 else 0) + (if x > 0 then 2 else 0)
  {
    (if y > 0 then
       [HLineRequest(l, layer, U16(xpos - y), U16(ypos + x), U16(2 * y), c),
        HLineRequest(l, layer, U16(xpos - y), U16(ypos - x), U16(2 * y), c)]
     else []) +
    (if x > 0 then
       [HLineRequest(l, layer, U16(xpos - x), U16(ypos - y), U16(2 * x), c),
        HLineRequest(l, layer, U16(xpos - x), U16(ypos + y), U16(2 * x), c)]
     else [])
  }

  function CircleRunsOf(l: Layer, layer: nat, xpos: int, ypos: int, steps: seq<Point>, c: Color): seq<FillRequest>
    decreases |steps|
  {
    if steps == [] then []
    else
      var s := steps[|steps| - 1];
      CircleRunsOf(l, layer, xpos, ypos, steps[..|steps| - 1], c) + StepRuns(l, layer, xpos, ypos, s.x, s.y, c)
  }

  /** All run requests of LCD_FillCircle, in order. */
  function FillCircleRuns(l: Layer, layer: nat, xpos: int, ypos: int, radius: nat, c: Color): seq<FillRequest>
  {
    CircleRunsOf(l, layer, xpos, ypos, CircleSteps(radius), c)
  }

  lemma CircleRunsOfSnoc(l: Layer, layer: nat, xpos: int, ypos: int, steps: seq<Point>, x: int, y: int, c: Color)
    ensures CircleRunsOf(l, layer, xpos, ypos, steps + [Point(x, y)], c) ==
            CircleRunsOf(l, layer, xpos, ypos, steps, c) + StepRuns(l, layer, xpos, ypos, x, y, c)
  {
    assert (steps + [Point(x, y)])[..|steps|] == steps;
  }

  /** Inside the 16-bit coordinate range, the first run of step k is the
      horizontal request of 2y pixels from (Xpos - y, Ypos + x), so (by
      Fills.CoversHLine) it covers columns Xpos - y to Xpos + y - 1: it stops one
      pixel short of its mirror image, and that last pixel (Xpos + y, Ypos + x)
      is one the outline pass LCD_FillCircle ends with writes. */
  lemma FillCircleRunMeetsOutline(l: Layer, layer: nat, xpos: int, ypos: int, radius: nat, c: Color, k: nat)
    requires k < |CircleSteps(radius)|
    requires var s := CircleSteps(radius)[k];
             0 < s.y <= xpos && xpos + s.y < Two16 && 0 <= s.x <= ypos && ypos + s.x < Two16
    ensures var s := CircleSteps(radius)[k];
            var q := StepRuns(l, layer, xpos, ypos, s.x, s.y, c)[0];
            q == HLineRequest(l, layer, xpos - s.y, ypos + s.x, 2 * s.y, c) &&
            CircleWrites(xpos, ypos, radius)[8 * k + 6] == Point(xpos - s.y + 2 * s.y, ypos + s.x)
  {
    var s := CircleSteps(radius)[k];
    var q := StepRuns(l, layer, xpos, ypos, s.x, s.y, c)[0];
    assert q == HLineRequest(l, layer, xpos - s.y, ypos + s.x, 2 * s.y, c);
    CircleWritesAt(xpos, ypos, CircleSteps(radius), k, 6);
  }
}
