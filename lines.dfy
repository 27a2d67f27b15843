/** Geometry of the incremental line walk shared by LCD_DrawLine (one pixel per
    step) and FillTriangle (one line to the third vertex per step).

    The walk keeps a numerator `num` that starts at den/2 and grows by `num_add`
    per step; each time it reaches `den` it drops by `den` and the minor
    coordinate moves one unit. After k steps the minor coordinate has therefore
    moved (den/2 + k*num_add) / den times and `num` is (den/2 + k*num_add) % den.
    This module states that closed form and proves what follows from it. */
module Lines {
  import opened Bytes
  import opened Frame

  function Abs(x: int): nat
  {
    if x > 0 then x else -x
  }

  /** The values the walk sets up before its loop: whether x is the driving axis,
      den, num_add, num_pixels and the two directions. */
  datatype Walk = Walk(xMajor: bool, den: nat, numAdd: nat, numPixels: nat, sx: int, sy: int)

  function Setup(x1: int, y1: int, x2: int, y2: int): (w: Walk)
    ensures w.numAdd <= w.den && w.numPixels == w.den
    ensures w.den == Max(Abs(x2 - x1), Abs(y2 - y1))
    ensures w.sx == 1 || w.sx == -1
    ensures w.sy == 1 || w.sy == -1
  {
    var dx := Abs(x2 - x1);
    var dy := Abs(y2 - y1);
    var sx := if x2 >= x1 then 1 else -1;
    var sy := if y2 >= y1 then 1 else -1;
    if dx >= dy then Walk(true, dx, dy, dx, sx, sy)
    else Walk(false, dy, dx, dy, sx, sy)
  }

  /** How many times the minor coordinate has moved after k steps. With den = 0
      the test `num >= den` always holds, so it moves every step. */
  function MinorSteps(den: nat, add: nat, k: nat): int
  {
    if den == 0 then k else (den / 2 + k * add) / den
  }

  /** The numerator after k steps. */
  function Residue(den: nat, add: nat, k: nat): int
  {
    if den == 0 then 0 else (den / 2 + k * add) % den
  }

  /** start moved n units in the direction dir (1 or -1). */
  function Move(start: int, dir: int, n: int): int
  {
    if dir < 0 then start - n else start + n
  }

  /** The position of the walk after k steps. */
  function WalkPoint(x1: int, y1: int, x2: int, y2: int, k: nat): Point
  {
    var w := Setup(x1, y1, x2, y2);
    var minor := MinorSteps(w.den, w.numAdd, k);
    if w.xMajor then Point(Move(x1, w.sx, k), Move(y1, w.sy, minor))
    else Point(Move(x1, w.sx, minor), Move(y1, w.sy, k))
  }

  /** The pixels LCD_DrawLine visits, in order: num_pixels + 1 positions of the walk. */
  function LinePixels(x1: int, y1: int, x2: int, y2: int): seq<Point>
  {
    seq(Setup(x1, y1, x2, y2).numPixels + 1, (k: int) requires 0 <= k => WalkPoint(x1, y1, x2, y2, k))
  }

  /** A walk whose `int16_t` locals cannot wrap while it draws: num plus
      num_add is at most den - 1 + num_add, and curpixel counts up to
      num_pixels + 1 = den + 1. */
  predicate FitsInt16(x1: int, y1: int, x2: int, y2: int)
  {
    var w := Setup(x1, y1, x2, y2);
    w.den + w.numAdd <= 0x8000 && w.den < 0x7FFF
  }

  /** Under FitsInt16 the values the loop stores in `num` and `curpixel` before
      its last test all lie in [0, 0x8000). */
  lemma FitsInt16Values(x1: int, y1: int, x2: int, y2: int, k: nat)
    requires FitsInt16(x1, y1, x2, y2) && k <= Setup(x1, y1, x2, y2).numPixels
    ensures var w := Setup(x1, y1, x2, y2);
            0 <= Residue(w.den, w.numAdd, k) + w.numAdd < 0x8000 && k + 1 < 0x8000
  {
    var w := Setup(x1, y1, x2, y2);
    if w.den > 0 {
      ResidueRange(w.den, w.numAdd, k);
    }
  }

  /** End points whose coordinates lie in [0, 0x4000) give a walk that fits. */
  lemma SmallFitsInt16(x1: int, y1: int, x2: int, y2: int)
    requires 0 <= x1 < 0x4000 && 0 <= y1 < 0x4000 && 0 <= x2 < 0x4000 && 0 <= y2 < 0x4000
    ensures FitsInt16(x1, y1, x2, y2)
  {
  }

  /** A vertical line fits when it is shorter than 0x7FFF: num_add is 0. */
  lemma VerticalFitsInt16(x: int, y1: int, y2: int)
    requires y1 <= y2 && y2 - y1 < 0x7FFF
    ensures FitsInt16(x, y1, x, y2)
  {
  }

  // ---------------------------------------------------------------------------
  // The walk, step by step

  /** One step of the walk in closed form: the numerator wraps exactly when the
      minor coordinate moves. */
  lemma WalkStep(den: nat, add: nat, k: nat)
    requires add <= den
    ensures var r := Residue(den, add, k);
            var wrap := den == 0 || r + add >= den;
            Residue(den, add, k + 1) == (if den == 0 then 0 else if wrap then r + add - den else r + add) &&
            MinorSteps(den, add, k + 1) == MinorSteps(den, add, k) + (if wrap then 1 else 0)
  {
    if den > 0 {
      var n := den / 2 + k * add;
      var q, r := n / den, n % den;
      assert n == q * den + r;
      assert den / 2 + (k + 1) * add == n + add;
      if r + add >= den {
        DivModUnique(n + add, den, q + 1, r + add - den);
      } else {
        DivModUnique(n + add, den, q, r + add);
      }
    }
  }

  /** One step of the walk in coordinates: the driving coordinate moves by its
      direction, the other one moves exactly when the numerator wraps. */
  lemma WalkAdvance(x1: int, y1: int, x2: int, y2: int, k: nat)
    ensures var w := Setup(x1, y1, x2, y2);
            var p := WalkPoint(x1, y1, x2, y2, k);
            var r := Residue(w.den, w.numAdd, k);
            var wrap := w.den == 0 || r + w.numAdd >= w.den;
            WalkPoint(x1, y1, x2, y2, k + 1) ==
              if w.xMajor then Point(p.x + w.sx, p.y + (if wrap then w.sy else 0))
              else Point(p.x + (if wrap then w.sx else 0), p.y + w.sy)
  {
    var w := Setup(x1, y1, x2, y2);
    WalkStep(w.den, w.numAdd, k);
  }

  /** The source's four increments for a walk: on an x-major walk every step
      adds xinc2 = sx and a wrap adds yinc1 = sy; on a y-major walk every step
      adds yinc2 = sy and a wrap adds xinc1 = sx; the other two are 0. */
  predicate Increments(w: Walk, xinc1: int, xinc2: int, yinc1: int, yinc2: int)
  {
    if w.xMajor then xinc1 == 0 && xinc2 == w.sx && yinc1 == w.sy && yinc2 == 0
    else xinc1 == w.sx && xinc2 == 0 && yinc1 == 0 && yinc2 == w.sy
  }

  /** One pass of the source's loop body, in its own terms: num += num_add; on a
      wrap num -= den and the wrap increments are added; then the step
      increments are added. It takes the walk from pixel k to pixel k + 1. */
  lemma IncrementStep(x1: int, y1: int, x2: int, y2: int, k: nat,
                      xinc1: int, xinc2: int, yinc1: int, yinc2: int, x: int, y: int, num: int)
    requires Increments(Setup(x1, y1, x2, y2), xinc1, xinc2, yinc1, yinc2)
    requires Point(x, y) == WalkPoint(x1, y1, x2, y2, k)
    requires num == Residue(Setup(x1, y1, x2, y2).den, Setup(x1, y1, x2, y2).numAdd, k)
    ensures var w := Setup(x1, y1, x2, y2);
            num + w.numAdd >= w.den ==>
              Point(x + xinc1 + xinc2, y + yinc1 + yinc2) == WalkPoint(x1, y1, x2, y2, k + 1) &&
              num + w.numAdd - w.den == Residue(w.den, w.numAdd, k + 1)
    ensures var w := Setup(x1, y1, x2, y2);
            num + w.numAdd < w.den ==>
              Point(x + xinc2, y + yinc2) == WalkPoint(x1, y1, x2, y2, k + 1) &&
              num + w.numAdd == Residue(w.den, w.numAdd, k + 1)
  {
    var w := Setup(x1, y1, x2, y2);
    WalkStep(w.den, w.numAdd, k);
    WalkAdvance(x1, y1, x2, y2, k);
  }

  /** The numerator stays in [0, den) whenever den is positive. */
  lemma ResidueRange(den: nat, add: nat, k: nat)
    requires den > 0
    ensures 0 <= Residue(den, add, k) < den
  {
  }

  /** After den steps the minor coordinate has moved exactly num_add times. */
  lemma WalkEnd(den: nat, add: nat)
    requires add <= den
    ensures MinorSteps(den, add, den) == add
  {
    if den > 0 {
      DivModUnique(den / 2 + den * add, den, add, den / 2);
    }
  }

  lemma MinorStepsStart(den: nat, add: nat)
    ensures MinorSteps(den, add, 0) == 0
  {
    if den > 0 {
      DivModUnique(den / 2, den, 0, den / 2);
    }
  }

  /** Before the first step the walk is at (x1, y1) with num = den / 2. */
  lemma WalkStart(x1: int, y1: int, x2: int, y2: int)
    ensures WalkPoint(x1, y1, x2, y2, 0) == Point(x1, y1)
    ensures var w := Setup(x1, y1, x2, y2); Residue(w.den, w.numAdd, 0) == w.den / 2
  {
    var w := Setup(x1, y1, x2, y2);
    MinorStepsStart(w.den, w.numAdd);
    if w.den > 0 {
      DivModUnique(w.den / 2, w.den, 0, w.den / 2);
    }
  }

  // ---------------------------------------------------------------------------
  // Properties of the drawn line

  /** LCD_DrawLine visits exactly max(|x2-x1|, |y2-y1|) + 1 pixels. */
  lemma LinePixelCount(x1: int, y1: int, x2: int, y2: int)
    ensures |LinePixels(x1, y1, x2, y2)| == Max(Abs(x2 - x1), Abs(y2 - y1)) + 1
  {
  }

  /** The first pixel is (x1, y1) and the last is (x2, y2). */
  lemma LineEndpoints(x1: int, y1: int, x2: int, y2: int)
    ensures var px := LinePixels(x1, y1, x2, y2);
            px[0] == Point(x1, y1) && px[|px| - 1] == Point(x2, y2)
  {
    var w := Setup(x1, y1, x2, y2);
    MinorStepsStart(w.den, w.numAdd);
    WalkEnd(w.den, w.numAdd);
    var px := LinePixels(x1, y1, x2, y2);
    assert px[0] == WalkPoint(x1, y1, x2, y2, 0);
    assert px[|px| - 1] == WalkPoint(x1, y1, x2, y2, w.den);
  }

  /** From one pixel to the next the driving coordinate moves by exactly one
      unit towards the end point and the other coordinate by zero or one unit. */
  lemma LineStep(x1: int, y1: int, x2: int, y2: int, k: nat)
    requires k + 1 < |LinePixels(x1, y1, x2, y2)|
    ensures var w := Setup(x1, y1, x2, y2);
            var p, q := LinePixels(x1, y1, x2, y2)[k], LinePixels(x1, y1, x2, y2)[k + 1];
            if w.xMajor then q.x == p.x + w.sx && (q.y == p.y || q.y == p.y + w.sy)
            else q.y == p.y + w.sy && (q.x == p.x || q.x == p.x + w.sx)
  {
    WalkAdvance(x1, y1, x2, y2, k);
  }

  /** No pixel of a line is visited twice. */
  lemma LineNoRepeat(x1: int, y1: int, x2: int, y2: int, i: nat, j: nat)
    requires i < j < |LinePixels(x1, y1, x2, y2)|
    ensures LinePixels(x1, y1, x2, y2)[i] != LinePixels(x1, y1, x2, y2)[j]
  {
    var p, q := LinePixels(x1, y1, x2, y2)[i], LinePixels(x1, y1, x2, y2)[j];
    assert p == WalkPoint(x1, y1, x2, y2, i) && q == WalkPoint(x1, y1, x2, y2, j);
  }

  /** Every pixel of the walk lies in the bounding box of its end points. */
  lemma WalkInBox(x1: int, y1: int, x2: int, y2: int, k: nat)
    requires k <= Setup(x1, y1, x2, y2).numPixels
    ensures var p := WalkPoint(x1, y1, x2, y2, k);
            (x1 <= p.x <= x2 || x2 <= p.x <= x1) && (y1 <= p.y <= y2 || y2 <= p.y <= y1)
  {
    var w := Setup(x1, y1, x2, y2);
    MinorStepsMonotone(w.den, w.numAdd, k, w.den);
    MinorStepsStart(w.den, w.numAdd);
    WalkEnd(w.den, w.numAdd);
    MinorStepsMonotone(w.den, w.numAdd, 0, k);
  }

  lemma MinorStepsMonotone(den: nat, add: nat, i: nat, j: nat)
    requires add <= den && i <= j
    ensures MinorSteps(den, add, i) <= MinorSteps(den, add, j)
    decreases j - i
  {
    if i < j {
      WalkStep(den, add, i);
      MinorStepsMonotone(den, add, i + 1, j);
    }
  }
}
