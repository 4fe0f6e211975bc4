/** The integer line loop: where it goes, how long it runs, how close it stays to the ideal line. */
module Bresenham {

  datatype Point = Point(x: int, y: int)

  function Abs(n: int): int {
    if n < 0 then -n else n
  }

  function Max(a: int, b: int): int {
    if a < b then b else a
  }

  function Sign(from: int, to: int): int {
    if from < to then 1 else -1
  }

  /** k steps from one coordinate towards the other. */
  function Toward(from: int, to: int, k: int): int {
    if from < to then from + k else from - k
  }

  /**
   After i steps along x and j along y of a line that spans a by b: within half a pixel of the
   ideal line, measured along the shorter side and scaled by the longer one.
   */
  predicate Near(a: int, b: int, i: int, j: int) {
    if a >= b then -a <= 2 * (b * i - a * j) <= a else -b <= 2 * (a * j - b * i) <= b
  }

  /** After t steps the longer side has advanced t times. */
  predicate OnTrack(a: int, b: int, i: int, j: int, t: int) {
    0 <= i <= a && 0 <= j <= b && (if a >= b then i == t else j == t) && Near(a, b, i, j)
  }

  /** The loop's error term. */
  function ErrorAt(a: int, b: int, i: int, j: int): int {
    a - b - b * i + a * j
  }

  lemma Product(a: int, k: int)
    requires a > 0
    ensures k >= 1 ==> a * k >= a
    ensures k <= -1 ==> a * k <= -a
  {
    if k >= 1 {
      assert a * k == a + a * (k - 1) && a * (k - 1) >= 0;
    } else if k <= -1 {
      assert a * k == -a + a * (k + 1) && a * (k + 1) <= 0;
    }
  }

  /** Multiples of a at most half of a apart are equal. */
  lemma SameMultiple(a: int, j: int, b: int)
    requires a > 0 && -a <= 2 * (a * b - a * j) <= a
    ensures j == b
  {
    assert a * b - a * j == a * (b - j);
    Product(a, b - j);
  }

  /** Near the line and between the ends along one side means between the ends along the other. */
  lemma Bounded(a: int, b: int, i: int, j: int)
    requires a > 0 && b >= 0 && 0 <= i <= a && -a <= 2 * (b * i - a * j) <= a
    ensures 0 <= j <= b
  {
    assert 0 <= b * i <= b * a by { assert b * (a - i) >= 0 && b * (a - i) == b * a - b * i; }
    assert a * j - b * a == a * (j - b);
    Product(a, j - b);
    Product(a, j);
  }

  /** One step with a >= b: x advances, y advances as the error says, and the point stays near the line. */
  lemma StepLong(a: int, b: int, i: int, j: int)
    requires a >= b >= 0 && OnTrack(a, b, i, j, i) && i < a
    ensures 2 * ErrorAt(a, b, i, j) >= -b
    ensures OnTrack(a, b, i + 1, if 2 * ErrorAt(a, b, i, j) <= a then j + 1 else j, i + 1)
  {
    var d := b * i - a * j;
    assert ErrorAt(a, b, i, j) == a - b - d;
    assert b * (i + 1) == b * i + b && a * (j + 1) == a * j + a;
    Bounded(a, b, i + 1, if 2 * ErrorAt(a, b, i, j) <= a then j + 1 else j);
  }

  /** One step with a < b: the same with the axes exchanged. */
  lemma StepShort(a: int, b: int, i: int, j: int)
    requires 0 <= a < b && OnTrack(a, b, i, j, j) && j < b
    ensures 2 * ErrorAt(a, b, i, j) <= a
    ensures OnTrack(a, b, if 2 * ErrorAt(a, b, i, j) >= -b then i + 1 else i, j + 1, j + 1)
  {
    var d := a * j - b * i;
    assert ErrorAt(a, b, i, j) == a - b + d;
    assert a * (j + 1) == a * j + a && b * (i + 1) == b * i + b;
    Bounded(b, a, j + 1, if 2 * ErrorAt(a, b, i, j) >= -b then i + 1 else i);
  }

  /** The end point is reached exactly when the longer side is used up. */
  lemma EndReached(a: int, b: int, i: int, j: int, t: int)
    requires a >= 0 && b >= 0 && OnTrack(a, b, i, j, t)
    ensures t <= Max(a, b) && (i == a && j == b <==> t == Max(a, b))
  {
    if t == Max(a, b) && t > 0 {
      assert b * a == a * b;
      if a >= b { SameMultiple(a, j, b); } else { SameMultiple(b, i, a); }
    }
  }

  /** In the box spanned by the end points. */
  predicate Inside(p: Point, x0: int, y0: int, x1: int, y1: int) {
    && (if x0 < x1 then x0 <= p.x <= x1 else x1 <= p.x <= x0)
    && (if y0 < y1 then y0 <= p.y <= y1 else y1 <= p.y <= y0)
  }

  /** The t-th pixel: in the box and within half a pixel of the ideal line. */
  predicate PixelOk(p: Point, x0: int, y0: int, x1: int, y1: int, t: int) {
    OnTrack(Abs(x1 - x0), Abs(y1 - y0), Abs(p.x - x0), Abs(p.y - y0), t) && Inside(p, x0, y0, x1, y1)
  }

  lemma PixelAt(x0: int, y0: int, x1: int, y1: int, i: int, j: int, t: int)
    requires OnTrack(Abs(x1 - x0), Abs(y1 - y0), i, j, t)
    ensures PixelOk(Point(Toward(x0, x1, i), Toward(y0, y1, j)), x0, y0, x1, y1, t)
  {
  }

  /** The counters after one pass of the loop. */
  function NextX(a: int, b: int, i: int, j: int): int {
    if 2 * ErrorAt(a, b, i, j) >= -b then i + 1 else i
  }

  function NextY(a: int, b: int, i: int, j: int): int {
    if 2 * ErrorAt(a, b, i, j) <= a then j + 1 else j
  }

  /** The loop's updates of the error term keep it the error of the counters. */
  lemma ErrorMoves(a: int, b: int, i: int, j: int)
    ensures var e := ErrorAt(a, b, i, j);
            ErrorAt(a, b, NextX(a, b, i, j), NextY(a, b, i, j))
            == e + (if 2 * e >= -b then -b else 0) + (if 2 * e <= a then a else 0)
  {
    assert b * (i + 1) == b * i + b && a * (j + 1) == a * j + a;
  }

  /** What one pass of the loop does to the two counters. */
  lemma StepBoth(a: int, b: int, i: int, j: int, t: int)
    requires a >= 0 && b >= 0 && OnTrack(a, b, i, j, t) && t < Max(a, b)
    ensures OnTrack(a, b, NextX(a, b, i, j), NextY(a, b, i, j), t + 1)
  {
    if a >= b { StepLong(a, b, i, j); } else { StepShort(a, b, i, j); }
  }

  predicate Traced(pixels: seq<Point>, x0: int, y0: int, x1: int, y1: int) {
    forall t | 0 <= t < |pixels| :: PixelOk(pixels[t], x0, y0, x1, y1, t)
  }

  /** The loop's state after |pixels| - 1 passes, with i steps along x and j along y. */
  predicate Tracing(pixels: seq<Point>, x0: int, y0: int, x1: int, y1: int, i: int, j: int) {
    && pixels != [] && pixels[0] == Point(x0, y0)
    && pixels[|pixels| - 1] == Point(Toward(x0, x1, i), Toward(y0, y1, j))
    && OnTrack(Abs(x1 - x0), Abs(y1 - y0), i, j, |pixels| - 1) && Traced(pixels, x0, y0, x1, y1)
  }

  lemma TracingStep(pixels: seq<Point>, x0: int, y0: int, x1: int, y1: int, i: int, j: int)
    requires Tracing(pixels, x0, y0, x1, y1, i, j) && !(Toward(x0, x1, i) == x1 && Toward(y0, y1, j) == y1)
    ensures |pixels| <= Max(Abs(x1 - x0), Abs(y1 - y0))
    ensures var i', j' := NextX(Abs(x1 - x0), Abs(y1 - y0), i, j), NextY(Abs(x1 - x0), Abs(y1 - y0), i, j);
            Tracing(pixels + [Point(Toward(x0, x1, i'), Toward(y0, y1, j'))], x0, y0, x1, y1, i', j')
  {
    var a, b, t := Abs(x1 - x0), Abs(y1 - y0), |pixels| - 1;
    EndReached(a, b, i, j, t);
    StepBoth(a, b, i, j, t);
    PixelAt(x0, y0, x1, y1, NextX(a, b, i, j), NextY(a, b, i, j), t + 1);
  }

  lemma TracingDone(pixels: seq<Point>, x0: int, y0: int, x1: int, y1: int, i: int, j: int)
    requires Tracing(pixels, x0, y0, x1, y1, i, j) && Toward(x0, x1, i) == x1 && Toward(y0, y1, j) == y1
    ensures |pixels| == Max(Abs(x1 - x0), Abs(y1 - y0)) + 1 && pixels[|pixels| - 1] == Point(x1, y1)
  {
    EndReached(Abs(x1 - x0), Abs(y1 - y0), i, j, |pixels| - 1);
  }

  /** One pass of the loop: either or both coordinates move, and the error term with them. */
  method Advance(x: int, y: int, err: int, dx: int, dy: int, sx: int, sy: int) returns (x': int, y': int, err': int)
    ensures x' == if 2 * err >= dy then x + sx else x
    ensures y' == if 2 * err <= dx then y + sy else y
    ensures err' == err + (if 2 * err >= dy then dy else 0) + (if 2 * err <= dx then dx else 0)
  {
    x', y', err' := x, y, err;
    var e2 := err * 2;
    if e2 >= dy { err', x' := err' + dy, x' + sx; }
    if e2 <= dx { err', y' := err' + dx, y' + sy; }
  }

  /** The pass moves the coordinates as the counters say. */
  lemma Moves(x0: int, y0: int, x1: int, y1: int, i: int, j: int)
    ensures var a, b := Abs(x1 - x0), Abs(y1 - y0);
            var e, i', j' := ErrorAt(a, b, i, j), NextX(a, b, i, j), NextY(a, b, i, j);
            && Toward(x0, x1, i') == Toward(x0, x1, i) + (if 2 * e >= -b then Sign(x0, x1) else 0)
            && Toward(y0, y1, j') == Toward(y0, y1, j) + (if 2 * e <= a then Sign(y0, y1) else 0)
            && ErrorAt(a, b, i', j') == e + (if 2 * e >= -b then -b else 0) + (if 2 * e <= a then a else 0)
  {
    ErrorMoves(Abs(x1 - x0), Abs(y1 - y0), i, j);
  }

  /** The pixels of the line, in order. */
  method Line(x0: int, y0: int, x1: int, y1: int) returns (pixels: seq<Point>)
    ensures |pixels| == Max(Abs(x1 - x0), Abs(y1 - y0)) + 1
    ensures pixels[0] == Point(x0, y0) && pixels[|pixels| - 1] == Point(x1, y1)
    ensures Traced(pixels, x0, y0, x1, y1)
  {
    var x, y := x0, y0;
    var dx, dy := Abs(x1 - x0), -Abs(y1 - y0);
    var sx, sy := Sign(x0, x1), Sign(y0, y1);
    var err := dx + dy;
    ghost var i, j := 0, 0;
    pixels := [Point(x, y)];
    PixelAt(x0, y0, x1, y1, 0, 0, 0);
    while !(x == x1 && y == y1)
      invariant x == Toward(x0, x1, i) && y == Toward(y0, y1, j) && err == ErrorAt(dx, -dy, i, j)
      invariant Tracing(pixels, x0, y0, x1, y1, i, j)
      decreases Max(dx, -dy) + 1 - |pixels|
    {
      TracingStep(pixels, x0, y0, x1, y1, i, j);
      Moves(x0, y0, x1, y1, i, j);
      i, j := NextX(dx, -dy, i, j), NextY(dx, -dy, i, j);
      x, y, err := Advance(x, y, err, dx, dy, sx, sy);
      pixels := pixels + [Point(x, y)];
    }
    TracingDone(pixels, x0, y0, x1, y1, i, j);
  }
}
