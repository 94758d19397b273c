/** Least-squares fit of the output line to the calibration points
    (script.js:40-49). */
module Regression {
  import opened Geometry

  /** The four running sums the fit accumulates: Σx, Σy, Σx², Σxy. */
  datatype Sums = Sums(sx: real, sy: real, sxx: real, sxy: real)

  const NoSums := Sums(0.0, 0.0, 0.0, 0.0)

  /** Below this magnitude the fit's denominator counts as degenerate. */
  const FitEps: real := 1e-12

  function AddPoint(s: Sums, p: Point): Sums {
    Sums(s.sx + p.x, s.sy + p.y, s.sxx + p.x * p.x, s.sxy + p.x * p.y)
  }

  /** The sums over a sequence, taken front to back as the loop does. */
  function SumsOf(pts: seq<Point>): Sums {
    if pts == [] then NoSums else AddPoint(SumsOf(pts[..|pts| - 1]), pts[|pts| - 1])
  }

  /** The determinant n·Σx² − (Σx)² of the normal equations. */
  function Det(n: real, s: Sums): real { n * s.sxx - s.sx * s.sx }

  /** The fit's denominator for a sequence of points. */
  function Denom(pts: seq<Point>): real { Det(|pts| as real, SumsOf(pts)) }

  /** (n·Σxy − Σx·Σy) / d */
  function Slope(n: real, s: Sums, d: real): real
    requires d != 0.0
  {
    (n * s.sxy - s.sx * s.sy) / d
  }

  /** (Σy − m·Σx) / n */
  function Intercept(n: real, s: Sums, m: real): real
    requires n != 0.0
  {
    (s.sy - m * s.sx) / n
  }

  /** The closed form of the fit from the count and the sums: a degenerate
      denominator gives the horizontal line through the mean of y. */
  function FitFromSums(n: real, s: Sums): Line
    requires n > 0.0
  {
    var d := Det(n, s);
    if Abs(d) < FitEps then Line(0.0, s.sy / n)
    else
      var m := Slope(n, s, d);
      Line(m, Intercept(n, s, m))
  }

  /** The fitted line. A degenerate denominator gives a horizontal line; in
      every case the line passes through the centroid (n·b + m·Σx = Σy),
      and otherwise it also satisfies the second normal equation
      (m·Σx² + b·Σx = Σxy), so it is the least-squares line. */
  function Fit(pts: seq<Point>): (l: Line)
    requires |pts| >= 1
    ensures Abs(Denom(pts)) < FitEps ==> l.m == 0.0
    ensures Centroid(|pts| as real, SumsOf(pts), l)
    ensures Abs(Denom(pts)) >= FitEps ==> SecondNormal(SumsOf(pts), l)
  {
    FitFromSumsSolves(|pts| as real, SumsOf(pts));
    FitFromSums(|pts| as real, SumsOf(pts))
  }

  /** The fallback line is the horizontal line through the mean of y. */
  lemma FitFallback(pts: seq<Point>)
    requires |pts| >= 1 && Abs(Denom(pts)) < FitEps
    ensures Fit(pts) == Line(0.0, SumsOf(pts).sy / |pts| as real)
  {
    DegenerateFitSolves(|pts| as real, SumsOf(pts));
  }

  /** The accumulating loop of the source, proved to compute Fit. */
  method FitLineLeastSquares(pts: seq<Point>) returns (l: Line)
    requires |pts| >= 1
    ensures l == Fit(pts)
  {
    var n := |pts|;
    var sx, sy, sxx, sxy := 0.0, 0.0, 0.0, 0.0;
    for i := 0 to n
      invariant Sums(sx, sy, sxx, sxy) == SumsOf(pts[..i])
    {
      var p := pts[i];
      assert pts[..i + 1][..i] == pts[..i];
      sx, sy, sxx, sxy := sx + p.x, sy + p.y, sxx + p.x * p.x, sxy + p.x * p.y;
    }
    assert pts[..n] == pts;
    l := FitFromSums(n as real, Sums(sx, sy, sxx, sxy));
  }

  lemma CancelFactor(n: real, u: real, v: real)
    requires n != 0.0 && n * u == n * v
    ensures u == v
  {
    assert n * (u - v) == 0.0;
  }

  /** A slope m with m·(n·Σx² − (Σx)²) = n·Σxy − Σx·Σy and an intercept b with
      n·b = Σy − m·Σx satisfy m·Σx² + b·Σx = Σxy. */
  lemma NormalEquation(n: real, sx: real, sy: real, sxx: real, sxy: real, m: real, b: real)
    requires n != 0.0
    requires n * b == sy - m * sx
    requires m * (n * sxx - sx * sx) == n * sxy - sx * sy
    ensures m * sxx + b * sx == sxy
  {
    calc {
      n * (m * sxx + b * sx);
      m * (n * sxx) + (n * b) * sx;
      m * (n * sxx) + (sy - m * sx) * sx;
      m * (n * sxx - sx * sx) + sx * sy;
      n * sxy;
    }
    CancelFactor(n, m * sxx + b * sx, sxy);
  }

  /** The homogeneous normal equations have only the zero solution when their
      determinant n·Σx² − (Σx)² is not zero. */
  lemma NormalEquationsUnique(n: real, sx: real, sxx: real, dm: real, db: real)
    requires n * sxx - sx * sx != 0.0
    requires n * db + dm * sx == 0.0
    requires dm * sxx + db * sx == 0.0
    ensures dm == 0.0 && db == 0.0
  {
    calc {
      dm * (n * sxx - sx * sx);
      n * (dm * sxx) - (dm * sx) * sx;
      n * (-(db * sx)) - (dm * sx) * sx;
      -((n * db + dm * sx) * sx);
      0.0;
    }
  }

  /** The centroid equation n·b + m·Σx = Σy. */
  predicate Centroid(n: real, s: Sums, l: Line) {
    n * l.b + l.m * s.sx == s.sy
  }

  /** The second normal equation m·Σx² + b·Σx = Σxy. */
  predicate SecondNormal(s: Sums, l: Line) {
    l.m * s.sxx + l.b * s.sx == s.sxy
  }

  /** The closed form meets the centroid equation always, and the second
      normal equation when the denominator is not degenerate. */
  lemma FitFromSumsSolves(n: real, s: Sums)
    requires n > 0.0
    ensures Abs(Det(n, s)) < FitEps ==> FitFromSums(n, s).m == 0.0
    ensures Centroid(n, s, FitFromSums(n, s))
    ensures Abs(Det(n, s)) >= FitEps ==> SecondNormal(s, FitFromSums(n, s))
  {
    var d := Det(n, s);
    if Abs(d) < FitEps {
      DegenerateFitSolves(n, s);
    } else {
      var m := Slope(n, s, d);
      RegularFitSolves(n, s, d, m, Intercept(n, s, m));
    }
  }

  lemma DegenerateFitSolves(n: real, s: Sums)
    requires n > 0.0 && Abs(Det(n, s)) < FitEps
    ensures FitFromSums(n, s) == Line(0.0, s.sy / n)
    ensures Centroid(n, s, FitFromSums(n, s))
  {
    MulDiv(s.sy, n);
  }

  lemma RegularFitSolves(n: real, s: Sums, d: real, m: real, b: real)
    requires n > 0.0 && d == Det(n, s) && d != 0.0
    requires m == Slope(n, s, d) && b == Intercept(n, s, m)
    ensures Centroid(n, s, Line(m, b)) && SecondNormal(s, Line(m, b))
  {
    assert m * (n * s.sxx - s.sx * s.sx) == n * s.sxy - s.sx * s.sy by {
      MulDiv(n * s.sxy - s.sx * s.sy, d);
    }
    assert n * b == s.sy - m * s.sx by {
      MulDiv(s.sy - m * s.sx, n);
    }
    NormalEquation(n, s.sx, s.sy, s.sxx, s.sxy, m, b);
  }

  lemma MulDiv(a: real, d: real)
    requires d != 0.0
    ensures d * (a / d) == a && (a / d) * d == a
  {
  }

  /** One more point on the line keeps the sums on it. */
  lemma CollinearStep(line: Line, k: real, s: Sums, p: Point)
    requires Centroid(k, s, line) && SecondNormal(s, line) && line.Contains(p)
    ensures Centroid(k + 1.0, AddPoint(s, p), line) && SecondNormal(AddPoint(s, p), line)
  {
    assert p.x * p.y == line.m * (p.x * p.x) + line.b * p.x;
  }

  /** A line through every point solves both normal equations of their
      sums (the residuals are all zero). */
  lemma {:induction false} CollinearSums(pts: seq<Point>, line: Line)
    requires forall i :: 0 <= i < |pts| ==> line.Contains(pts[i])
    ensures Centroid(|pts| as real, SumsOf(pts), line) && SecondNormal(SumsOf(pts), line)
  {
    if pts != [] {
      var init, p := pts[..|pts| - 1], pts[|pts| - 1];
      assert line.Contains(p);
      CollinearSums(init, line);
      CollinearStep(line, |init| as real, SumsOf(init), p);
    }
  }

  /** Points that all lie on a line give back exactly that line, unless the
      denominator is degenerate. */
  lemma FitRecoversLine(pts: seq<Point>, line: Line)
    requires |pts| >= 1
    requires forall i :: 0 <= i < |pts| ==> line.Contains(pts[i])
    requires Abs(Denom(pts)) >= FitEps
    ensures Fit(pts) == line
  {
    CollinearSums(pts, line);
    SameNormalSolution(|pts| as real, SumsOf(pts), Fit(pts), line);
  }

  /** With a nonzero determinant the normal equations have one solution. */
  lemma SameNormalSolution(n: real, s: Sums, l1: Line, l2: Line)
    requires Det(n, s) != 0.0
    requires Centroid(n, s, l1) && SecondNormal(s, l1)
    requires Centroid(n, s, l2) && SecondNormal(s, l2)
    ensures l1 == l2
  {
    var dm, db := l1.m - l2.m, l1.b - l2.b;
    assert n * db + dm * s.sx == 0.0 by {
      assert n * db + dm * s.sx == (n * l1.b + l1.m * s.sx) - (n * l2.b + l2.m * s.sx);
    }
    assert dm * s.sxx + db * s.sx == 0.0 by {
      assert dm * s.sxx + db * s.sx == (l1.m * s.sxx + l1.b * s.sx) - (l2.m * s.sxx + l2.b * s.sx);
    }
    NormalEquationsUnique(n, s.sx, s.sxx, dm, db);
  }

  /** The sums over k copies of p. */
  function ConstantSums(k: real, p: Point): Sums {
    Sums(k * p.x, k * p.y, k * (p.x * p.x), k * (p.x * p.y))
  }

  lemma ConstantStep(k: real, p: Point)
    ensures AddPoint(ConstantSums(k, p), p) == ConstantSums(k + 1.0, p)
  {
  }

  /** The sums over a sequence of n copies of one point. */
  lemma {:induction false} SumsOfConstant(pts: seq<Point>, p: Point)
    requires forall i :: 0 <= i < |pts| ==> pts[i] == p
    ensures SumsOf(pts) == ConstantSums(|pts| as real, p)
  {
    if pts != [] {
      var init := pts[..|pts| - 1];
      assert pts[|pts| - 1] == p;
      SumsOfConstant(init, p);
      ConstantStep(|init| as real, p);
    }
  }

  /** n identical points take the degenerate path: the horizontal line
      through their common y. */
  lemma FitIdenticalPoints(pts: seq<Point>, p: Point)
    requires |pts| >= 1
    requires forall i :: 0 <= i < |pts| ==> pts[i] == p
    ensures Denom(pts) == 0.0
    ensures Fit(pts) == Line(0.0, p.y)
  {
    var n := |pts| as real;
    assert SumsOf(pts) == ConstantSums(n, p) by { SumsOfConstant(pts, p); }
    assert Denom(pts) == 0.0 by { SquareOfMultiple(n, p.x); }
    ConstantFit(n, p);
  }

  lemma ConstantFit(n: real, p: Point)
    requires n > 0.0
    ensures FitFromSums(n, ConstantSums(n, p)) == Line(0.0, p.y)
  {
    SquareOfMultiple(n, p.x);
    assert (n * p.y) / n == p.y;
  }

  lemma SquareOfMultiple(n: real, x: real)
    ensures n * (n * (x * x)) - (n * x) * (n * x) == 0.0
  {
  }

  /** For two points the denominator is the squared span in x. */
  lemma TwoPointDenom(p1: Point, p2: Point)
    ensures Denom([p1, p2]) == (p2.x - p1.x) * (p2.x - p1.x)
  {
    TwoPointSums(p1, p2);
    SpanSquared(p1.x, p2.x);
  }

  lemma TwoPointSums(p1: Point, p2: Point)
    ensures SumsOf([p1, p2]) ==
            Sums(p1.x + p2.x, p1.y + p2.y, p1.x * p1.x + p2.x * p2.x, p1.x * p1.y + p2.x * p2.y)
  {
    assert [p1, p2][..1] == [p1];
    assert [p1][..0] == [];
    assert SumsOf([p1]) == AddPoint(NoSums, p1);
  }

  lemma SpanSquared(x1: real, x2: real)
    ensures 2.0 * (x1 * x1 + x2 * x2) - (x1 + x2) * (x1 + x2) == (x2 - x1) * (x2 - x1)
  {
  }

  /** A span below SpanEps has a square far below FitEps. */
  lemma SmallSpanSquare(dx: real)
    requires Abs(dx) < SpanEps
    ensures 0.0 <= dx * dx < FitEps
  {
    var a := Abs(dx);
    assert dx * dx == a * a;
    assert a * a <= a * SpanEps;
    assert a * SpanEps <= SpanEps * SpanEps;
  }

  /** Two points whose squared span in x is not degenerate give the line
      through both, which is also what two-point construction returns. */
  lemma FitTwoPoints(p1: Point, p2: Point)
    requires (p2.x - p1.x) * (p2.x - p1.x) >= FitEps
    ensures Fit([p1, p2]).Contains(p1) && Fit([p1, p2]).Contains(p2)
    ensures Fit([p1, p2]) == LineFromTwoPoints(p1.x, p1.y, p2.x, p2.y)
  {
    var dx := p2.x - p1.x;
    TwoPointDenom(p1, p2);
    if Abs(dx) < SpanEps {
      SmallSpanSquare(dx);
      assert false;
    }
    var line := LineFromTwoPoints(p1.x, p1.y, p2.x, p2.y);
    FitRecoversLine([p1, p2], line);
  }

  /** The two fallbacks on a vertical pair: both lines are horizontal, the
      two-point construction at the first point's y, the fit at the mean of
      the two y values. */
  lemma TwoPointFallbacks(p1: Point, p2: Point)
    requires Abs(p2.x - p1.x) < SpanEps
    ensures LineFromTwoPoints(p1.x, p1.y, p2.x, p2.y) == Line(0.0, p1.y)
    ensures Fit([p1, p2]) == Line(0.0, (p1.y + p2.y) / 2.0)
  {
    SmallSpanSquare(p2.x - p1.x);
    TwoPointFitFallback(p1, p2);
  }

  /** Two points whose squared span in x is below FitEps take the fit's
      fallback: the horizontal line through the mean of their y values. */
  lemma TwoPointFitFallback(p1: Point, p2: Point)
    requires 0.0 <= (p2.x - p1.x) * (p2.x - p1.x) < FitEps
    ensures Fit([p1, p2]) == Line(0.0, (p1.y + p2.y) / 2.0)
  {
    var pts := [p1, p2];
    assert Abs(Denom(pts)) < FitEps by { TwoPointDenom(p1, p2); }
    assert SumsOf(pts).sy == p1.y + p2.y by { TwoPointSums(p1, p2); }
    FitFallback(pts);
  }

  /** The two thresholds do not match: with SpanEps <= |dx| and dx² < FitEps
      (for instance dx = 1e-7) the two-point construction returns the line
      through both points while the fit falls back to a horizontal line. */
  lemma ThresholdGap(p1: Point, p2: Point)
    requires Abs(p2.x - p1.x) >= SpanEps
    requires 0.0 <= (p2.x - p1.x) * (p2.x - p1.x) < FitEps
    ensures LineFromTwoPoints(p1.x, p1.y, p2.x, p2.y).Contains(p2)
    ensures Fit([p1, p2]).m == 0.0
  {
    TwoPointFitFallback(p1, p2);
  }
}
