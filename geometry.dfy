/** The optional value used for the source's `null` results and for input
    fields that are blank or do not hold a finite number. */
module Options {
  datatype Option<+T> = None | Some(value: T)
}

/** Lines in the (outdoor temperature, heat) plane: construction from two
    points and intersection of two lines (script.js:51-65). */
module Geometry {
  import opened Options

  /** A point in data space: x is the outdoor temperature in °F, y a heat
      quantity in BTU/h. */
  datatype Point = Point(x: real, y: real)

  /** The line y = m·x + b. */
  datatype Line = Line(m: real, b: real) {
    function At(x: real): real { m * x + b }
    predicate Contains(p: Point) { p.y == At(p.x) }
  }

  /** Below this horizontal span two points count as one vertical pair. */
  const SpanEps: real := 1e-9
  /** Below this slope difference two lines count as parallel. */
  const ParallelEps: real := 1e-12

  function Abs(r: real): (a: real)
    ensures a >= 0.0 && (a == r || a == -r)
  {
    if r < 0.0 then -r else r
  }

  /** The line through (x1, y1) and (x2, y2); a pair closer than SpanEps in x
      falls back to the horizontal line through the first point. */
  function LineFromTwoPoints(x1: real, y1: real, x2: real, y2: real): (l: Line)
    ensures l.Contains(Point(x1, y1))
    ensures Abs(x2 - x1) < SpanEps ==> l.m == 0.0
    ensures Abs(x2 - x1) >= SpanEps ==> l.Contains(Point(x2, y2))
  {
    var dx := x2 - x1;
    if Abs(dx) < SpanEps then Line(0.0, y1)
    else
      var m := (y2 - y1) / dx;
      assert m * dx == y2 - y1;
      assert m * x2 - m * x1 == m * dx;
      Line(m, y1 - m * x1)
  }

  /** Outside the fallback the constructed line is the only line through both
      points. */
  lemma TwoPointLineUnique(x1: real, y1: real, x2: real, y2: real, l: Line)
    requires Abs(x2 - x1) >= SpanEps
    requires l.Contains(Point(x1, y1)) && l.Contains(Point(x2, y2))
    ensures LineFromTwoPoints(x1, y1, x2, y2) == l
  {
    var k := LineFromTwoPoints(x1, y1, x2, y2);
    var dx := x2 - x1;
    assert (k.m - l.m) * dx == 0.0 by {
      assert k.m * x2 + k.b - (k.m * x1 + k.b) == y2 - y1;
      assert l.m * x2 + l.b - (l.m * x1 + l.b) == y2 - y1;
    }
    assert k.m == l.m;
  }

  /** The point where the two lines meet, or None when their slopes differ by
      less than ParallelEps, whatever the intercepts. */
  function IntersectLines(l1: Line, l2: Line): (r: Option<Point>)
    ensures r.None? <==> Abs(l1.m - l2.m) < ParallelEps
    ensures r.Some? ==> l1.Contains(r.value) && l2.Contains(r.value)
  {
    var dm := l1.m - l2.m;
    if Abs(dm) < ParallelEps then None
    else
      var x := (l2.b - l1.b) / dm;
      assert dm * x == l2.b - l1.b;
      Some(Point(x, l1.m * x + l1.b))
  }

  /** When the lines are not parallel, every common point is the one
      IntersectLines returns. */
  lemma IntersectionUnique(l1: Line, l2: Line, p: Point)
    requires Abs(l1.m - l2.m) >= ParallelEps
    requires l1.Contains(p) && l2.Contains(p)
    ensures IntersectLines(l1, l2) == Some(p)
  {
    var q := IntersectLines(l1, l2).value;
    assert (l1.m - l2.m) * (p.x - q.x) == 0.0 by {
      assert l1.m * p.x + l1.b == l2.m * p.x + l2.b;
      assert l1.m * q.x + l1.b == l2.m * q.x + l2.b;
    }
    assert p.x == q.x;
  }

  /** y = 2x + 1 and y = -x + 10 meet at (3, 7). */
  lemma IntersectExample()
    ensures IntersectLines(Line(2.0, 1.0), Line(-1.0, 10.0)) == Some(Point(3.0, 7.0))
  {
    IntersectionUnique(Line(2.0, 1.0), Line(-1.0, 10.0), Point(3.0, 7.0));
  }

}
