/** One update cycle of the balance-point calculator: collect the usable
    calibration points, build the demand line, fit the output line,
    intersect the two and classify the result (script.js:28-38, 198-253).
    Drawing is reduced to the list of things that are drawn. */
module BalancePoint {
  import opened Options
  import opened Geometry
  import opened Regression

  /** A row of the calibration table: the "use" box and the two fields as
      parsed numbers, None when a field does not hold a finite number. */
  datatype Row = Row(use: bool, t: Option<real>, q: Option<real>)

  predicate Usable(r: Row) { r.use && r.t.Some? && r.q.Some? }

  function PointOf(r: Row): Point
    requires Usable(r)
  {
    Point(r.t.value, r.q.value)
  }

  /** The points of the usable rows, in table order. */
  function UsablePoints(rows: seq<Row>): (pts: seq<Point>)
    ensures |pts| <= |rows|
  {
    if rows == [] then []
    else
      var init, r := UsablePoints(rows[..|rows| - 1]), rows[|rows| - 1];
      if Usable(r) then init + [PointOf(r)] else init
  }

  /** The collecting loop of the source, proved to compute UsablePoints. */
  method ReadOutputPoints(rows: seq<Row>) returns (pts: seq<Point>)
    ensures pts == UsablePoints(rows)
  {
    pts := [];
    for i := 0 to |rows|
      invariant pts == UsablePoints(rows[..i])
    {
      var r := rows[i];
      assert rows[..i + 1][..i] == rows[..i];
      if r.use && r.t.Some? && r.q.Some? {
        pts := pts + [Point(r.t.value, r.q.value)];
      }
    }
    assert rows[..|rows|] == rows;
  }

  /** Filtering a concatenation filters each part: the filter keeps table
      order. */
  lemma {:induction false} UsablePointsAppend(a: seq<Row>, b: seq<Row>)
    ensures UsablePoints(a + b) == UsablePoints(a) + UsablePoints(b)
  {
    if b == [] {
      assert a + b == a;
    } else {
      var b' := b[..|b| - 1];
      assert (a + b)[..|a + b| - 1] == a + b';
      assert (a + b)[|a + b| - 1] == b[|b| - 1];
      UsablePointsAppend(a, b');
    }
  }

  /** A point is kept exactly when some usable row holds it. */
  lemma {:induction false} UsablePointsMembers(rows: seq<Row>, p: Point)
    ensures p in UsablePoints(rows) <==>
            exists i :: 0 <= i < |rows| && Usable(rows[i]) && PointOf(rows[i]) == p
  {
    if rows != [] {
      var init := rows[..|rows| - 1];
      UsablePointsMembers(init, p);
      if exists i :: 0 <= i < |init| && Usable(init[i]) && PointOf(init[i]) == p {
        var i :| 0 <= i < |init| && Usable(init[i]) && PointOf(init[i]) == p;
        assert rows[i] == init[i];
      }
      if exists i :: 0 <= i < |rows| && Usable(rows[i]) && PointOf(rows[i]) == p {
        var i :| 0 <= i < |rows| && Usable(rows[i]) && PointOf(rows[i]) == p;
        if i < |init| { assert init[i] == rows[i]; }
      }
    }
  }

  /** The demand line's zero-load reference point. */
  const RefTemp: real := 65.0
  const RefLoad: real := 0.0

  /** The fit needs between 2 and 4 points inclusive. */
  const MinPoints: nat := 2
  const MaxPoints: nat := 4

  predicate InRange(n: nat) { MinPoints <= n <= MaxPoints }

  /** The demand line through (65, 0) and the design point. */
  function DemandLine(designTemp: real, designLoad: real): Line {
    LineFromTwoPoints(RefTemp, RefLoad, designTemp, designLoad)
  }

  /** The demand line passes through the reference point always and through
      the design point unless the design temperature is within SpanEps of
      65 °F, where it degrades to the zero-load horizontal line. */
  lemma DemandLineThrough(designTemp: real, designLoad: real)
    ensures DemandLine(designTemp, designLoad).Contains(Point(RefTemp, RefLoad))
    ensures Abs(designTemp - RefTemp) >= SpanEps ==>
              DemandLine(designTemp, designLoad).Contains(Point(designTemp, designLoad))
    ensures Abs(designTemp - RefTemp) < SpanEps ==> DemandLine(designTemp, designLoad) == Line(0.0, RefLoad)
  {
  }

  /** Where the optional extension of the demand line ends: at the minimum
      operating temperature, on the demand line. */
  function MinOpEnd(demand: Line, minOp: Option<real>): (e: Option<Point>)
    ensures e.Some? <==> minOp.Some?
    ensures e.Some? ==> e.value.x == minOp.value && demand.Contains(e.value)
  {
    match minOp
    case None => None
    case Some(t) => Some(Point(t, demand.At(t)))
  }

  /** The three ways an update cycle ends. */
  datatype Outcome = OutOfRange | NoIntersection | Resolved(x: real)

  /** The outcome for the usable points and the demand line: a count outside
      2..4 is out of range; otherwise the fitted line either is parallel to
      the demand line or meets it at the balance temperature. */
  function Classify(pts: seq<Point>, demand: Line): (o: Outcome)
    ensures o.OutOfRange? <==> !InRange(|pts|)
    ensures o.NoIntersection? <==> InRange(|pts|) && Abs(Fit(pts).m - demand.m) < ParallelEps
    ensures o.Resolved? ==> InRange(|pts|) && Fit(pts).At(o.x) == demand.At(o.x)
  {
    if |pts| < MinPoints || |pts| > MaxPoints then OutOfRange
    else
      match IntersectLines(Fit(pts), demand)
      case None => NoIntersection
      case Some(hit) => Resolved(hit.x)
  }

  /** The balance temperature is the only temperature at which the fitted
      line and the demand line agree. */
  lemma ResolvedUnique(pts: seq<Point>, demand: Line, x: real)
    requires Classify(pts, demand).Resolved?
    requires Fit(pts).At(x) == demand.At(x)
    ensures Classify(pts, demand) == Resolved(x)
  {
    var fit := Fit(pts);
    IntersectionUnique(fit, demand, Point(x, fit.At(x)));
  }

  /** A segment drawn in data coordinates. */
  datatype Segment = Segment(from: Point, to: Point)

  /** A vertical reference line: dashed at the minimum operating temperature,
      solid at the balance temperature. */
  datatype Marker = Marker(x: real, dashed: bool)

  /** The demand line is drawn from (65, 0) to the design point and, when a
      minimum operating temperature is given, on from the design point to the
      demand line's point at that temperature. */
  function DemandSegments(design: Point, demand: Line, minOp: Option<real>): (s: seq<Segment>)
    ensures |s| == (if minOp.Some? then 2 else 1)
    ensures s[0] == Segment(Point(RefTemp, RefLoad), design)
    ensures minOp.Some? ==> s[1].from == design && s[1].to.x == minOp.value && demand.Contains(s[1].to)
  {
    var first := [Segment(Point(RefTemp, RefLoad), design)];
    match MinOpEnd(demand, minOp)
    case None => first
    case Some(e) => first + [Segment(design, e)]
  }

  /** A dashed marker stands at the minimum operating temperature when one is
      given, and a solid one at the balance temperature when it is resolved. */
  function Markers(minOp: Option<real>, outcome: Outcome): (ms: seq<Marker>)
    ensures forall x :: Marker(x, true) in ms <==> minOp == Some(x)
    ensures forall x :: Marker(x, false) in ms <==> outcome == Resolved(x)
  {
    var dashed := match minOp case None => [] case Some(t) => [Marker(t, true)];
    var solid := match outcome case Resolved(x) => [Marker(x, false)] case _ => [];
    dashed + solid
  }

  /** What one update cycle computes and draws. */
  datatype Report = Report(
    outcome: Outcome,
    demand: Line,
    segments: seq<Segment>,
    fitted: Option<Line>,
    points: seq<Point>,
    markers: seq<Marker>)

  /** One update cycle, with the table rows, the design temperature and load
      and the optional minimum operating temperature as inputs. The usable
      points are drawn whatever the outcome; the fitted line only when their
      count is in range. */
  function Update(rows: seq<Row>, designTemp: real, designLoad: real, minOp: Option<real>): (r: Report)
    ensures r.points == UsablePoints(rows)
    ensures r.demand == DemandLine(designTemp, designLoad)
    ensures r.outcome == Classify(r.points, r.demand)
    ensures r.fitted.Some? <==> InRange(|r.points|)
    ensures r.fitted.Some? ==> r.fitted.value == Fit(r.points)
    ensures |r.segments| == (if minOp.Some? then 2 else 1)
    ensures r.segments[0] == Segment(Point(RefTemp, RefLoad), Point(designTemp, designLoad))
    ensures minOp.Some? ==> r.segments[1].from == Point(designTemp, designLoad)
                            && r.segments[1].to.x == minOp.value && r.demand.Contains(r.segments[1].to)
    ensures forall x :: Marker(x, true) in r.markers <==> minOp == Some(x)
    ensures forall x :: Marker(x, false) in r.markers <==> r.outcome == Resolved(x)
  {
    var pts := UsablePoints(rows);
    var demand := DemandLine(designTemp, designLoad);
    var outcome := Classify(pts, demand);
    var fitted := if InRange(|pts|) then Some(Fit(pts)) else None;
    Report(outcome, demand, DemandSegments(Point(designTemp, designLoad), demand, minOp),
           fitted, pts, Markers(minOp, outcome))
  }
}
