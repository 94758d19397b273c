/** The calculator's seed data worked through the model: the default table
    of script.js:19-26 with a design point of (5 °F, 26000 BTU/h). */
module SeedExample {
  import opened Options
  import opened Geometry
  import opened Regression
  import opened BalancePoint

  /** The seed table: three used rows and one unused. */
  function DefaultRows(): seq<Row> {
    [Row(true, Some(47.0), Some(36000.0)), Row(true, Some(17.0), Some(30000.0)),
     Row(true, Some(5.0), Some(26000.0)), Row(false, Some(-5.0), Some(22000.0))]
  }

  function SeedPoints(): seq<Point> {
    [Point(47.0, 36000.0), Point(17.0, 30000.0), Point(5.0, 26000.0)]
  }

  /** The unused seed row is dropped; the others keep their order. */
  lemma DefaultPoints()
    ensures UsablePoints(DefaultRows()) == SeedPoints()
  {
    var rows := DefaultRows();
    assert rows[..1][..0] == [];
    assert rows[..2][..1] == rows[..1];
    assert rows[..3][..2] == rows[..2];
    assert rows[..4 - 1] == rows[..3];
    assert UsablePoints(rows[..1]) == SeedPoints()[..1];
    assert UsablePoints(rows[..2]) == SeedPoints()[..2];
    assert UsablePoints(rows[..3]) == SeedPoints();
  }

  /** Σx, Σy, Σx², Σxy of the seed points. */
  function SeedSums(): Sums { Sums(69.0, 92000.0, 2523.0, 2332000.0) }

  lemma SeedPointSums()
    ensures SumsOf(SeedPoints()) == SeedSums()
  {
    var pts := SeedPoints();
    assert pts[..1][..0] == [];
    assert pts[..2][..1] == pts[..1];
    assert pts[..3 - 1] == pts[..2];
    assert SumsOf(pts[..1]) == Sums(47.0, 36000.0, 2209.0, 1692000.0);
    assert SumsOf(pts[..2]) == Sums(64.0, 66000.0, 2498.0, 2202000.0);
  }

  /** The fitted output line of the seed points: y = (3000/13)·x + 989000/39. */
  lemma DefaultFit()
    ensures Fit(SeedPoints()) == Line(3000.0 / 13.0, 989000.0 / 39.0)
  {
    SeedPointSums();
    assert FitFromSums(3.0, SeedSums()) == Line(3000.0 / 13.0, 989000.0 / 39.0);
  }

  /** The fitted and demand lines of the seed data meet at 1095/259 °F. */
  lemma DefaultIntersection()
    ensures IntersectLines(Line(3000.0 / 13.0, 989000.0 / 39.0), Line(-1300.0 / 3.0, 84500.0 / 3.0))
            == Some(Point(1095.0 / 259.0, (3000.0 / 13.0) * (1095.0 / 259.0) + 989000.0 / 39.0))
  {
  }

  /** The seed points and the seed demand line resolve to 1095/259 °F. */
  lemma DefaultClassify()
    ensures Classify(SeedPoints(), Line(-1300.0 / 3.0, 84500.0 / 3.0)) == Resolved(1095.0 / 259.0)
  {
    DefaultFit();
    DefaultIntersection();
  }

  /** One update cycle on the seed inputs, with no minimum operating
      temperature, gives a balance point of 1095/259 °F (about 4.2 °F): the
      x where the line fitted to the three used points meets the line
      through (65, 0) and (5, 26000). */
  lemma DefaultExample()
    ensures Update(DefaultRows(), 5.0, 26000.0, None).outcome == Resolved(1095.0 / 259.0)
  {
    DefaultPoints();
    TwoPointLineUnique(65.0, 0.0, 5.0, 26000.0, Line(-1300.0 / 3.0, 84500.0 / 3.0));
    DefaultClassify();
  }
}
