/** The coordinate mapper of the chart: the fixed data rectangle, the
    margin presets, the plot rectangle and the data-to-pixel maps built by
    plotFrame (script.js:1-2, 89-150). Drawing calls are not modelled. */
module Viewport {
  /** The data rectangle: outdoor temperature in °F by heat in BTU/h. */
  const XMin: real := -22.0
  const XMax: real := 90.0
  const YMin: real := 0.0
  const YMax: real := 60000.0

  /** Margins around the plot rectangle, in CSS pixels. */
  datatype Margins = Margins(left: real, right: real, top: real, bottom: real)

  /** The compact preset (viewport at most 560 px wide) and the normal one. */
  function MarginsFor(isMobile: bool): Margins {
    if isMobile then Margins(62.0, 16.0, 14.0, 38.0) else Margins(76.0, 20.0, 18.0, 44.0)
  }

  /** The compact preset is tighter on every side. */
  lemma CompactMarginsTighter()
    ensures MarginsFor(true).left < MarginsFor(false).left
    ensures MarginsFor(true).right < MarginsFor(false).right
    ensures MarginsFor(true).top < MarginsFor(false).top
    ensures MarginsFor(true).bottom < MarginsFor(false).bottom
  {
  }

  /** The plot rectangle: its top-left corner and its size. */
  datatype Frame = Frame(left: real, top: real, width: real, height: real)

  /** The plot rectangle of a w × h canvas: the margins and the rectangle
      together fill the canvas exactly in each direction. */
  function PlotFrame(w: real, h: real, isMobile: bool): (f: Frame)
    ensures f.left == MarginsFor(isMobile).left && f.top == MarginsFor(isMobile).top
    ensures f.left + f.width + MarginsFor(isMobile).right == w
    ensures f.top + f.height + MarginsFor(isMobile).bottom == h
  {
    var mg := MarginsFor(isMobile);
    Frame(mg.left, mg.top, w - mg.left - mg.right, h - mg.top - mg.bottom)
  }

  /** On the same canvas the compact preset leaves a larger plot rectangle. */
  lemma CompactFrameLarger(w: real, h: real)
    ensures PlotFrame(w, h, true).width > PlotFrame(w, h, false).width
    ensures PlotFrame(w, h, true).height > PlotFrame(w, h, false).height
  {
    CompactMarginsTighter();
  }

  /** Temperature to horizontal pixel (the closure sx). */
  function Sx(f: Frame, x: real): real {
    f.left + ((x - XMin) / (XMax - XMin)) * f.width
  }

  /** Heat to vertical pixel (the closure sy); the axis is inverted, so a
      larger heat is higher on screen. */
  function Sy(f: Frame, y: real): real {
    f.top + (1.0 - (y - YMin) / (YMax - YMin)) * f.height
  }

  /** The ends of the temperature range go to the left and right edges. */
  lemma SxEndpoints(f: Frame)
    ensures Sx(f, XMin) == f.left
    ensures Sx(f, XMax) == f.left + f.width
  {
  }

  /** The bottom of the heat range goes to the bottom edge, the top to the top edge. */
  lemma SyEndpoints(f: Frame)
    ensures Sy(f, YMin) == f.top + f.height
    ensures Sy(f, YMax) == f.top
  {
  }

  /** With a positive width, Sx is strictly increasing. */
  lemma SxStrictlyIncreasing(f: Frame, x1: real, x2: real)
    requires f.width > 0.0 && x1 < x2
    ensures Sx(f, x1) < Sx(f, x2)
  {
    var u1, u2 := (x1 - XMin) / (XMax - XMin), (x2 - XMin) / (XMax - XMin);
    assert u1 < u2;
    ScaleStrict(u1, u2, f.width);
  }

  /** With a positive height, Sy is strictly decreasing. */
  lemma SyStrictlyDecreasing(f: Frame, y1: real, y2: real)
    requires f.height > 0.0 && y1 < y2
    ensures Sy(f, y1) > Sy(f, y2)
  {
    var v1, v2 := 1.0 - (y2 - YMin) / (YMax - YMin), 1.0 - (y1 - YMin) / (YMax - YMin);
    assert v1 < v2;
    ScaleStrict(v1, v2, f.height);
  }

  lemma ScaleStrict(u1: real, u2: real, k: real)
    requires u1 < u2 && k > 0.0
    ensures u1 * k < u2 * k
  {
  }

  /** A point of the data rectangle is drawn inside the plot rectangle. */
  lemma DataRectangleInPlot(f: Frame, x: real, y: real)
    requires f.width > 0.0 && f.height > 0.0
    requires XMin <= x <= XMax && YMin <= y <= YMax
    ensures f.left <= Sx(f, x) <= f.left + f.width
    ensures f.top <= Sy(f, y) <= f.top + f.height
  {
    SxEndpoints(f);
    SyEndpoints(f);
    if x < XMax { SxStrictlyIncreasing(f, x, XMax); }
    if XMin < x { SxStrictlyIncreasing(f, XMin, x); }
    if y < YMax { SyStrictlyDecreasing(f, y, YMax); }
    if YMin < y { SyStrictlyDecreasing(f, YMin, y); }
  }

  /** The value of grid division i on each axis: 6 divisions of the heat axis,
      8 of the temperature axis. */
  function HeatTick(i: nat): real { (i as real / 6.0) * (YMax - YMin) + YMin }
  function TempTick(i: nat): real { (i as real / 8.0) * (XMax - XMin) + XMin }

  /** The pixel of grid line i, as the grid and tick loops compute it. */
  function HeatGridLine(f: Frame, i: nat): real { f.top + f.height - (i as real / 6.0) * f.height }
  function TempGridLine(f: Frame, i: nat): real { f.left + (i as real / 8.0) * f.width }

  /** The grid lines stand where the maps put their tick values, so the grid,
      the labels and the plotted data agree. */
  lemma GridMatchesMaps(f: Frame, i: nat)
    ensures HeatGridLine(f, i) == Sy(f, HeatTick(i))
    ensures TempGridLine(f, i) == Sx(f, TempTick(i))
  {
    var a, c := i as real / 6.0, i as real / 8.0;
    assert (HeatTick(i) - YMin) / (YMax - YMin) == a;
    assert (TempTick(i) - XMin) / (XMax - XMin) == c;
  }

  /** The tick values are whole numbers: 10000·i BTU/h and 14·i − 22 °F. */
  lemma TicksAreWhole(i: nat)
    ensures HeatTick(i) == (10000 * i) as real
    ensures TempTick(i) == (14 * i - 22) as real
  {
  }
}
