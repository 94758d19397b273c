# Heat-pump balance point, modelled in Dafny

The calculator takes a heat pump's output at a few outdoor temperatures and a
building's heat demand at a design temperature. From these it finds the
*balance point*: the outdoor temperature where the pump's output equals the
house's heat loss. One update cycle does the following:

- it reads the calibration table and keeps the rows that are ticked and hold
  two numbers;
- it fits a least-squares output line through those points;
- it draws the demand line through (65 °F, 0 BTU/h) and the design point;
- it optionally extends that line to a minimum operating temperature;
- it intersects the two lines and reports the temperature at which they
  cross.

The chart maps the fixed data rectangle (−22…90 °F by 0…60000 BTU/h) onto a
plot rectangle inside margins that depend on the viewport.

The project models that engine over mathematical reals:

- `geometry.dfy`, modules `Options` and `Geometry`: the optional value,
  points and lines, the construction of a line from two points and the
  intersection of two lines, each with its degenerate threshold (1e-9 and
  1e-12).
- `regression.dfy`, module `Regression`: the least-squares fit. It is a
  function `Fit`, specified by the two normal equations. It comes with the
  accumulating loop `FitLineLeastSquares`, which is proved to compute `Fit`.
  Lemmas cover exact recovery of collinear data, identical points, two points
  and the 1e-12 fallback.
- `viewport.dfy`, module `Viewport`: the data rectangle, the two margin
  presets, the plot rectangle and the data-to-pixel maps `Sx` and `Sy`,
  together with the grid and tick positions.
- `balance.dfy`, module `BalancePoint`: the row filter (a function and the
  source's collecting loop, proved equal), the demand line, the end of the
  minimum-operating-temperature extension, the three-way outcome, the drawn
  segments and markers, and the whole update cycle `Update` as a function of
  its inputs.
- `seed_example.dfy`, module `SeedExample`: the seed table worked through
  `Update`. It gives a balance point of 1095/259 °F (about 4.2 °F).

## Model

| member | source | states |
|---|---|---|
| Geometry.LineFromTwoPoints | script.js:51-57 | the line always passes through (x1, y1); when abs(x2 − x1) < 1e-9 it is horizontal (slope 0); otherwise it also passes through (x2, y2) |
| Geometry.TwoPointLineUnique | script.js:51-57 | outside the fallback, any line through both points is the one returned |
| Geometry.IntersectLines | script.js:59-65 | None exactly when the slopes differ by less than 1e-12, whatever the intercepts; otherwise the point lies on both lines |
| Geometry.IntersectionUnique | script.js:59-65 | for non-parallel lines, every common point is the returned one |
| Geometry.IntersectExample | script.js:59-65 | y = 2x + 1 and y = −x + 10 meet at (3, 7) |
| Regression.Fit | script.js:40-49 | with abs(n·Σx² − (Σx)²) < 1e-12 the slope is 0; the line always satisfies n·b + m·Σx = Σy (through the centroid); otherwise it also satisfies m·Σx² + b·Σx = Σxy, i.e. it solves the normal equations of least squares |
| Regression.FitFallback | script.js:44-45 | under the 1e-12 fallback the fit is the horizontal line at Σy/n, the mean of y |
| Regression.FitLineLeastSquares | script.js:40-49 | the loop that accumulates Σx, Σy, Σx², Σxy front to back and then applies the closed form returns exactly Fit(pts) |
| Regression.FitFromSums | script.js:44-48 | the closed form from the count and the four sums: the 1e-12 fallback to the mean of y, otherwise the slope (n·Σxy − Σx·Σy)/denom and intercept (Σy − m·Σx)/n; no contract of its own, its properties are FitFromSumsSolves, DegenerateFitSolves and, through Fit, FitFallback and FitRecoversLine |
| Regression.FitFromSumsSolves | script.js:44-48 | the closed form from the count and the four sums meets the centroid equation always, and the second normal equation outside the fallback |
| Regression.CollinearSums | script.js:42-43 | the sums of points that all lie on one line satisfy both normal equations for that line |
| Regression.SameNormalSolution | script.js:44-48 | with a nonzero determinant, two lines that both solve the normal equations are equal |
| Regression.FitRecoversLine | script.js:44-48 | if every point lies on y = m·x + b and the denominator is not degenerate, the fit returns exactly (m, b) |
| Regression.SumsOfConstant | script.js:42-43 | the sums over k copies of one point are k times that point's terms |
| Regression.FitIdenticalPoints | script.js:44-45 | identical points give a zero denominator and the horizontal line at their common y |
| Regression.TwoPointDenom | script.js:41-44 | for two points the denominator is (x2 − x1)² |
| Regression.FitTwoPoints | script.js:44-48 | two points whose squared span in x is at least 1e-12 give a line through both, equal to the two-point construction |
| Regression.TwoPointFitFallback | script.js:44-45 | two points with (x2 − x1)² < 1e-12 give the horizontal line at the mean of their y values |
| Regression.TwoPointFallbacks | script.js:53 | on a pair with abs(x2 − x1) < 1e-9 both constructions are horizontal: the two-point one at y1, the fit at (y1 + y2)/2 |
| Regression.ThresholdGap | script.js:45 | when 1e-9 ≤ abs(dx) and dx² < 1e-12, the two-point line passes through both points while the fit falls back to slope 0 |
| Viewport.MarginsFor | script.js:94-98 | the margin presets (L, R, T, B) = (62, 16, 14, 38) compact and (76, 20, 18, 44) otherwise; no contract of its own, its properties are CompactMarginsTighter, PlotFrame and CompactFrameLarger |
| Viewport.CompactMarginsTighter | script.js:94-98 | the compact margins (62, 16, 14, 38) are smaller than the normal ones (76, 20, 18, 44) on every side |
| Viewport.PlotFrame | script.js:94-100 | the plot rectangle starts at (L, T); L + W + R = w and T + H + B = h |
| Viewport.CompactFrameLarger | script.js:95-100 | on the same canvas the compact preset gives a wider and taller plot rectangle |
| Viewport.Sx | script.js:146 | the closure sx, L + ((x − XMIN)/(XMAX − XMIN))·W; no contract of its own, its properties are SxEndpoints, SxStrictlyIncreasing, DataRectangleInPlot and GridMatchesMaps |
| Viewport.Sy | script.js:147 | the closure sy, T + (1 − (y − YMIN)/(YMAX − YMIN))·H; no contract of its own, its properties are SyEndpoints, SyStrictlyDecreasing, DataRectangleInPlot and GridMatchesMaps |
| Viewport.SxEndpoints | script.js:146 | sx(XMIN) = L and sx(XMAX) = L + W |
| Viewport.SyEndpoints | script.js:147 | sy(YMIN) = T + H and sy(YMAX) = T (the heat axis is inverted) |
| Viewport.SxStrictlyIncreasing | script.js:146 | with W > 0, sx is strictly increasing |
| Viewport.SyStrictlyDecreasing | script.js:147 | with H > 0, sy is strictly decreasing |
| Viewport.DataRectangleInPlot | script.js:146-147 | every point of the data rectangle maps inside the plot rectangle |
| Viewport.HeatTick | script.js:126 | the heat tick value (i/6)·(YMAX − YMIN) + YMIN before rounding; no contract of its own, its properties are GridMatchesMaps and TicksAreWhole |
| Viewport.TempTick | script.js:132 | the temperature tick value (i/8)·(XMAX − XMIN) + XMIN; no contract of its own, its properties are GridMatchesMaps and TicksAreWhole |
| Viewport.HeatGridLine | script.js:107 | the grid and tick-label row T + H − (i/6)·H; no contract of its own, its property is GridMatchesMaps |
| Viewport.TempGridLine | script.js:111 | the grid and tick-label column L + (i/8)·W; no contract of its own, its property is GridMatchesMaps |
| Viewport.GridMatchesMaps | script.js:106-135 | grid line i stands where sx / sy put the tick value of division i, on both axes |
| Viewport.TicksAreWhole | script.js:125-135 | the tick values are 10000·i BTU/h and 14·i − 22 °F, whole numbers, so their rounding changes nothing |
| BalancePoint.Usable | script.js:35 | a row is kept when it is ticked and both fields hold finite numbers; no contract of its own, its properties are UsablePointsMembers and ReadOutputPoints |
| BalancePoint.PointOf | script.js:35 | the point {x: t, y: q} of a usable row; no contract of its own, used by UsablePointsMembers |
| BalancePoint.UsablePoints | script.js:28-37 | the filtered list is no longer than the table |
| BalancePoint.ReadOutputPoints | script.js:28-37 | the collecting loop returns exactly UsablePoints(rows) |
| BalancePoint.UsablePointsAppend | script.js:31-36 | the filter of a concatenation is the concatenation of the filters (table order is kept) |
| BalancePoint.UsablePointsMembers | script.js:35 | a point is kept if and only if some row is ticked, holds two numbers and gives that point |
| BalancePoint.DemandLine | script.js:208 | the demand line, the two-point line from (65, 0) to the design point; no contract of its own, its properties are DemandLineThrough and SeedExample.DefaultExample |
| BalancePoint.DemandLineThrough | script.js:207-208 | the demand line passes through (65, 0); it also passes through the design point unless the design temperature is within 1e-9 of 65 °F, where it is the horizontal line at 0 |
| BalancePoint.MinOpEnd | script.js:220-225 | the extension has an end exactly when a minimum operating temperature is given; the end is at that temperature and on the demand line |
| BalancePoint.Classify | script.js:228-247 | out of range if and only if the count is not in 2..4; no intersection if and only if the count is in range and the fitted and demand slopes differ by less than 1e-12; when resolved, the fitted and demand lines agree at the reported temperature |
| BalancePoint.ResolvedUnique | script.js:241-249 | a resolved balance temperature is the only temperature where the two lines agree |
| BalancePoint.DemandSegments | script.js:216-226 | one segment from (65, 0) to the design point, and a second one from the design point to a point on the demand line at the minimum operating temperature exactly when one is given |
| BalancePoint.Markers | script.js:220-249 | a dashed marker at x if and only if the minimum operating temperature is x; a solid marker at x if and only if the outcome is Resolved(x) |
| BalancePoint.Update | script.js:198-253 | the cycle draws the usable points, the demand line through (65, 0) and the design point, and its segments and markers as above; the fitted line is drawn if and only if the count is in 2..4 and is then Fit(points); the outcome is the classification of those points against that demand line |
| SeedExample.DefaultPoints | script.js:19-37 | the seed table yields (47, 36000), (17, 30000), (5, 26000); the unticked row is dropped |
| SeedExample.SeedPointSums | script.js:42-43 | Σx = 69, Σy = 92000, Σx² = 2523, Σxy = 2332000 for the seed points |
| SeedExample.DefaultFit | script.js:40-49 | the seed points fit y = (3000/13)·x + 989000/39 |
| SeedExample.DefaultIntersection | script.js:59-65 | that line meets y = −(1300/3)·x + 84500/3 at x = 1095/259 |
| SeedExample.DefaultClassify | script.js:228-247 | the seed points against that demand line resolve to 1095/259 °F |
| SeedExample.DefaultExample | script.js:198-253 | one update on the seed table with design point (5 °F, 26000 BTU/h) and no minimum operating temperature resolves to 1095/259 °F |

## Left out

- Canvas drawing (script.js:101-144, 152-196) is not modelled: clearing, strokes, colours, line widths, dashes, fonts, labels and the point circles. `Update` returns *what* is drawn: the points, the segments, the fitted line and the markers. The line `drawLineInfinite` spans the fixed range XMIN..XMAX and is represented by the fitted `Line` itself.
- DOM and table plumbing (`$`, `makePointRow`, `initTable`, `innerHTML` / `textContent` writes, event listeners, `requestAnimationFrame`) is not modelled: it is user-interface wiring. The seed table of `initTable` appears only as `SeedExample.DefaultRows`. The three status texts correspond to the three `Outcome` cases.
- `resizeCanvas`, `canvasCssHeight`, `devicePixelRatio`, `getBoundingClientRect` and `matchMedia` are browser lookups. The canvas size is the parameters w and h of `PlotFrame`, and the 560 px breakpoint is the boolean `isMobile`.
- `getComputedStyle` palette lookups are style, not logic.
- `toLocaleString` and `toFixed` are number formatting and are not modelled. `TicksAreWhole` shows that `Math.round` on the heat ticks changes nothing.
- IEEE-754 arithmetic is replaced by exact real arithmetic: rounding, NaN, Infinity, `Number()` parsing and `isFinite`.
  - A table field is `None` only when it does not parse to a finite number. A blank table field is `Some(0.0)`: in the source `Number("")` is 0, which is finite, so a ticked row with a blank field is kept as a point with 0 (script.js:33-35).
  - The minimum operating temperature is `None` when it is blank after trimming (script.js:202-203, where `""` becomes `null`) or does not parse to a finite number (script.js:220).
  - The design temperature and the design load are taken as finite reals.
  - Over the reals an intersection is always finite, so the non-finite check at script.js:243 cannot fire and has no counterpart.
- Regression.Fit: requires at least one point. The source divides by n = 0 for an empty list (giving NaN), but `update` only calls the fit with 2 to 4 points.
- Regression.Fit: states the fit through the normal equations. Minimality of the squared residuals is not stated as an inequality over all lines.
- The two degenerate fallbacks are not one consistent policy. The code does what `TwoPointFallbacks` and `ThresholdGap` state:
  - on a near-vertical pair the two fallbacks give different horizontal lines, at y1 and at the mean of y;
  - for 1e-9 ≤ abs(dx) < 1e-6 only the fit falls back.
  The model follows the code.
