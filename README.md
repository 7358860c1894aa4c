# Multivariable calculus core of geogebra-ango, in Dafny

geogebra-ango is a web app for exploring functions of two variables. The user types a
formula in `x` and `y`, and the app does five things with it:

- it rewrites the formula into JavaScript and evaluates it;
- it estimates partial derivatives and the gradient by central differences;
- it searches a grid for Lagrange critical points under a constraint;
- it integrates the formula over a rectangle with the midpoint rule;
- it draws the formula as a 3D surface with level contours and an adjustable zoom.

This project models the numerical core of the app: `lib/math-parser.ts` and the surface,
contour and zoom logic of `components/visualization-3d.tsx`.

Modules:

- `JsValues`: JavaScript numbers. A number is a real or one of the three non-finite values
  the code branches on (+∞, −∞, NaN). It also holds `Math.min`/`Math.max`, `+`/`−` and `>`
  with their JavaScript rules for those values.
- `ExpressionRewrite`: `parseMathExpression`, a chain of global textual replacements.
- `Evaluation`: `evaluateFunction`. The compiled formula (`new Function(...)`) is foreign
  code, so it is a parameter (`Host`). `Host` receives the rewritten text and the point,
  and either throws or returns a number.
- `Derivatives`: `calculatePartialDerivatives` and `calculateGradient`.
- `CriticalPoints`: `findLagrangeCriticalPoints`. It is a method with the source's two
  nested loops, proved equal to a fold (`Scan`) over the 31 × 31 grid cells.
- `Quadrature`: `calculateDoubleIntegral`. It is a method with the source's two loops,
  proved equal to the midpoint-rule sum `MidpointRule`.
- `SurfaceSampling`: `generateSurfaceData`.
  - The first pass fills a `(res+1) × (res+1)` array and tracks min, max and the
    non-finite count.
  - The second pass places every sample inside the padded range.
  - Each pass is a method proved against a specification function.
- `Contours`: the six contour levels and the edge-crossing helper `intersect`.
- `View`: the component's view state as a class (`Viewer`): zoom, animation flag,
  infinite-values flag and the auto-fit latch. Each zoom rule is a pure step function,
  and an event replay shows that the zoom never leaves [0.5, 3].

Three consequences of the code are proved as stated:

- `evaluateFunction` turns every throw and every non-finite result into 0. So the surface
  pass never counts a non-finite sample, and the "values tend to infinity" flag the
  component computes is always false (`SurfaceSampling.FormulaSurfaceExact`,
  `View.Viewer.RefreshSurface`).
- The resolution clamp to [40, 100] never reaches its lower bound: the resolution is
  always in [50, 100] (`SurfaceSampling.Resolution`).
- Function names are rewritten inside longer words: `acos(x)` becomes `aMath.cos(x)`
  (`ExpressionRewrite.ParseRewritesInsideWords`).

## Model

| member | source | states |
|---|---|---|
| JsValues.Min | components/visualization-3d.tsx:81 | `Math.min`: on two finite numbers the smaller one; +∞ is neutral |
| JsValues.Max | components/visualization-3d.tsx:82 | `Math.max`: on two finite numbers the larger one; −∞ is neutral |
| JsValues.Plus | components/visualization-3d.tsx:90 | `+`: the real sum on finite operands; NaN exactly when an operand is NaN or the infinities are opposite; adding a finite number keeps an infinity |
| JsValues.Sub | components/visualization-3d.tsx:87-89 | `−`: the real difference on finite operands; −∞ − (+∞) is −∞ |
| JsValues.SqrtBelowHalf | lib/math-parser.ts:92 | for a square root, `sqrt(v) < 0.5` holds exactly when `v < 0.25` |
| ExpressionRewrite.StripSpaces | lib/math-parser.ts:5 | the result has no whitespace, is no longer than the input, and equals an input that had none |
| ExpressionRewrite.StripSpacesChar | lib/math-parser.ts:5 | a single character is dropped exactly when it is whitespace, and otherwise kept |
| ExpressionRewrite.StripSpacesConcat | lib/math-parser.ts:5 | stripping distributes over concatenation, so the kept characters stay in their original order |
| ExpressionRewrite.ReplaceAll | lib/math-parser.ts:6-13 | definition of a global replace, scanning left to right and resuming after each match; for a one-character pattern such as `^`, ReplaceAllCharOne and ReplaceAllCharConcat state that each occurrence becomes the replacement and everything else is kept in order; the other ReplaceAll lemmas state when the text is unchanged and which characters can appear |
| ExpressionRewrite.PrefixMath | lib/math-parser.ts:7-13 | definition of the seven `Math.` rewrites in chain order; stated by PrefixMathKeepsOut, PrefixMathAbsent and ParseRewritesInsideWords |
| ExpressionRewrite.ParseMathExpression | lib/math-parser.ts:2-14 | definition of the whole rewrite: strip whitespace, `^` to `**`, then the `Math.` prefixes; stated by the Parse lemmas below |
| ExpressionRewrite.ReplaceAllAbsent | lib/math-parser.ts:6-13 | a global replace of a pattern that does not occur leaves the text unchanged |
| ExpressionRewrite.ReplaceAllCharOne | lib/math-parser.ts:6 | on one character, the result is the replacement when it is the pattern character and the character itself otherwise |
| ExpressionRewrite.ReplaceAllCharConcat | lib/math-parser.ts:6 | a one-character replace distributes over concatenation, so `^` becomes `**` wherever it occurs and the rest stays in order |
| ExpressionRewrite.ReplaceAllMissingChar | lib/math-parser.ts:6-13 | a pattern with a character absent from the text cannot occur, so the text is unchanged |
| ExpressionRewrite.ReplaceAllKeepsOut | lib/math-parser.ts:6-13 | a replace never introduces a character found in neither the text nor the replacement |
| ExpressionRewrite.ReplaceAllRemovesChar | lib/math-parser.ts:6 | replacing a single character by text without it removes every occurrence |
| ExpressionRewrite.PrefixMathKeepsOut | lib/math-parser.ts:7-13 | the seven `Math.` rewrites introduce only letters of `Math.` and of the function names |
| ExpressionRewrite.PrefixMathAbsent | lib/math-parser.ts:7-13 | text containing none of the seven names is left unchanged |
| ExpressionRewrite.ParseRemovesCaret | lib/math-parser.ts:2-14 | the rewritten formula contains no `^` |
| ExpressionRewrite.ParseRemovesSpaces | lib/math-parser.ts:2-14 | the rewritten formula contains no whitespace |
| ExpressionRewrite.ParseIdentity | lib/math-parser.ts:2-14 | a formula with no whitespace, no `^` and none of the seven names is returned unchanged |
| ExpressionRewrite.ParseRewritesInsideWords | lib/math-parser.ts:9 | names match without word boundaries: `acos(x)` becomes `aMath.cos(x)` |
| ExpressionRewrite.ParseCaretToPower | lib/math-parser.ts:5-6 | `x ^ 2` becomes `x**2` |
| Evaluation.EvaluateFunction | lib/math-parser.ts:16-32 | a finite number returned by the compiled formula is passed through; a non-zero result was returned as that finite number |
| Evaluation.UnparseableIsZero | lib/math-parser.ts:28-31 | a formula whose code always throws evaluates to 0 everywhere |
| Evaluation.NonFiniteIsZero | lib/math-parser.ts:23-24 | a non-finite result (±∞, NaN) is reported as 0 |
| Evaluation.SpacesIrrelevant | lib/math-parser.ts:5 | deleting whitespace from a formula does not change its value anywhere |
| Derivatives.CalculatePartialDerivatives | lib/math-parser.ts:34-51 | definition of the central-difference partials with h = 0.0001 over `evaluateFunction`; stated by PartialsOfAffine, PartialsOfConstant, PartialsOfQuadratic and PartialsOfUnparseable |
| Derivatives.PartialsOfAffine | lib/math-parser.ts:41-44 | on `a·x + b·y + c` the partials are exactly `(a, b)` |
| Derivatives.PartialsOfConstant | lib/math-parser.ts:41-44 | a constant formula has zero partials |
| Derivatives.SquareQuotient | lib/math-parser.ts:41 | the central quotient of `a·t²` is exactly `2a·t` |
| Derivatives.QuadraticDx | lib/math-parser.ts:41 | the `x` partial of `a·x² + b·y² + c` is `2a·x` |
| Derivatives.QuadraticDy | lib/math-parser.ts:44 | the `y` partial of `a·x² + b·y² + c` is `2b·y` |
| Derivatives.PartialsOfQuadratic | lib/math-parser.ts:41-44 | central differences are exact on `a·x² + b·y² + c` |
| Derivatives.PartialsOfUnparseable | lib/math-parser.ts:28-31 | a formula that always throws has zero partials |
| Derivatives.CalculateGradient | lib/math-parser.ts:53-62 | `vector` is the partials; the magnitude is non-negative; a zero magnitude gives a zero direction |
| Derivatives.GradientGeometry | lib/math-parser.ts:55-60 | magnitude² = dx² + dy²; a positive magnitude times the direction gives back the vector |
| CriticalPoints.GridEnds | lib/math-parser.ts:75-76 | the loop test `≤ searchRange` holds for exactly the first 31 values −3, −2.8, …, 3 |
| CriticalPoints.Classify | lib/math-parser.ts:96 | "máximo" iff z > 0, "mínimo" iff z < 0, "punto de silla" iff z = 0 |
| CriticalPoints.FlatIndex | lib/math-parser.ts:75-76 | cell `i·31 + j` is row `i`, column `j` of the scan |
| CriticalPoints.DuplicateIffNear | lib/math-parser.ts:92 | the duplicate test holds iff some kept point is at squared distance below 0.25 |
| CriticalPoints.Candidate | lib/math-parser.ts:78-89 | definition of a cell's candidate: the point when it passes the constraint and parallel-gradient tests; stated by CandidateSound |
| CriticalPoints.IsDuplicate | lib/math-parser.ts:92 | definition of `criticalPoints.some(...)`; stated by DuplicateIffNear |
| CriticalPoints.Admit | lib/math-parser.ts:94-97 | definition of the push of a candidate that is not a duplicate; stated by VisitCell, SeparatedSnoc and InScanOrderSnoc |
| CriticalPoints.Scan | lib/math-parser.ts:75-102 | definition of the list after the first `n` cells; stated by ScanSeparated, ScanCovers, ScanOrdered and ScanFromCells |
| CriticalPoints.CellsOfCells | lib/math-parser.ts:78-89 | the cell table of the search is the candidate at each cell |
| CriticalPoints.VisitCell | lib/math-parser.ts:78-98 | one cell's body appends the candidate exactly when it passes the constraint, parallelism and duplicate tests |
| CriticalPoints.ScanRow | lib/math-parser.ts:76-101 | the inner loop extends the fold by one row of 31 cells |
| CriticalPoints.SearchGrid | lib/math-parser.ts:75-102 | the nested loops compute the fold over all 961 cells in scan order |
| CriticalPoints.FindLagrangeCriticalPoints | lib/math-parser.ts:64-105 | the result is that fold over the two wrapped evaluators |
| CriticalPoints.ScanFromCells | lib/math-parser.ts:94-97 | every returned point is the candidate of some visited cell |
| CriticalPoints.SeparatedSnoc | lib/math-parser.ts:92-97 | appending a point not near any kept one keeps the list pairwise separated |
| CriticalPoints.ScanSeparated | lib/math-parser.ts:92-97 | the returned points are pairwise at distance ≥ 0.5 |
| CriticalPoints.ScanGrows | lib/math-parser.ts:97 | the list only grows: an earlier prefix of the scan is a prefix of a later one |
| CriticalPoints.ScanCovers | lib/math-parser.ts:92-97 | every candidate cell is either kept in the result or within 0.5 of a point kept before that cell was visited (the first point of a cluster wins) |
| CriticalPoints.ScanCongruent | lib/math-parser.ts:75-102 | the result depends only on the candidates of the visited cells |
| CriticalPoints.CellOrder | lib/math-parser.ts:75-76 | cells are visited in lexicographic `(x, y)` order |
| CriticalPoints.InScanOrderSnoc | lib/math-parser.ts:97 | appending a point after all kept ones keeps the list in scan order |
| CriticalPoints.ScanOrdered | lib/math-parser.ts:75-97 | the returned points are in strictly increasing `(x, y)` order |
| CriticalPoints.CandidateSound | lib/math-parser.ts:80-97 | a candidate lies on its cell, nearly satisfies the constraint, has nearly parallel gradients and carries `f`'s value and class |
| CriticalPoints.SearchSound | lib/math-parser.ts:64-105 | every returned point satisfies those conditions |
| CriticalPoints.SearchOrdered | lib/math-parser.ts:64-105 | the search result is in scan order |
| CriticalPoints.ThrowingConstraintAdmitsAll | lib/math-parser.ts:78-89 | with a constraint that always throws, every cell is a candidate |
| CriticalPoints.ThrowingConstraintScan | lib/math-parser.ts:64-105 | with such a constraint the search reduces to the duplicate filter over all cells |
| Quadrature.AddColumn | lib/math-parser.ts:120-128 | the inner loop adds the column sum of cell values × dx × dy |
| Quadrature.MidpointRule | lib/math-parser.ts:107-132 | definition of the midpoint sum (0 for `divisions ≤ 0`); stated by the Integral lemmas below |
| Quadrature.CalculateDoubleIntegral | lib/math-parser.ts:107-132 | the result is the midpoint-rule sum, with 50 divisions when the argument is omitted; 0 when `divisions ≤ 0` |
| Quadrature.CentreInside | lib/math-parser.ts:121-122 | every sample point lies strictly inside the integration interval |
| Quadrature.ColumnOfConstant | lib/math-parser.ts:120-128 | a constant column sums to `n·c·dx·dy` |
| Quadrature.GridOfConstant | lib/math-parser.ts:119-129 | a constant grid sums to `m·n·c·dx·dy` |
| Quadrature.IntegralOfConstant | lib/math-parser.ts:107-132 | the rule is exact on constants: `c·(xMax−xMin)·(yMax−yMin)` |
| Quadrature.IntegralOfUnparseable | lib/math-parser.ts:107-132 | a formula that always throws integrates to 0 |
| Quadrature.ColumnAdditive | lib/math-parser.ts:120-128 | column sums are additive in the integrand |
| Quadrature.GridAdditive | lib/math-parser.ts:119-129 | grid sums are additive in the integrand |
| Quadrature.IntegralAdditive | lib/math-parser.ts:107-132 | the integral of a sum is the sum of the integrals |
| Quadrature.ColumnNonNegative | lib/math-parser.ts:120-128 | non-negative values give a non-negative column |
| Quadrature.GridNonNegative | lib/math-parser.ts:119-129 | non-negative values give a non-negative grid |
| Quadrature.IntegralNonNegative | lib/math-parser.ts:107-132 | a non-negative integrand over a well-ordered rectangle has a non-negative integral |
| SurfaceSampling.Round | components/visualization-3d.tsx:57 | `Math.round(v)` is within half a unit of `v`, halves rounding up |
| SurfaceSampling.ResFactor | components/visualization-3d.tsx:56 | the factor lies in [0.8, 1.4] and equals the zoom inside that range |
| SurfaceSampling.RoundedRange | components/visualization-3d.tsx:57 | the rounded scaled resolution lies in [50, 126], and is at least 72 when not animating |
| SurfaceSampling.Resolution | components/visualization-3d.tsx:55-57 | the resolution lies in [50, 100], and is at least 72 when not animating |
| SurfaceSampling.MakeGrid | components/visualization-3d.tsx:58-61 | the sample positions start at `xMin`/`yMin` and end exactly at `xMax`/`yMax` |
| SurfaceSampling.SampleListed | components/visualization-3d.tsx:69-73 | every grid sample appears in the sample sequence |
| SurfaceSampling.ResumeAppend | components/visualization-3d.tsx:69-84 | the first pass over `a + b` is the pass over `b` resumed after `a` |
| SurfaceSampling.Observe | components/visualization-3d.tsx:76-82 | definition of one sample's effect on the extent; stated by SurveyRange and SurveyCount |
| SurfaceSampling.Survey | components/visualization-3d.tsx:69-84 | definition of the first pass over all samples; stated by SurveyRange and SurveyCount |
| SurfaceSampling.SurveyRange | components/visualization-3d.tsx:76-82 | with no finite sample min/max stay +∞/−∞; otherwise they are finite samples bounding every finite sample |
| SurfaceSampling.SurveyCount | components/visualization-3d.tsx:76-79 | `infiniteCount` is exactly the number of positions holding a non-finite sample; hence at most the sample count, 0 iff every sample is finite, all of them iff none is |
| SurfaceSampling.Span | components/visualization-3d.tsx:87 | the span is always positive |
| SurfaceSampling.Padded | components/visualization-3d.tsx:87-90 | definition of the padded range `[minZ − pad, maxZ + pad]`; stated by PaddedAround and DegenerateRange |
| SurfaceSampling.Place | components/visualization-3d.tsx:101-107 | definition of where a sample is drawn; stated by PlaceKeepsFinite and PlaceWithin |
| SurfaceSampling.PaddedAround | components/visualization-3d.tsx:87-90 | with a finite sample, `zLo < minZ ≤ maxZ < zHi`, all finite |
| SurfaceSampling.PlaceKeepsFinite | components/visualization-3d.tsx:104-107 | a finite sample is drawn at its own height |
| SurfaceSampling.PlaceWithin | components/visualization-3d.tsx:101-107 | every sample is drawn inside `[zLo, zHi]`; a non-finite one at `zHi` if positive, else at `zLo` |
| SurfaceSampling.DegenerateRange | components/visualization-3d.tsx:87-107 | with no finite sample the range is (+∞, −∞), +∞ is drawn at −∞ and everything else at +∞ |
| SurfaceSampling.PointCount | components/visualization-3d.tsx:94-110 | the second pass emits `res + 1` points per row |
| SurfaceSampling.PointLayout | components/visualization-3d.tsx:94-110 | point `i·(res+1) + j` is at grid position `(i, j)` with its sample placed |
| SurfaceSampling.PointsPlaced | components/visualization-3d.tsx:94-110 | every emitted point is on the grid with `z` its own sample placed |
| SurfaceSampling.SurveyRow | components/visualization-3d.tsx:70-83 | the inner loop stores row `i` in the array, changes no other row and extends the survey by that row |
| SurfaceSampling.FirstPass | components/visualization-3d.tsx:62-84 | the array holds every sample and the extent is the survey of all samples |
| SurfaceSampling.PlaceRow | components/visualization-3d.tsx:95-110 | the inner loop appends row `i`'s placed points |
| SurfaceSampling.SecondPass | components/visualization-3d.tsx:93-111 | the points are the placed grid, row by row |
| SurfaceSampling.GenerateSurfaceData | components/visualization-3d.tsx:53-115 | the surface is the placed grid in the padded range; the flag is set iff more than 10% of `res²` samples were non-finite |
| SurfaceSampling.SurfaceLayout | components/visualization-3d.tsx:94-110 | the surface has `(res+1)²` points, point `i·(res+1) + j` at `(xᵢ, yⱼ)` |
| SurfaceSampling.SurfaceWithin | components/visualization-3d.tsx:87-110 | with a finite sample every point is drawn within `[zLo, zHi]`, and finite samples unchanged |
| SurfaceSampling.FormulaSurfaceExact | components/visualization-3d.tsx:69-113 | for a typed formula no sample is counted as non-finite and every point carries the formula's exact value |
| SurfaceSampling.FormulaSamplesFinite | components/visualization-3d.tsx:73 | every sample of a typed formula is finite |
| Contours.ContourLevels | components/visualization-3d.tsx:357-361 | six levels, level `k` being `minZ + (k+1)/7·(maxZ − minZ)` |
| Contours.Level | components/visualization-3d.tsx:360 | level 0 would be `minZ` and level `levelsCount + 1` would be `maxZ`, the ends of the range |
| Contours.LevelStep | components/visualization-3d.tsx:360 | consecutive levels are `(maxZ − minZ)/7` apart |
| Contours.LevelMonotone | components/visualization-3d.tsx:360 | levels strictly increase with their number on a non-empty range |
| Contours.LevelsInside | components/visualization-3d.tsx:357-361 | on a non-empty range the six levels are strictly increasing and strictly between `minZ` and `maxZ` |
| Contours.ProductSign | components/visualization-3d.tsx:386 | `(L−av)·(L−bv) > 0` iff `L` is not between `av` and `bv` |
| Contours.IntersectWhen | components/visualization-3d.tsx:386 | an edge has a crossing iff its values differ and the level is between them |
| Contours.FractionInUnit | components/visualization-3d.tsx:387 | for a level between the values, `t ∈ [0, 1]` and interpolation at `t` meets the level |
| Contours.Intersect | components/visualization-3d.tsx:377-389 | definition of the edge crossing; stated by IntersectWhen, IntersectOnSegment, IntersectAtEndpoints and IntersectSymmetric |
| Contours.IntersectOnSegment | components/visualization-3d.tsx:377-389 | a crossing lies on segment a–b, at a `t ∈ [0, 1]` where the interpolated value is the level |
| Contours.FractionEnds | components/visualization-3d.tsx:387 | `t` is 0 at `av` and 1 at `bv` |
| Contours.IntersectAtEndpoints | components/visualization-3d.tsx:377-389 | a level equal to an endpoint's value is crossed at that endpoint |
| Contours.FractionReversed | components/visualization-3d.tsx:387 | walking the edge backwards gives `1 − t` |
| Contours.LerpReversed | components/visualization-3d.tsx:388 | interpolating backwards by `1 − t` reaches the same point |
| Contours.IntersectSymmetric | components/visualization-3d.tsx:377-389 | the crossing does not depend on the direction the edge is walked |
| View.WheelZoom | components/visualization-3d.tsx:1081-1083 | the result is always in [0.5, 3]; it is `prev·0.9` or `prev·1.1` when that is in range; from a valid zoom, scrolling down never zooms in and up never out |
| View.ZoomIn | components/visualization-3d.tsx:1134 | at most 3; `prev·1.2` when that is ≤ 3; from a valid zoom stays valid and does not decrease |
| View.ZoomOut | components/visualization-3d.tsx:1142 | at least 0.5; `prev·0.8` when that is ≥ 0.5; from a valid zoom stays valid and does not increase |
| View.OrOne | components/visualization-3d.tsx:976-977 | the result is never 0: an extent of 0 falls back to 1; any other extent is kept |
| View.FitTarget | components/visualization-3d.tsx:979-983 | the auto-fit target lies in [0.6, 2.2]; it is the smaller of the two axis targets when that is in range, 0.6 when below and 2.2 when above |
| View.FitZoom | components/visualization-3d.tsx:986-988 | the zoom becomes the target or stays; afterwards it is within 0.08 of the target; a zoom already that close is kept |
| View.Step | components/visualization-3d.tsx:1046-1166 | definition of one zoom event (wheel, buttons, reset, auto-fit pass); stated by StepInRange |
| View.Replay | components/visualization-3d.tsx:36 | definition of the zoom after a sequence of events; stated by ReplayInRange |
| View.StepInRange | components/visualization-3d.tsx:1046-1165 | every zoom rule maps [0.5, 3] into itself |
| View.ReplayInRange | components/visualization-3d.tsx:36 | from a zoom in [0.5, 3] (the initial 1.2 is), any sequence of events keeps it there |
| View.InThenOut | components/visualization-3d.tsx:1134-1142 | zooming in and then out never ends further in than the start |
| View.WheelMonotone | components/visualization-3d.tsx:1081-1083 | the wheel rule is monotone in the current zoom |
| View.FitIdempotent | components/visualization-3d.tsx:986-988 | a second fit towards the same target changes nothing |
| View.Viewer.constructor | components/visualization-3d.tsx:36-48 | zoom 1.2, not animating, no warning, auto-fit pending |
| View.Viewer.OnWheel | components/visualization-3d.tsx:1046-1048 | zoom becomes the wheel step; state stays valid; nothing else changes |
| View.Viewer.OnZoomIn | components/visualization-3d.tsx:1134 | zoom becomes the zoom-in step; state stays valid; nothing else changes |
| View.Viewer.OnZoomOut | components/visualization-3d.tsx:1142 | zoom becomes the zoom-out step; state stays valid; nothing else changes |
| View.Viewer.OnReset | components/visualization-3d.tsx:1150-1166 | zoom becomes 1.2; nothing else modelled changes |
| View.Viewer.OnToggleAnimation | components/visualization-3d.tsx:1174 | the animation flag flips; nothing else changes |
| View.Viewer.OnInputsChanged | components/visualization-3d.tsx:953-955 | auto-fit is re-armed; nothing else changes |
| View.Viewer.AutoFit | components/visualization-3d.tsx:957-990 | runs once per set of inputs: when armed, the zoom takes the fit step; afterwards it is disarmed and the zoom valid |
| View.Viewer.RefreshSurface | components/visualization-3d.tsx:53-115 | the surface of the typed formula at the current zoom and animation state; the infinite-values flag ends false |

## Left out

- Floating point: doubles are idealised to reals. There is no rounding, no overflow and no
  signed zero. Only the three non-finite values are kept.
- CriticalPoints.GridEnds: the loop counters are `x += 0.2` in doubles. The model uses
  the exact values `−3 + 0.2k`, which gives 31 values per axis. Accumulated rounding could
  make the real loop visit 30 or 31 values, and the model does not capture that.
- Evaluation.EvaluateFunction: the compiled formula (`new Function`) and the `Math`
  object it receives are not modelled. They are the `Host` parameter.
- Derivatives.CalculateGradient: `Math.sqrt` is a parameter `sqrt` that satisfies
  `IsSqrt`. The contract does not state that the direction has unit length, nor that the
  magnitude is zero exactly when the vector is.
- CriticalPoints.VisitCell: `calculateGradient(...).vector` is computed directly as the
  central differences it consists of. The gradient's magnitude and direction are unused
  by the search. The `isFinite(z)` conjunct of the push test is dropped: it always holds,
  because the wrapped evaluator never returns a non-finite number.
- Quadrature.AddColumn: the `isFinite(z)` test is always true, because the wrapped
  evaluator never returns a non-finite number. The branch that skips a sample is
  therefore not modelled.
- Quadrature.CalculateDoubleIntegral: `divisions` is an integer. A fractional `divisions`,
  which JavaScript would accept, is not modelled.
- SurfaceSampling.GenerateSurfaceData: the `try`/`catch` fallback (no points, range
  [−20, 20]) is not modelled. Nothing in the body can throw once evaluation is wrapped.
- The `console.error` logging in every `catch` block.
- Rendering is not modelled: projection, drawing, colours, the marching-squares walk over
  the 28 × 28 contour grid, and the tangent plane and gradient overlays.
- View.FitTarget: the projected corner extents `maxAbsX1`/`maxAbsY1` and the canvas size
  are parameters. The projection that produces them is trigonometric, and the guard on a
  missing canvas is not modelled.
- Rotation is not modelled: its state, mouse dragging, the `requestAnimationFrame`
  animation loop, and the rotation the two reset buttons set (it involves π/2).
- React hook scheduling (`useEffect` ordering, re-renders) is not modelled. Each handler
  and effect is a method run to completion.
