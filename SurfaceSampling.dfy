/** `generateSurfaceData` (components/visualization-3d.tsx): sample the formula on a
    `(res+1) × (res+1)` grid over the plotted rectangle, record the finite range of the
    samples, pad it by 5% and place every sample inside the padded range. */
module SurfaceSampling {
  import opened JsValues
  import opened Evaluation

  // ----- resolution -----

  /** `Math.round`: halves round up. */
  function Round(v: real): (r: int)
    ensures v - 0.5 < r as real <= v + 0.5
  {
    (v + 0.5).Floor
  }

  /** `resFactor`: the zoom, clamped to [0.8, 1.4]. */
  function ResFactor(zoom: real): (f: real)
    ensures 0.8 <= f <= 1.4
    ensures 0.8 <= zoom <= 1.4 ==> f == zoom
  {
    MaxReal(0.8, MinReal(1.4, zoom))
  }

  /** `baseRes · (isAnimating ? 0.7 : 1) · resFactor` before rounding. */
  function ScaledResolution(zoom: real, isAnimating: bool): real {
    90.0 * (if isAnimating then 0.7 else 1.0) * ResFactor(zoom)
  }

  /** The rounded scaled resolution lies in [50, 126], and in [72, 126] when the view is still. */
  lemma RoundedRange(zoom: real, isAnimating: bool)
    ensures 50 <= Round(ScaledResolution(zoom, isAnimating)) <= 126
    ensures !isAnimating ==> 72 <= Round(ScaledResolution(zoom, isAnimating))
  {
    var f := ResFactor(zoom);
    if isAnimating {
      assert ScaledResolution(zoom, isAnimating) == 63.0 * f;
    } else {
      assert ScaledResolution(zoom, isAnimating) == 90.0 * f;
    }
  }

  /** `resolution`: the scaled resolution rounded and clamped to [40, 100]. It always lies in
      [50, 100], and in [72, 100] when the view is still: the lower clamp is never reached. */
  function Resolution(zoom: real, isAnimating: bool): (r: int)
    ensures 50 <= r <= 100
    ensures !isAnimating ==> 72 <= r
  {
    var raw := Round(ScaledResolution(zoom, isAnimating));
    RoundedRange(zoom, isAnimating);
    var upper := if raw <= 100 then raw else 100;
    if upper >= 40 then upper else 40
  }

  // ----- the sampling grid -----

  /** The sample positions `xMin + i·xStep`, `yMin + j·yStep` for `0 <= i, j <= res`. */
  datatype Grid = Grid(xMin: real, xStep: real, yMin: real, yStep: real, res: nat) {
    function X(i: int): real {
      xMin + i as real * xStep
    }

    function Y(j: int): real {
      yMin + j as real * yStep
    }
  }

  /** The grid for `resolution` cells over [xMin, xMax] × [yMin, yMax]. */
  function MakeGrid(xMin: real, xMax: real, yMin: real, yMax: real, res: nat): (g: Grid)
    requires res > 0
    ensures g.res == res
    ensures g.X(0) == xMin && g.X(res) == xMax && g.Y(0) == yMin && g.Y(res) == yMax
  {
    var n := res as real;
    assert n * ((xMax - xMin) / n) == xMax - xMin;
    assert n * ((yMax - yMin) / n) == yMax - yMin;
    Grid(xMin, (xMax - xMin) / n, yMin, (yMax - yMin) / n, res)
  }

  /** What the sampled formula returns at a point, as a JavaScript number. */
  type Sampler = (real, real) -> Num

  /** The samples of grid row `i`, by column. */
  function Row(s: Sampler, g: Grid, i: int): seq<Num> {
    seq(g.res + 1, j => s(g.X(i), g.Y(j)))
  }

  /** The samples of the first `n` rows in the order the loops visit them. */
  function Rows(s: Sampler, g: Grid, n: nat): seq<Num> {
    if n == 0 then [] else Rows(s, g, n - 1) + Row(s, g, n - 1)
  }

  /** All samples, row by row. */
  function Samples(s: Sampler, g: Grid): seq<Num> {
    Rows(s, g, g.res + 1)
  }

  /** Every grid sample occurs among the samples. */
  lemma {:induction false} SampleListed(s: Sampler, g: Grid, n: nat, i: nat, j: nat)
    requires i < n && j <= g.res
    ensures s(g.X(i), g.Y(j)) in Rows(s, g, n)
  {
    if i == n - 1 {
      assert Row(s, g, i)[j] == s(g.X(i), g.Y(j));
      assert Rows(s, g, n)[|Rows(s, g, n - 1)| + j] == Row(s, g, i)[j];
    } else {
      SampleListed(s, g, n - 1, i, j);
    }
  }

  // ----- first pass: the finite range -----

  /** `minZ`, `maxZ` and `infiniteCount` as the first pass leaves them. */
  datatype Extent = Extent(minZ: Num, maxZ: Num, infiniteCount: nat)

  /** Their initial values. */
  const Unseen: Extent := Extent(PosInf, NegInf, 0)

  /** One step of the first pass: a non-finite sample is counted and skipped, a finite one
      widens the range. */
  function Observe(e: Extent, z: Num): Extent {
    if !z.IsFinite() then e.(infiniteCount := e.infiniteCount + 1)
    else e.(minZ := Min(e.minZ, z), maxZ := Max(e.maxZ, z))
  }

  /** The first pass over the samples `zs`, in order, starting from `e`. */
  function Resume(e: Extent, zs: seq<Num>): Extent {
    if zs == [] then e else Observe(Resume(e, zs[..|zs| - 1]), zs[|zs| - 1])
  }

  /** The first pass over the samples `zs`. */
  function Survey(zs: seq<Num>): Extent {
    Resume(Unseen, zs)
  }

  /** Surveying `a + b` is surveying `b` from where `a` left off. */
  lemma {:induction false} ResumeAppend(e: Extent, a: seq<Num>, b: seq<Num>)
    ensures Resume(e, a + b) == Resume(Resume(e, a), b)
    decreases |b|
  {
    if b != [] {
      var init := b[..|b| - 1];
      assert (a + b)[..|a + b| - 1] == a + init;
      ResumeAppend(e, a, init);
    } else {
      assert a + b == a;
    }
  }

  /** Some sample is finite. */
  predicate HasFinite(zs: seq<Num>) {
    exists k :: 0 <= k < |zs| && zs[k].IsFinite()
  }

  /** `lo` and `hi` bound every finite sample and both are samples. */
  predicate Spans(zs: seq<Num>, lo: real, hi: real) {
    (forall k :: 0 <= k < |zs| && zs[k].IsFinite() ==> lo <= zs[k].v <= hi)
    && Finite(lo) in zs && Finite(hi) in zs
  }

  /** Without a finite sample the range stays at (+∞, −∞); otherwise it is the least and the
      greatest finite sample. */
  lemma {:induction false} SurveyRange(zs: seq<Num>)
    ensures !HasFinite(zs) ==> Survey(zs).minZ == PosInf && Survey(zs).maxZ == NegInf
    ensures HasFinite(zs) ==> Survey(zs).minZ.Finite? && Survey(zs).maxZ.Finite?
                              && Spans(zs, Survey(zs).minZ.v, Survey(zs).maxZ.v)
    decreases |zs|
  {
    if zs != [] {
      var init, z := zs[..|zs| - 1], zs[|zs| - 1];
      assert zs == init + [z];
      SurveyRange(init);
      if HasFinite(init) {
        var k :| 0 <= k < |init| && init[k].IsFinite();
        assert zs[k] == init[k];
        var lo, hi := Survey(init).minZ.v, Survey(init).maxZ.v;
        assert Finite(lo) in zs && Finite(hi) in zs;
        if z.IsFinite() {
          var lo', hi' := Survey(zs).minZ.v, Survey(zs).maxZ.v;
          assert Finite(lo') in zs && Finite(hi') in zs;
          forall k | 0 <= k < |zs| && zs[k].IsFinite() ensures lo' <= zs[k].v <= hi' {
            if k < |init| {
              assert zs[k] == init[k];
            }
          }
        } else {
          forall k | 0 <= k < |zs| && zs[k].IsFinite() ensures lo <= zs[k].v <= hi {
            assert k < |init| && zs[k] == init[k];
          }
        }
      } else {
        forall k | 0 <= k < |init| ensures !zs[k].IsFinite() {
          assert init[k] == zs[k];
        }
        if z.IsFinite() {
          assert Survey(zs).minZ == z && Survey(zs).maxZ == z;
          assert zs[|zs| - 1] == z;
        }
      }
    }
  }

  /** The positions of the non-finite samples. */
  function NonFinitePositions(zs: seq<Num>): set<int> {
    set k | 0 <= k < |zs| && !zs[k].IsFinite()
  }

  /** `infiniteCount` is the number of non-finite samples: at most all of them, zero exactly
      when all are finite, all of them exactly when none is. */
  lemma {:induction false} SurveyCount(zs: seq<Num>)
    ensures Survey(zs).infiniteCount == |NonFinitePositions(zs)|
    ensures Survey(zs).infiniteCount <= |zs|
    ensures Survey(zs).infiniteCount == 0 <==> forall k :: 0 <= k < |zs| ==> zs[k].IsFinite()
    ensures Survey(zs).infiniteCount == |zs| <==> !HasFinite(zs)
    decreases |zs|
  {
    if zs != [] {
      var init, z := zs[..|zs| - 1], zs[|zs| - 1];
      SurveyCount(init);
      assert forall k :: 0 <= k < |init| ==> zs[k] == init[k];
      var last := |zs| - 1;
      if z.IsFinite() {
        assert NonFinitePositions(zs) == NonFinitePositions(init);
      } else {
        assert NonFinitePositions(zs) == NonFinitePositions(init) + {last};
        assert last !in NonFinitePositions(init);
      }
      if HasFinite(init) {
        var k :| 0 <= k < |init| && init[k].IsFinite();
        assert zs[k].IsFinite();
      }
      if !z.IsFinite() {
        assert !zs[|zs| - 1].IsFinite();
      }
    }
  }

  // ----- padding and placement -----

  /** The range the surface is drawn in: `[zLo, zHi]`. */
  datatype ZRange = ZRange(zLo: Num, zHi: Num)

  /** `span`: `maxZ − minZ` when that is a finite positive number, 1 otherwise. */
  function Span(e: Extent): (s: real)
    ensures s > 0.0
  {
    var d := Sub(e.maxZ, e.minZ);
    if d.IsFinite() && Greater(e.maxZ, e.minZ) then d.v else 1.0
  }

  /** `zLo = minZ − 0.05·span`, `zHi = maxZ + 0.05·span`. */
  function Padded(e: Extent): ZRange {
    var pad := Span(e) * 0.05;
    ZRange(Sub(e.minZ, Finite(pad)), Plus(e.maxZ, Finite(pad)))
  }

  /** Where a sample is drawn: a non-finite one at the edge on its side, a finite one clamped
      into the range. */
  function Place(z: Num, r: ZRange): Num {
    if !z.IsFinite() then (if z.IsPositive() then r.zHi else r.zLo)
    else Max(r.zLo, Min(r.zHi, z))
  }

  /** With a finite sample the padded range is finite and strictly contains the sample range. */
  lemma PaddedAround(zs: seq<Num>)
    requires HasFinite(zs)
    ensures Padded(Survey(zs)).zLo.IsFinite() && Padded(Survey(zs)).zHi.IsFinite()
    ensures Padded(Survey(zs)).zLo.v < Survey(zs).minZ.v <= Survey(zs).maxZ.v < Padded(Survey(zs)).zHi.v
  {
    SurveyRange(zs);
    var k :| 0 <= k < |zs| && zs[k].IsFinite();
    assert Survey(zs).minZ.v <= zs[k].v <= Survey(zs).maxZ.v;
  }

  /** A finite sample is drawn at its own height: the clamp never cuts it. */
  lemma PlaceKeepsFinite(zs: seq<Num>, z: Num)
    requires z in zs && z.IsFinite()
    ensures Place(z, Padded(Survey(zs))) == z
  {
    var k :| 0 <= k < |zs| && zs[k] == z;
    assert HasFinite(zs);
    SurveyRange(zs);
    PaddedAround(zs);
  }

  /** Once some sample is finite, everything is drawn inside `[zLo, zHi]`, and a non-finite
      sample on the edge of its sign. */
  lemma PlaceWithin(zs: seq<Num>, z: Num)
    requires HasFinite(zs)
    ensures var r := Padded(Survey(zs));
            r.zLo.IsFinite() && r.zHi.IsFinite() && Place(z, r).IsFinite() && r.zLo.v <= Place(z, r).v <= r.zHi.v
    ensures !z.IsFinite() ==> Place(z, Padded(Survey(zs))) == if z.IsPositive() then Padded(Survey(zs)).zHi else Padded(Survey(zs)).zLo
  {
    PaddedAround(zs);
  }

  /** With no finite sample the padded range is (+∞, −∞): positive infinity is drawn at −∞ and
      every other sample at +∞. */
  lemma DegenerateRange(zs: seq<Num>, z: Num)
    requires !HasFinite(zs)
    ensures Padded(Survey(zs)) == ZRange(PosInf, NegInf)
    ensures Place(z, Padded(Survey(zs))) == if z.PosInf? then NegInf else PosInf
  {
    SurveyRange(zs);
  }

  // ----- second pass: the points -----

  /** `{ x, y, z }`. */
  datatype Point = Point(x: real, y: real, z: Num)

  /** The points of grid row `i`, by column. */
  function PointRow(s: Sampler, g: Grid, r: ZRange, i: int): seq<Point> {
    seq(g.res + 1, j => Point(g.X(i), g.Y(j), Place(s(g.X(i), g.Y(j)), r)))
  }

  /** The points of the first `n` rows, in the order the loops push them. */
  function PointRows(s: Sampler, g: Grid, r: ZRange, n: nat): seq<Point> {
    if n == 0 then [] else PointRows(s, g, r, n - 1) + PointRow(s, g, r, n - 1)
  }

  /** The first `n` rows hold `n·(res+1)` points. */
  lemma {:induction false} PointCount(s: Sampler, g: Grid, r: ZRange, n: nat)
    ensures |PointRows(s, g, r, n)| == n * (g.res + 1)
  {
    if n > 0 {
      PointCount(s, g, r, n - 1);
      assert (n - 1) * (g.res + 1) + (g.res + 1) == n * (g.res + 1);
    }
  }

  /** Row `i`, column `j` of the grid is point number `i·(res+1) + j`. */
  lemma {:induction false} PointLayout(s: Sampler, g: Grid, r: ZRange, n: nat, i: nat, j: nat)
    requires i < n && j <= g.res
    ensures |PointRows(s, g, r, n)| == n * (g.res + 1)
    ensures i * (g.res + 1) + j < |PointRows(s, g, r, n)|
            && PointRows(s, g, r, n)[i * (g.res + 1) + j] == Point(g.X(i), g.Y(j), Place(s(g.X(i), g.Y(j)), r))
  {
    var w := g.res + 1;
    PointCount(s, g, r, n);
    PointCount(s, g, r, n - 1);
    assert (n - 1) * w + w == n * w;
    if i < n - 1 {
      PointLayout(s, g, r, n - 1, i, j);
    } else {
      assert i * w + j == |PointRows(s, g, r, n - 1)| + j;
    }
  }

  /** A point of the grid: `(X(i), Y(j))` for some `0 <= i, j <= res`. */
  ghost predicate OnGrid(g: Grid, x: real, y: real) {
    exists i: nat, j: nat :: i <= g.res && j <= g.res && x == g.X(i) && y == g.Y(j)
  }

  /** Every point sits on the grid and carries the placed sample of its own position. */
  lemma {:induction false} PointsPlaced(s: Sampler, g: Grid, r: ZRange, n: nat)
    requires n <= g.res + 1
    ensures forall p :: p in PointRows(s, g, r, n) ==> OnGrid(g, p.x, p.y) && p.z == Place(s(p.x, p.y), r)
  {
    if n > 0 {
      PointsPlaced(s, g, r, n - 1);
      forall p | p in PointRow(s, g, r, n - 1) ensures OnGrid(g, p.x, p.y) && p.z == Place(s(p.x, p.y), r) {
        var j :| 0 <= j < |PointRow(s, g, r, n - 1)| && PointRow(s, g, r, n - 1)[j] == p;
        assert p.x == g.X(n - 1) && p.y == g.Y(j);
      }
    }
  }

  // ----- the two passes -----

  /** The inner loop of the first pass over row `i`. */
  method SurveyRow(s: Sampler, g: Grid, grid: array2<Num>, i: nat, e: Extent) returns (e': Extent)
    requires grid.Length0 == g.res + 1 && grid.Length1 == g.res + 1 && i <= g.res
    requires e == Survey(Rows(s, g, i))
    modifies grid
    ensures e' == Survey(Rows(s, g, i + 1))
    ensures forall j :: 0 <= j <= g.res ==> grid[i, j] == s(g.X(i), g.Y(j))
    ensures forall a, b :: 0 <= a <= g.res && 0 <= b <= g.res && a != i ==> grid[a, b] == old(grid[a, b])
  {
    e' := e;
    var j := 0;
    while j <= g.res
      invariant 0 <= j <= g.res + 1
      invariant e' == Resume(e, Row(s, g, i)[..j])
      invariant forall b :: 0 <= b < j ==> grid[i, b] == s(g.X(i), g.Y(b))
      invariant forall a, b :: 0 <= a <= g.res && 0 <= b <= g.res && a != i ==> grid[a, b] == old(grid[a, b])
    {
      var x, y := g.X(i), g.Y(j);
      var z := s(x, y);
      grid[i, j] := z;
      assert Row(s, g, i)[..j + 1][..j] == Row(s, g, i)[..j];
      if !z.IsFinite() {
        e' := e'.(infiniteCount := e'.infiniteCount + 1);
      } else {
        e' := e'.(minZ := Min(e'.minZ, z), maxZ := Max(e'.maxZ, z));
      }
      j := j + 1;
    }
    assert Row(s, g, i)[..j] == Row(s, g, i);
    ResumeAppend(Unseen, Rows(s, g, i), Row(s, g, i));
  }

  /** The first pass: fill `grid` with the samples and survey them. */
  method FirstPass(s: Sampler, g: Grid) returns (grid: array2<Num>, e: Extent)
    ensures fresh(grid) && grid.Length0 == g.res + 1 && grid.Length1 == g.res + 1
    ensures forall i, j :: 0 <= i <= g.res && 0 <= j <= g.res ==> grid[i, j] == s(g.X(i), g.Y(j))
    ensures e == Survey(Samples(s, g))
  {
    grid := new Num[g.res + 1, g.res + 1]((i, j) => NaN);
    e := Unseen;
    var i := 0;
    while i <= g.res
      invariant 0 <= i <= g.res + 1
      invariant e == Survey(Rows(s, g, i))
      invariant forall a, b :: 0 <= a < i && 0 <= b <= g.res ==> grid[a, b] == s(g.X(a), g.Y(b))
    {
      e := SurveyRow(s, g, grid, i, e);
      i := i + 1;
    }
  }

  /** The inner loop of the second pass over row `i`. */
  method PlaceRow(ghost s: Sampler, g: Grid, grid: array2<Num>, r: ZRange, i: nat, points: seq<Point>)
    returns (points': seq<Point>)
    requires grid.Length0 == g.res + 1 && grid.Length1 == g.res + 1 && i <= g.res
    requires forall a, b :: 0 <= a <= g.res && 0 <= b <= g.res ==> grid[a, b] == s(g.X(a), g.Y(b))
    ensures points' == points + PointRow(s, g, r, i)
  {
    points' := points;
    var j := 0;
    while j <= g.res
      invariant 0 <= j <= g.res + 1
      invariant points' == points + PointRow(s, g, r, i)[..j]
    {
      var x, y := g.X(i), g.Y(j);
      var zRaw := grid[i, j];
      var z: Num;
      if !zRaw.IsFinite() {
        z := if zRaw.IsPositive() then r.zHi else r.zLo;
      } else {
        z := Max(r.zLo, Min(r.zHi, zRaw));
      }
      assert PointRow(s, g, r, i)[..j + 1] == PointRow(s, g, r, i)[..j] + [Point(x, y, z)];
      points' := points' + [Point(x, y, z)];
      j := j + 1;
    }
    assert PointRow(s, g, r, i)[..j] == PointRow(s, g, r, i);
  }

  /** The second pass: one point per grid sample, placed into `r`. */
  method SecondPass(ghost s: Sampler, g: Grid, grid: array2<Num>, r: ZRange) returns (points: seq<Point>)
    requires grid.Length0 == g.res + 1 && grid.Length1 == g.res + 1
    requires forall a, b :: 0 <= a <= g.res && 0 <= b <= g.res ==> grid[a, b] == s(g.X(a), g.Y(b))
    ensures points == PointRows(s, g, r, g.res + 1)
  {
    points := [];
    var i := 0;
    while i <= g.res
      invariant 0 <= i <= g.res + 1
      invariant points == PointRows(s, g, r, i)
    {
      points := PlaceRow(s, g, grid, r, i, points);
      i := i + 1;
    }
  }

  /** `{ points, minZ: zLo, maxZ: zHi }`. */
  datatype Surface = Surface(points: seq<Point>, minZ: Num, maxZ: Num)

  /** The surface for the given view: both passes over the grid the resolution selects, and
      the `hasInfiniteValues` flag (more than 10% of `res²` samples non-finite). */
  method GenerateSurfaceData(s: Sampler, zoom: real, isAnimating: bool, xMin: real, xMax: real, yMin: real, yMax: real)
    returns (surface: Surface, hasInfiniteValues: bool)
    ensures var res := Resolution(zoom, isAnimating);
            var g := MakeGrid(xMin, xMax, yMin, yMax, res);
            var e := Survey(Samples(s, g));
            var r := Padded(e);
            surface == Surface(PointRows(s, g, r, res + 1), r.zLo, r.zHi)
            && (hasInfiniteValues <==> e.infiniteCount as real > (res * res) as real * 0.1)
  {
    var resolution := Resolution(zoom, isAnimating);
    var g := MakeGrid(xMin, xMax, yMin, yMax, resolution);
    var grid, e := FirstPass(s, g);
    var span := Span(e);
    var pad := span * 0.05;
    var zLo := Sub(e.minZ, Finite(pad));
    var zHi := Plus(e.maxZ, Finite(pad));
    var points := SecondPass(s, g, grid, ZRange(zLo, zHi));
    hasInfiniteValues := e.infiniteCount as real > (resolution * resolution) as real * 0.1;
    surface := Surface(points, zLo, zHi);
  }

  // ----- properties of the surface -----

  /** The surface has `(res+1)²` points; the point at row `i`, column `j` sits at grid
      position `(i, j)`. */
  lemma SurfaceLayout(s: Sampler, g: Grid, r: ZRange, i: nat, j: nat)
    requires i <= g.res && j <= g.res
    ensures |PointRows(s, g, r, g.res + 1)| == (g.res + 1) * (g.res + 1)
    ensures i * (g.res + 1) + j < |PointRows(s, g, r, g.res + 1)|
            && PointRows(s, g, r, g.res + 1)[i * (g.res + 1) + j].x == g.X(i)
            && PointRows(s, g, r, g.res + 1)[i * (g.res + 1) + j].y == g.Y(j)
  {
    PointLayout(s, g, r, g.res + 1, i, j);
  }

  /** When some sample is finite, every point lies within `[minZ, maxZ]` of the surface, and a
      point whose sample is finite keeps it exactly. */
  lemma SurfaceWithin(s: Sampler, g: Grid)
    requires HasFinite(Samples(s, g))
    ensures var r := Padded(Survey(Samples(s, g)));
            r.zLo.IsFinite() && r.zHi.IsFinite()
            && forall p :: p in PointRows(s, g, r, g.res + 1) ==>
                 p.z.IsFinite() && r.zLo.v <= p.z.v <= r.zHi.v
                 && (s(p.x, p.y).IsFinite() ==> p.z == s(p.x, p.y))
  {
    var zs := Samples(s, g);
    var r := Padded(Survey(zs));
    PaddedAround(zs);
    PointsPlaced(s, g, r, g.res + 1);
    forall p | p in PointRows(s, g, r, g.res + 1)
      ensures p.z.IsFinite() && r.zLo.v <= p.z.v <= r.zHi.v && (s(p.x, p.y).IsFinite() ==> p.z == s(p.x, p.y))
    {
      var z := s(p.x, p.y);
      PlaceWithin(zs, z);
      if z.IsFinite() {
        var i: nat, j: nat :| i <= g.res && j <= g.res && p.x == g.X(i) && p.y == g.Y(j);
        SampleListed(s, g, g.res + 1, i, j);
        PlaceKeepsFinite(zs, z);
      }
    }
  }

  // ----- sampling `evaluateFunction` -----

  /** `evaluateFunction(functionStr, x, y)` as a sampler. */
  function FormulaSampler(host: Host, expr: string): Sampler {
    (x, y) => Finite(EvaluateFunction(host, expr, x, y))
  }

  /** Sampling the wrapped evaluator never meets a non-finite value: nothing is counted,
      `hasInfiniteValues` stays false, and every point keeps its sample unclamped. */
  lemma FormulaSurfaceExact(host: Host, expr: string, g: Grid)
    ensures Survey(Samples(FormulaSampler(host, expr), g)).infiniteCount == 0
    ensures var s := FormulaSampler(host, expr);
            forall p :: p in PointRows(s, g, Padded(Survey(Samples(s, g))), g.res + 1) ==>
              p.z == Finite(EvaluateFunction(host, expr, p.x, p.y))
  {
    var s := FormulaSampler(host, expr);
    var zs := Samples(s, g);
    forall k | 0 <= k < |zs| ensures zs[k].IsFinite() {
      FormulaSamplesFinite(host, expr, g, g.res + 1, k);
    }
    SurveyCount(zs);
    SampleListed(s, g, g.res + 1, 0, 0);
    assert zs[0].IsFinite();
    SurfaceWithin(s, g);
  }

  /** Every sample of the wrapped evaluator is finite. */
  lemma {:induction false} FormulaSamplesFinite(host: Host, expr: string, g: Grid, n: nat, k: nat)
    requires k < |Rows(FormulaSampler(host, expr), g, n)|
    ensures Rows(FormulaSampler(host, expr), g, n)[k].IsFinite()
  {
    var s := FormulaSampler(host, expr);
    var before := Rows(s, g, n - 1);
    if k < |before| {
      FormulaSamplesFinite(host, expr, g, n - 1, k);
    } else {
      assert Rows(s, g, n)[k] == Row(s, g, n - 1)[k - |before|];
    }
  }
}
