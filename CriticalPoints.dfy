/** `findLagrangeCriticalPoints` (lib/math-parser.ts): a brute-force scan of the square
    [-3, 3]² in steps of 0.2 for points that lie (nearly) on the constraint curve `g = 0` and
    where the gradients of the objective `f` and of `g` are (nearly) parallel. A point is
    kept unless it lies within distance 0.5 of a point already kept, and it is classified
    by the sign of `f` there. */
module CriticalPoints {
  import opened JsValues
  import opened Evaluation
  import opened Derivatives

  /** `searchRange`: the scan covers [-3, 3] in both axes. */
  const SearchRange: real := 3.0

  /** The `k`-th value taken by the loop counters `x` and `y`: `-searchRange + k·searchStep`
      with a step of 0.2. */
  function GridCoord(k: int): real {
    -3.0 + k as real * 0.2
  }

  /** The loop test `x <= searchRange` holds for exactly the first 31 grid values. */
  lemma GridEnds(k: nat)
    ensures GridCoord(k) <= SearchRange <==> k < 31
  {
  }

  /** A real that the scan can produce as a coordinate. */
  ghost predicate OnGrid(v: real) {
    exists k :: 0 <= k < 31 && v == GridCoord(k)
  }

  /** The `type` string: "máximo", "mínimo" or "punto de silla". */
  datatype Kind = Maximo | Minimo | PuntoDeSilla

  /** Classification by the sign of the objective at the point. */
  function Classify(z: real): (k: Kind)
    ensures k == Maximo <==> z > 0.0
    ensures k == Minimo <==> z < 0.0
    ensures k == PuntoDeSilla <==> z == 0.0
  {
    if z > 0.0 then Maximo else if z < 0.0 then Minimo else PuntoDeSilla
  }

  /** `{ x, y, z, type }`. */
  datatype CriticalPoint = CriticalPoint(x: real, y: real, z: real, kind: Kind)

  /** The z-component of the cross product of two plane vectors. */
  function Cross(f: Partials, g: Partials): real {
    f.dx * g.dy - f.dy * g.dx
  }

  /** A formula as the search sees it: `(x, y) => evaluateFunction(expr, x, y)`. */
  type Field = (real, real) -> real

  /** The constraint nearly vanishes: `|g(x, y)| < 0.1`. */
  predicate OnConstraint(g: Field, x: real, y: real) {
    -0.1 < g(x, y) < 0.1
  }

  /** The two gradients are nearly parallel: `|∇f × ∇g| < 0.5`. A gradient's `vector` is the
      pair of central differences (see `Derivatives.CalculateGradient`). */
  predicate GradientsParallel(f: Field, g: Field, x: real, y: real) {
    -0.5 < Cross(CentralDifferences(f, x, y), CentralDifferences(g, x, y)) < 0.5
  }

  /** The point the scan records at `(x, y)`. */
  function PointAt(f: Field, x: real, y: real): CriticalPoint {
    CriticalPoint(x, y, f(x, y), Classify(f(x, y)))
  }

  /** What grid cell `(x, y)` offers before the duplicate test. */
  function Candidate(f: Field, g: Field, x: real, y: real): Option<CriticalPoint> {
    if OnConstraint(g, x, y) && GradientsParallel(f, g, x, y) then Some(PointAt(f, x, y)) else None
  }

  /** Flat position `i·31 + j` is row `i`, column `j`. */
  lemma FlatIndex(i: nat, j: nat)
    requires j < 31
    ensures (i * 31 + j) / 31 == i && (i * 31 + j) % 31 == j
  {
  }

  /** The cell visited at flat position `n`: `x` outer, `y` inner. */
  function CellX(n: nat): real {
    GridCoord(n / 31)
  }

  function CellY(n: nat): real {
    GridCoord(n % 31)
  }

  /** The candidates of the search, by flat cell position. */
  function Cells(f: Field, g: Field): nat -> Option<CriticalPoint> {
    (k: nat) => Candidate(f, g, CellX(k), CellY(k))
  }

  /** `criticalPoints.some(p => Math.sqrt((p.x - x) ** 2 + (p.y - y) ** 2) < 0.5)`. */
  function IsDuplicate(sqrt: real -> real, kept: seq<CriticalPoint>, x: real, y: real): bool {
    |kept| > 0 && (sqrt(Sq(kept[0].x - x) + Sq(kept[0].y - y)) < 0.5 || IsDuplicate(sqrt, kept[1..], x, y))
  }

  /** `p` lies strictly within distance 0.5 of `(x, y)`, stated without a square root. */
  predicate Near(p: CriticalPoint, x: real, y: real) {
    Sq(p.x - x) + Sq(p.y - y) < 0.25
  }

  /** The duplicate test is the squared-distance test against some kept point. */
  lemma {:induction false} DuplicateIffNear(sqrt: real -> real, kept: seq<CriticalPoint>, x: real, y: real)
    requires IsSqrt(sqrt)
    ensures IsDuplicate(sqrt, kept, x, y) <==> exists i :: 0 <= i < |kept| && Near(kept[i], x, y)
    decreases |kept|
  {
    if |kept| > 0 {
      SqrtBelowHalf(sqrt, Sq(kept[0].x - x) + Sq(kept[0].y - y));
      DuplicateIffNear(sqrt, kept[1..], x, y);
      if exists i :: 0 <= i < |kept| && Near(kept[i], x, y) {
        var i :| 0 <= i < |kept| && Near(kept[i], x, y);
        if i > 0 {
          assert kept[1..][i - 1] == kept[i];
        }
      }
      if exists i :: 0 <= i < |kept[1..]| && Near(kept[1..][i], x, y) {
        var i :| 0 <= i < |kept[1..]| && Near(kept[1..][i], x, y);
        assert kept[i + 1] == kept[1..][i];
      }
    }
  }

  /** One step of the scan: a candidate is pushed unless it duplicates a kept point. */
  function Admit(sqrt: real -> real, kept: seq<CriticalPoint>, c: Option<CriticalPoint>): seq<CriticalPoint> {
    if c.Some? && !IsDuplicate(sqrt, kept, c.value.x, c.value.y) then kept + [c.value] else kept
  }

  /** The points kept after visiting the first `n` cells. */
  function Scan(sqrt: real -> real, cells: nat -> Option<CriticalPoint>, n: nat): seq<CriticalPoint> {
    if n == 0 then [] else Admit(sqrt, Scan(sqrt, cells, n - 1), cells(n - 1))
  }

  /** `cells` gives, at every flat position, the candidate of that grid cell. */
  ghost predicate CellsOf(f: Field, g: Field, cells: nat -> Option<CriticalPoint>) {
    forall k: nat {:trigger Candidate(f, g, CellX(k), CellY(k))} :: cells(k) == Candidate(f, g, CellX(k), CellY(k))
  }

  /** `Cells(f, g)` is such a table. */
  lemma CellsOfCells(f: Field, g: Field)
    ensures CellsOf(f, g, Cells(f, g))
  {
  }

  /** The body of the inner loop at `(x, y)`: the two tests, the duplicate test and the push.
      `calculateGradient(...).vector` is computed as the central differences it consists of. */
  method VisitCell(sqrt: real -> real, f: Field, g: Field, ghost cells: nat -> Option<CriticalPoint>, points: seq<CriticalPoint>, x: real, y: real, ghost n: nat)
    returns (points': seq<CriticalPoint>)
    requires CellsOf(f, g, cells)
    requires x == CellX(n) && y == CellY(n)
    ensures points' == Admit(sqrt, points, cells(n))
  {
    assert cells(n) == Candidate(f, g, CellX(n), CellY(n));
    points' := points;
    var gValue := g(x, y);
    if Abs(gValue) < 0.1 {
      var gradF := CentralDifferences(f, x, y);
      var gradG := CentralDifferences(g, x, y);
      var crossProduct := gradF.dx * gradG.dy - gradF.dy * gradG.dx;
      assert crossProduct == Cross(gradF, gradG);
      if Abs(crossProduct) < 0.5 {
        var z := f(x, y);
        var isDuplicate := IsDuplicate(sqrt, points, x, y);
        if !isDuplicate {
          var kind := if z > 0.0 then Maximo else if z < 0.0 then Minimo else PuntoDeSilla;
          points' := points + [CriticalPoint(x, y, z, kind)];
        }
      } else {
        assert !GradientsParallel(f, g, x, y);
      }
    } else {
      assert !OnConstraint(g, x, y);
    }
  }

  /** The inner loop: `y` runs over the grid values with `x` fixed at row `i`. */
  method ScanRow(sqrt: real -> real, f: Field, g: Field, ghost cells: nat -> Option<CriticalPoint>, points: seq<CriticalPoint>, i: nat, ghost n: nat)
    returns (points': seq<CriticalPoint>)
    requires CellsOf(f, g, cells)
    requires n == i * 31 && points == Scan(sqrt, cells, n)
    ensures points' == Scan(sqrt, cells, n + 31)
  {
    points' := points;
    var x := GridCoord(i);
    var j: nat := 0;
    ghost var m: nat := n;
    while GridCoord(j) <= SearchRange
      invariant j <= 31 && m == n + j
      invariant points' == Scan(sqrt, cells, m)
      decreases 31 - j
    {
      GridEnds(j);
      var y := GridCoord(j);
      FlatIndex(i, j);
      points' := VisitCell(sqrt, f, g, cells, points', x, y, m);
      j := j + 1;
      m := m + 1;
    }
    GridEnds(j);
    assert m == n + 31;
  }

  /** The nested loops over `x` and `y`, pushing onto `criticalPoints`. */
  method SearchGrid(sqrt: real -> real, f: Field, g: Field) returns (points: seq<CriticalPoint>)
    ensures points == Scan(sqrt, Cells(f, g), 961)
  {
    ghost var cells := Cells(f, g);
    CellsOfCells(f, g);
    points := [];
    var i: nat := 0;
    ghost var n: nat := 0;
    while GridCoord(i) <= SearchRange
      invariant i <= 31 && n == i * 31
      invariant points == Scan(sqrt, cells, n)
      decreases 31 - i
    {
      GridEnds(i);
      points := ScanRow(sqrt, f, g, cells, points, i, n);
      i := i + 1;
      n := n + 31;
    }
    GridEnds(i);
    assert n == 961;
  }

  /** `findLagrangeCriticalPoints(objectiveFunc, constraintFunc)`: the grid search over the two
      wrapped evaluators. */
  method FindLagrangeCriticalPoints(host: Host, sqrt: real -> real, objective: string, constraint: string)
    returns (points: seq<CriticalPoint>)
    ensures points == Scan(sqrt, Cells(Evaluator(host, objective), Evaluator(host, constraint)), 961)
  {
    points := SearchGrid(sqrt, Evaluator(host, objective), Evaluator(host, constraint));
  }

  // ----- properties of the scan, for any candidates -----

  /** `v` is the candidate of one of the first `n` cells. */
  ghost predicate FromCell(cells: nat -> Option<CriticalPoint>, n: nat, v: CriticalPoint) {
    exists k: nat :: k < n && cells(k) == Some(v)
  }

  /** Every kept point is the candidate of one of the cells visited. */
  lemma {:induction false} ScanFromCells(sqrt: real -> real, cells: nat -> Option<CriticalPoint>, n: nat)
    ensures forall i :: 0 <= i < |Scan(sqrt, cells, n)| ==> FromCell(cells, n, Scan(sqrt, cells, n)[i])
  {
    if n > 0 {
      ScanFromCells(sqrt, cells, n - 1);
      var s := Scan(sqrt, cells, n);
      var kept := Scan(sqrt, cells, n - 1);
      forall i | 0 <= i < |s| ensures FromCell(cells, n, s[i]) {
        if i < |kept| {
          assert FromCell(cells, n - 1, kept[i]);
          var k: nat :| k < n - 1 && cells(k) == Some(kept[i]);
          assert s[i] == kept[i];
        } else {
          assert cells(n - 1) == Some(s[i]);
        }
      }
    }
  }

  /** No two points of `s` are closer than 0.5. */
  ghost predicate Separated(s: seq<CriticalPoint>) {
    forall a, b :: 0 <= a < b < |s| ==> !Near(s[a], s[b].x, s[b].y)
  }

  lemma SeparatedSnoc(kept: seq<CriticalPoint>, p: CriticalPoint)
    requires Separated(kept)
    requires forall i :: 0 <= i < |kept| ==> !Near(kept[i], p.x, p.y)
    ensures Separated(kept + [p])
  {
    var s := kept + [p];
    forall a, b | 0 <= a < b < |s| ensures !Near(s[a], s[b].x, s[b].y) {
      assert s[a] == kept[a];
      if b < |kept| {
        assert s[b] == kept[b];
      }
    }
  }

  /** No two kept points are closer than 0.5. */
  lemma {:induction false} ScanSeparated(sqrt: real -> real, cells: nat -> Option<CriticalPoint>, n: nat)
    requires IsSqrt(sqrt)
    ensures Separated(Scan(sqrt, cells, n))
  {
    if n > 0 {
      ScanSeparated(sqrt, cells, n - 1);
      var kept := Scan(sqrt, cells, n - 1);
      var c := cells(n - 1);
      if c.Some? && !IsDuplicate(sqrt, kept, c.value.x, c.value.y) {
        DuplicateIffNear(sqrt, kept, c.value.x, c.value.y);
        SeparatedSnoc(kept, c.value);
      }
    }
  }

  /** The scan only ever appends. */
  lemma {:induction false} ScanGrows(sqrt: real -> real, cells: nat -> Option<CriticalPoint>, m: nat, n: nat)
    requires m <= n
    ensures Scan(sqrt, cells, m) <= Scan(sqrt, cells, n)
    decreases n - m
  {
    if m < n {
      ScanGrows(sqrt, cells, m, n - 1);
    }
  }

  /** The first point of a cluster wins: every candidate is kept or lies within 0.5 of a
      point kept before it. */
  lemma ScanCovers(sqrt: real -> real, cells: nat -> Option<CriticalPoint>, n: nat, k: nat)
    requires IsSqrt(sqrt) && k < n && cells(k).Some?
    ensures cells(k).value in Scan(sqrt, cells, n)
            || exists i :: 0 <= i < |Scan(sqrt, cells, k)| && Near(Scan(sqrt, cells, k)[i], cells(k).value.x, cells(k).value.y)
  {
    var p := cells(k).value;
    var before := Scan(sqrt, cells, k);
    var after := Scan(sqrt, cells, k + 1);
    DuplicateIffNear(sqrt, before, p.x, p.y);
    ScanGrows(sqrt, cells, k + 1, n);
    var s := Scan(sqrt, cells, n);
    if IsDuplicate(sqrt, before, p.x, p.y) {
      var i :| 0 <= i < |before| && Near(before[i], p.x, p.y);
      assert exists i :: 0 <= i < |Scan(sqrt, cells, k)| && Near(Scan(sqrt, cells, k)[i], cells(k).value.x, cells(k).value.y);
    } else {
      assert s[|before|] == after[|before|] == p;
    }
  }

  /** Scans of candidates that agree on the visited cells agree. */
  lemma {:induction false} ScanCongruent(sqrt: real -> real, c1: nat -> Option<CriticalPoint>, c2: nat -> Option<CriticalPoint>, n: nat)
    requires forall k :: 0 <= k < n ==> c1(k) == c2(k)
    ensures Scan(sqrt, c1, n) == Scan(sqrt, c2, n)
  {
    if n > 0 {
      ScanCongruent(sqrt, c1, c2, n - 1);
    }
  }

  /** `(x1, y1)` comes strictly before `(x2, y2)` in the scan: `x` outer, `y` inner. */
  predicate ScanBefore(x1: real, y1: real, x2: real, y2: real) {
    x1 < x2 || (x1 == x2 && y1 < y2)
  }

  /** Earlier cells come before later ones. */
  lemma CellOrder(m: nat, n: nat)
    requires m < n
    ensures ScanBefore(CellX(m), CellY(m), CellX(n), CellY(n))
  {
    var qm, qn := m / 31, n / 31;
    assert qm <= qn;
    if qm == qn {
      assert m % 31 < n % 31;
    }
  }

  /** `s` is in scan order. */
  predicate InScanOrder(s: seq<CriticalPoint>) {
    forall a, b :: 0 <= a < b < |s| ==> ScanBefore(s[a].x, s[a].y, s[b].x, s[b].y)
  }

  lemma InScanOrderSnoc(kept: seq<CriticalPoint>, p: CriticalPoint)
    requires InScanOrder(kept)
    requires forall i :: 0 <= i < |kept| ==> ScanBefore(kept[i].x, kept[i].y, p.x, p.y)
    ensures InScanOrder(kept + [p])
  {
    var s := kept + [p];
    forall a, b | 0 <= a < b < |s| ensures ScanBefore(s[a].x, s[a].y, s[b].x, s[b].y) {
      assert s[a] == kept[a];
      if b < |kept| {
        assert s[b] == kept[b];
      }
    }
  }

  /** Candidates that sit at their own cell are kept in scan order: by `x`, then by `y`. */
  lemma {:induction false} ScanOrdered(sqrt: real -> real, cells: nat -> Option<CriticalPoint>, n: nat)
    requires forall k: nat :: cells(k).Some? ==> cells(k).value.x == CellX(k) && cells(k).value.y == CellY(k)
    ensures InScanOrder(Scan(sqrt, cells, n))
  {
    if n > 0 {
      ScanOrdered(sqrt, cells, n - 1);
      ScanFromCells(sqrt, cells, n - 1);
      var kept := Scan(sqrt, cells, n - 1);
      var c := cells(n - 1);
      if c.Some? && !IsDuplicate(sqrt, kept, c.value.x, c.value.y) {
        forall i | 0 <= i < |kept| ensures ScanBefore(kept[i].x, kept[i].y, c.value.x, c.value.y) {
          assert FromCell(cells, n - 1, kept[i]);
          var k: nat :| k < n - 1 && cells(k) == Some(kept[i]);
          CellOrder(k, n - 1);
        }
        InScanOrderSnoc(kept, c.value);
      }
    }
  }

  // ----- properties of the search -----

  /** What every reported point satisfies. */
  ghost predicate Admissible(f: Field, g: Field, p: CriticalPoint) {
    OnGrid(p.x) && OnGrid(p.y) && OnConstraint(g, p.x, p.y) && GradientsParallel(f, g, p.x, p.y)
    && p.z == f(p.x, p.y) && p.kind == Classify(p.z)
  }

  /** A candidate of a grid cell sits at that cell, on the grid, and passed both tests. */
  lemma CandidateSound(f: Field, g: Field, k: nat)
    requires k < 961 && Cells(f, g)(k).Some?
    ensures var p := Cells(f, g)(k).value;
            p.x == CellX(k) && p.y == CellY(k) && Admissible(f, g, p)
  {
    assert 0 <= k / 31 < 31 && 0 <= k % 31 < 31;
  }

  /** Every reported point is a grid point on the constraint with parallel gradients,
      carrying the objective's value and its sign class. */
  lemma SearchSound(sqrt: real -> real, f: Field, g: Field, n: nat)
    requires n <= 961
    ensures forall i :: 0 <= i < |Scan(sqrt, Cells(f, g), n)| ==> Admissible(f, g, Scan(sqrt, Cells(f, g), n)[i])
  {
    var s := Scan(sqrt, Cells(f, g), n);
    ScanFromCells(sqrt, Cells(f, g), n);
    forall i | 0 <= i < |s| ensures Admissible(f, g, s[i]) {
      assert FromCell(Cells(f, g), n, s[i]);
      var k: nat :| k < n && Cells(f, g)(k) == Some(s[i]);
      CandidateSound(f, g, k);
    }
  }

  /** The search reports its points in scan order. */
  lemma SearchOrdered(sqrt: real -> real, f: Field, g: Field, n: nat)
    ensures InScanOrder(Scan(sqrt, Cells(f, g), n))
  {
    ScanOrdered(sqrt, Cells(f, g), n);
  }

  // ----- an unparseable constraint -----

  /** Every grid cell accepted: only the duplicate filter remains. */
  function AllCells(f: Field): nat -> Option<CriticalPoint> {
    (k: nat) => Some(PointAt(f, CellX(k), CellY(k)))
  }

  /** A constraint whose code always throws evaluates to 0, so every grid point lies "on" it,
      and its gradient is zero, which is parallel to anything. */
  lemma ThrowingConstraintAdmitsAll(host: Host, f: Field, con: string, x: real, y: real)
    requires AlwaysThrows(host, con)
    ensures Candidate(f, Evaluator(host, con), x, y) == Some(PointAt(f, x, y))
  {
    var g := Evaluator(host, con);
    UnparseableIsZero(host, con);
    assert g(x, y) == 0.0;
    assert g(x + H, y) == 0.0 && g(x - H, y) == 0.0 && g(x, y + H) == 0.0 && g(x, y - H) == 0.0;
    assert CentralDifferences(g, x, y) == Zero;
    assert Cross(CentralDifferences(f, x, y), Zero) == 0.0;
  }

  /** With an unparseable constraint the result is just the duplicate-filtered grid. */
  lemma ThrowingConstraintScan(host: Host, sqrt: real -> real, f: Field, con: string, n: nat)
    requires AlwaysThrows(host, con)
    ensures Scan(sqrt, Cells(f, Evaluator(host, con)), n) == Scan(sqrt, AllCells(f), n)
  {
    forall k: nat | k < n ensures Cells(f, Evaluator(host, con))(k) == AllCells(f)(k) {
      ThrowingConstraintAdmitsAll(host, f, con, CellX(k), CellY(k));
    }
    ScanCongruent(sqrt, Cells(f, Evaluator(host, con)), AllCells(f), n);
  }
}
