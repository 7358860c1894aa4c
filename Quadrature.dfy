/** `calculateDoubleIntegral` (lib/math-parser.ts): the midpoint rule on a
    `divisions × divisions` grid over the rectangle [xMin, xMax] × [yMin, yMax]. */
module Quadrature {
  import opened Evaluation

  /** The centre of the `i`-th of the intervals of width `d` that start at `lo`. */
  function Centre(lo: real, d: real, i: int): real {
    lo + (i as real + 0.5) * d
  }

  /** The contribution of the first `n` cells of the column at `x`: `Σ f(x, yⱼ)·dx·dy`. */
  function ColumnSum(f: (real, real) -> real, x: real, yMin: real, dx: real, dy: real, n: nat): real {
    if n == 0 then 0.0 else ColumnSum(f, x, yMin, dx, dy, n - 1) + f(x, Centre(yMin, dy, n - 1)) * dx * dy
  }

  /** The contribution of the first `m` columns, each of `n` cells. */
  function GridSum(f: (real, real) -> real, xMin: real, yMin: real, dx: real, dy: real, m: nat, n: nat): real {
    if m == 0 then 0.0 else GridSum(f, xMin, yMin, dx, dy, m - 1, n) + ColumnSum(f, Centre(xMin, dx, m - 1), yMin, dx, dy, n)
  }

  /** The midpoint-rule value the source computes; with no divisions no cell is visited. */
  function MidpointRule(f: (real, real) -> real, xMin: real, xMax: real, yMin: real, yMax: real, divisions: int): real {
    if divisions <= 0 then 0.0
    else GridSum(f, xMin, yMin, (xMax - xMin) / divisions as real, (yMax - yMin) / divisions as real, divisions, divisions)
  }

  /** The inner loop: the cells of the column at `x`, added to `sum` in order. */
  method AddColumn(host: Host, expr: string, x: real, yMin: real, dx: real, dy: real, divisions: nat, sum: real)
    returns (sum': real)
    ensures sum' == sum + ColumnSum(Evaluator(host, expr), x, yMin, dx, dy, divisions)
  {
    sum' := sum;
    var j := 0;
    while j < divisions
      invariant 0 <= j <= divisions
      invariant sum' == sum + ColumnSum(Evaluator(host, expr), x, yMin, dx, dy, j)
    {
      var y := yMin + (j as real + 0.5) * dy;
      var z := EvaluateFunction(host, expr, x, y);
      assert Evaluator(host, expr)(x, Centre(yMin, dy, j)) == z;
      // `isFinite(z)` always holds: the wrapper never returns a non-finite number.
      sum' := sum' + z * dx * dy;
      j := j + 1;
    }
  }

  /** `calculateDoubleIntegral(expr, xMin, xMax, yMin, yMax, divisions = 50)`. */
  method CalculateDoubleIntegral(host: Host, expr: string, xMin: real, xMax: real, yMin: real, yMax: real, divisions: int := 50)
    returns (sum: real)
    ensures sum == MidpointRule(Evaluator(host, expr), xMin, xMax, yMin, yMax, divisions)
    ensures divisions <= 0 ==> sum == 0.0
  {
    sum := 0.0;
    if divisions <= 0 {
      return;
    }
    var dx := (xMax - xMin) / divisions as real;
    var dy := (yMax - yMin) / divisions as real;
    var i := 0;
    while i < divisions
      invariant 0 <= i <= divisions
      invariant sum == GridSum(Evaluator(host, expr), xMin, yMin, dx, dy, i, divisions)
    {
      var x := xMin + (i as real + 0.5) * dx;
      assert x == Centre(xMin, dx, i);
      sum := AddColumn(host, expr, x, yMin, dx, dy, divisions, sum);
      i := i + 1;
    }
  }

  // ----- properties of the rule -----

  /** Every sample lies strictly inside its interval: `lo < Centre(lo, (hi - lo)/n, i) < hi`. */
  lemma CentreInside(lo: real, hi: real, n: nat, i: nat)
    requires lo < hi && i < n
    ensures lo < Centre(lo, (hi - lo) / n as real, i) < hi
  {
    var d := (hi - lo) / n as real;
    var t := (i as real + 0.5) * d;
    assert d > 0.0;
    assert n as real * d == hi - lo;
    assert 0.0 < t;
    var gap := n as real - (i as real + 0.5);
    assert gap > 0.0;
    assert gap * d > 0.0;
    assert gap * d == n as real * d - t;
  }

  /** A constant column sums to `n·c·dx·dy`. */
  lemma {:induction false} ColumnOfConstant(f: (real, real) -> real, c: real, x: real, yMin: real, dx: real, dy: real, n: nat)
    requires forall u, v :: f(u, v) == c
    ensures ColumnSum(f, x, yMin, dx, dy, n) == n as real * (c * dx * dy)
  {
    if n > 0 {
      ColumnOfConstant(f, c, x, yMin, dx, dy, n - 1);
      assert f(x, Centre(yMin, dy, n - 1)) * dx * dy == c * dx * dy;
    }
  }

  /** A constant grid of `m` columns of `n` cells sums to `m·(n·c·dx·dy)`. */
  lemma {:induction false} GridOfConstant(f: (real, real) -> real, c: real, xMin: real, yMin: real, dx: real, dy: real, m: nat, n: nat)
    requires forall u, v :: f(u, v) == c
    ensures GridSum(f, xMin, yMin, dx, dy, m, n) == m as real * (n as real * (c * dx * dy))
  {
    if m > 0 {
      GridOfConstant(f, c, xMin, yMin, dx, dy, m - 1, n);
      ColumnOfConstant(f, c, Centre(xMin, dx, m - 1), yMin, dx, dy, n);
    }
  }

  /** The rule is exact on constants: a constant `c` integrates to `c · width · height`. */
  lemma IntegralOfConstant(f: (real, real) -> real, c: real, xMin: real, xMax: real, yMin: real, yMax: real, divisions: int)
    requires forall u, v :: f(u, v) == c
    requires divisions > 0
    ensures MidpointRule(f, xMin, xMax, yMin, yMax, divisions) == c * (xMax - xMin) * (yMax - yMin)
  {
    var n := divisions as real;
    var dx, dy := (xMax - xMin) / n, (yMax - yMin) / n;
    GridOfConstant(f, c, xMin, yMin, dx, dy, divisions, divisions);
    assert n * dx == xMax - xMin;
    assert n * dy == yMax - yMin;
    calc {
      n * (n * (c * dx * dy));
      c * (n * dx) * (n * dy);
      c * (xMax - xMin) * (yMax - yMin);
    }
  }

  /** An expression whose code always throws integrates to 0. */
  lemma IntegralOfUnparseable(host: Host, expr: string, xMin: real, xMax: real, yMin: real, yMax: real, divisions: int)
    requires AlwaysThrows(host, expr)
    ensures MidpointRule(Evaluator(host, expr), xMin, xMax, yMin, yMax, divisions) == 0.0
  {
    UnparseableIsZero(host, expr);
    if divisions > 0 {
      IntegralOfConstant(Evaluator(host, expr), 0.0, xMin, xMax, yMin, yMax, divisions);
    }
  }

  /** Column sums are additive in the integrand. */
  lemma {:induction false} ColumnAdditive(f: (real, real) -> real, g: (real, real) -> real, h: (real, real) -> real, x: real, yMin: real, dx: real, dy: real, n: nat)
    requires forall u, v :: h(u, v) == f(u, v) + g(u, v)
    ensures ColumnSum(h, x, yMin, dx, dy, n) == ColumnSum(f, x, yMin, dx, dy, n) + ColumnSum(g, x, yMin, dx, dy, n)
  {
    if n > 0 {
      ColumnAdditive(f, g, h, x, yMin, dx, dy, n - 1);
      var y := Centre(yMin, dy, n - 1);
      assert h(x, y) * dx * dy == f(x, y) * dx * dy + g(x, y) * dx * dy;
    }
  }

  /** Grid sums are additive in the integrand. */
  lemma {:induction false} GridAdditive(f: (real, real) -> real, g: (real, real) -> real, h: (real, real) -> real, xMin: real, yMin: real, dx: real, dy: real, m: nat, n: nat)
    requires forall u, v :: h(u, v) == f(u, v) + g(u, v)
    ensures GridSum(h, xMin, yMin, dx, dy, m, n) == GridSum(f, xMin, yMin, dx, dy, m, n) + GridSum(g, xMin, yMin, dx, dy, m, n)
  {
    if m > 0 {
      GridAdditive(f, g, h, xMin, yMin, dx, dy, m - 1, n);
      ColumnAdditive(f, g, h, Centre(xMin, dx, m - 1), yMin, dx, dy, n);
    }
  }

  /** The rule is linear: the integral of a sum is the sum of the integrals. */
  lemma IntegralAdditive(f: (real, real) -> real, g: (real, real) -> real, h: (real, real) -> real, xMin: real, xMax: real, yMin: real, yMax: real, divisions: int)
    requires forall u, v :: h(u, v) == f(u, v) + g(u, v)
    ensures MidpointRule(h, xMin, xMax, yMin, yMax, divisions)
         == MidpointRule(f, xMin, xMax, yMin, yMax, divisions) + MidpointRule(g, xMin, xMax, yMin, yMax, divisions)
  {
    if divisions > 0 {
      var n := divisions as real;
      GridAdditive(f, g, h, xMin, yMin, (xMax - xMin) / n, (yMax - yMin) / n, divisions, divisions);
    }
  }

  /** Non-negative column terms give a non-negative column. */
  lemma {:induction false} ColumnNonNegative(f: (real, real) -> real, x: real, yMin: real, dx: real, dy: real, n: nat)
    requires forall u, v :: f(u, v) >= 0.0
    requires dx >= 0.0 && dy >= 0.0
    ensures ColumnSum(f, x, yMin, dx, dy, n) >= 0.0
  {
    if n > 0 {
      ColumnNonNegative(f, x, yMin, dx, dy, n - 1);
      var z := f(x, Centre(yMin, dy, n - 1));
      assert z >= 0.0;
      assert z * dx >= 0.0;
      assert z * dx * dy >= 0.0;
    }
  }

  /** Non-negative columns give a non-negative grid. */
  lemma {:induction false} GridNonNegative(f: (real, real) -> real, xMin: real, yMin: real, dx: real, dy: real, m: nat, n: nat)
    requires forall u, v :: f(u, v) >= 0.0
    requires dx >= 0.0 && dy >= 0.0
    ensures GridSum(f, xMin, yMin, dx, dy, m, n) >= 0.0
  {
    if m > 0 {
      GridNonNegative(f, xMin, yMin, dx, dy, m - 1, n);
      ColumnNonNegative(f, Centre(xMin, dx, m - 1), yMin, dx, dy, n);
    }
  }

  /** A non-negative integrand over a well-ordered rectangle has a non-negative integral. */
  lemma IntegralNonNegative(f: (real, real) -> real, xMin: real, xMax: real, yMin: real, yMax: real, divisions: int)
    requires forall u, v :: f(u, v) >= 0.0
    requires xMin <= xMax && yMin <= yMax
    ensures MidpointRule(f, xMin, xMax, yMin, yMax, divisions) >= 0.0
  {
    if divisions > 0 {
      var n := divisions as real;
      GridNonNegative(f, xMin, yMin, (xMax - xMin) / n, (yMax - yMin) / n, divisions, divisions);
    }
  }
}
