/** Central-difference partial derivatives and the gradient built on them
    (`calculatePartialDerivatives`, `calculateGradient`, lib/math-parser.ts). Both are
    closed formulas over the wrapped evaluator `f(x, y) = evaluateFunction(expr, x, y)`. */
module Derivatives {
  import opened JsValues
  import opened Evaluation

  /** The differentiation step `h`; the quotients divide by `2h`, written 0.0002. */
  const H: real := 0.0001

  /** `{ dx, dy }`: a pair of partial derivatives, or a plane vector. */
  datatype Partials = Partials(dx: real, dy: real)

  const Zero: Partials := Partials(0.0, 0.0)

  /** Symmetric difference quotients of `f` at `(x, y)` with step `H` in each axis. */
  function CentralDifferences(f: (real, real) -> real, x: real, y: real): Partials {
    Partials((f(x + H, y) - f(x - H, y)) / 0.0002, (f(x, y + H) - f(x, y - H)) / 0.0002)
  }

  /** `calculatePartialDerivatives(expr, x, y)`: central differences of the wrapped evaluator. */
  function CalculatePartialDerivatives(host: Host, expr: string, x: real, y: real): (p: Partials)
    ensures p.dx * 0.0002 == EvaluateFunction(host, expr, x + H, y) - EvaluateFunction(host, expr, x - H, y)
    ensures p.dy * 0.0002 == EvaluateFunction(host, expr, x, y + H) - EvaluateFunction(host, expr, x, y - H)
  {
    CentralDifferences(Evaluator(host, expr), x, y)
  }

  /** On an affine formula `a·x + b·y + c` the difference quotients are exact. */
  lemma PartialsOfAffine(host: Host, expr: string, a: real, b: real, c: real, x: real, y: real)
    requires EvaluatesTo(host, expr, (u, v) => a * u + b * v + c)
    ensures CalculatePartialDerivatives(host, expr, x, y) == Partials(a, b)
  {
    assert EvaluateFunction(host, expr, x + H, y) == a * (x + H) + b * y + c;
    assert EvaluateFunction(host, expr, x - H, y) == a * (x - H) + b * y + c;
    assert EvaluateFunction(host, expr, x, y + H) == a * x + b * (y + H) + c;
    assert EvaluateFunction(host, expr, x, y - H) == a * x + b * (y - H) + c;
  }

  /** A constant formula has zero partials. */
  lemma PartialsOfConstant(host: Host, expr: string, c: real, x: real, y: real)
    requires EvaluatesTo(host, expr, (u, v) => c)
    ensures CalculatePartialDerivatives(host, expr, x, y) == Zero
  {
    PartialsOfAffine(host, expr, 0.0, 0.0, c, x, y);
  }

  /** A quotient `q` with `q·2H = a·(t+H)² − a·(t−H)²` is exactly `2a·t`. */
  lemma SquareQuotient(a: real, t: real, q: real, plus: real, minus: real)
    requires plus == a * (t + H) * (t + H) && minus == a * (t - H) * (t - H)
    requires q * 0.0002 == plus - minus
    ensures q == 2.0 * a * t
  {
    assert plus - minus == (2.0 * a * t) * 0.0002;
  }

  /** The `x` quotient of `a·x² + b·y² + c` is `2a·x`. */
  lemma QuadraticDx(host: Host, expr: string, a: real, b: real, c: real, x: real, y: real)
    requires EvaluatesTo(host, expr, (u, v) => a * u * u + b * v * v + c)
    ensures CalculatePartialDerivatives(host, expr, x, y).dx == 2.0 * a * x
  {
    var plus, minus := EvaluateFunction(host, expr, x + H, y), EvaluateFunction(host, expr, x - H, y);
    assert plus - minus == a * (x + H) * (x + H) - a * (x - H) * (x - H);
    SquareQuotient(a, x, CalculatePartialDerivatives(host, expr, x, y).dx, a * (x + H) * (x + H), a * (x - H) * (x - H));
  }

  /** The `y` quotient of `a·x² + b·y² + c` is `2b·y`. */
  lemma QuadraticDy(host: Host, expr: string, a: real, b: real, c: real, x: real, y: real)
    requires EvaluatesTo(host, expr, (u, v) => a * u * u + b * v * v + c)
    ensures CalculatePartialDerivatives(host, expr, x, y).dy == 2.0 * b * y
  {
    var plus, minus := EvaluateFunction(host, expr, x, y + H), EvaluateFunction(host, expr, x, y - H);
    assert plus - minus == b * (y + H) * (y + H) - b * (y - H) * (y - H);
    SquareQuotient(b, y, CalculatePartialDerivatives(host, expr, x, y).dy, b * (y + H) * (y + H), b * (y - H) * (y - H));
  }

  /** Central differences are exact on quadratics too: `a·x² + b·y² + c` gives `(2a·x, 2b·y)`. */
  lemma PartialsOfQuadratic(host: Host, expr: string, a: real, b: real, c: real, x: real, y: real)
    requires EvaluatesTo(host, expr, (u, v) => a * u * u + b * v * v + c)
    ensures CalculatePartialDerivatives(host, expr, x, y) == Partials(2.0 * a * x, 2.0 * b * y)
  {
    QuadraticDx(host, expr, a, b, c, x, y);
    QuadraticDy(host, expr, a, b, c, x, y);
  }

  /** A formula whose compiled code always throws has zero partials everywhere. */
  lemma PartialsOfUnparseable(host: Host, expr: string, x: real, y: real)
    requires AlwaysThrows(host, expr)
    ensures CalculatePartialDerivatives(host, expr, x, y) == Zero
  {
    UnparseableIsZero(host, expr);
    PartialsOfConstant(host, expr, 0.0, x, y);
  }

  /** `calculateGradient`'s result. */
  datatype Gradient = Gradient(vector: Partials, magnitude: real, direction: Partials)

  /** `calculateGradient(expr, x, y)`: the partials, their Euclidean length, and the
      partials divided by that length (or zero when it is 0). `sqrt` is `Math.sqrt`. */
  function CalculateGradient(host: Host, sqrt: real -> real, expr: string, x: real, y: real): (g: Gradient)
    requires IsSqrt(sqrt)
    ensures g.vector == CalculatePartialDerivatives(host, expr, x, y)
    ensures g.magnitude >= 0.0
    ensures g.magnitude == 0.0 ==> g.direction == Zero
  {
    var p := CalculatePartialDerivatives(host, expr, x, y);
    var m := sqrt(p.dx * p.dx + p.dy * p.dy);
    var direction := if m > 0.0 then Partials(p.dx / m, p.dy / m) else Zero;
    Gradient(p, m, direction)
  }

  /** The magnitude is the Euclidean length of the vector, and a non-zero magnitude scales
      the direction back to the vector. */
  lemma GradientGeometry(host: Host, sqrt: real -> real, expr: string, x: real, y: real)
    requires IsSqrt(sqrt)
    ensures var g := CalculateGradient(host, sqrt, expr, x, y);
            g.magnitude * g.magnitude == g.vector.dx * g.vector.dx + g.vector.dy * g.vector.dy
    ensures var g := CalculateGradient(host, sqrt, expr, x, y);
            g.magnitude > 0.0 ==> g.direction.dx * g.magnitude == g.vector.dx && g.direction.dy * g.magnitude == g.vector.dy
  {
  }
}
