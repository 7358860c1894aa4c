/** `evaluateFunction` (lib/math-parser.ts): compile the rewritten formula and call it.
    The compiled code is foreign: it is the `Host` parameter, which receives the
    rewritten text and the point and either throws or returns a number. What the
    wrapper does with that outcome is modelled exactly. */
module Evaluation {
  import opened JsValues
  import opened ExpressionRewrite

  /** `new Function("x", "y", "Math", "return " + text)` applied to `(x, y, Math)`. */
  type Host = (string, real, real) -> Completion

  /** `evaluateFunction(expr, x, y)`: a finite result is returned as is; a non-finite
      result and a thrown exception both become 0. */
  function EvaluateFunction(host: Host, expr: string, x: real, y: real): (r: real)
    ensures var c := host(ParseMathExpression(expr), x, y); c.Returned? && c.n.IsFinite() ==> r == c.n.v
    ensures r != 0.0 ==> host(ParseMathExpression(expr), x, y) == Returned(Finite(r))
  {
    match host(ParseMathExpression(expr), x, y)
    case Returned(Finite(v)) => v
    case _ => 0.0
  }

  /** `(u, v) => evaluateFunction(expr, u, v)`: the formula as a function of the point. */
  function Evaluator(host: Host, expr: string): (real, real) -> real {
    (u, v) => EvaluateFunction(host, expr, u, v)
  }

  /** The formula as the user typed it, evaluated at every point. */
  ghost predicate EvaluatesTo(host: Host, expr: string, f: (real, real) -> real) {
    forall u, v :: EvaluateFunction(host, expr, u, v) == f(u, v)
  }

  /** Text the host cannot compile or run throws at every point. */
  ghost predicate AlwaysThrows(host: Host, expr: string) {
    forall u, v :: host(ParseMathExpression(expr), u, v) == Threw
  }

  /** An expression whose compiled code always throws evaluates to 0 everywhere. */
  lemma UnparseableIsZero(host: Host, expr: string)
    requires AlwaysThrows(host, expr)
    ensures EvaluatesTo(host, expr, (u, v) => 0.0)
  {
    forall u, v ensures EvaluateFunction(host, expr, u, v) == 0.0 {
      assert host(ParseMathExpression(expr), u, v) == Threw;
    }
  }

  /** Infinite and NaN results are replaced by 0, never passed on. */
  lemma NonFiniteIsZero(host: Host, expr: string, x: real, y: real)
    requires host(ParseMathExpression(expr), x, y).Returned?
    requires !host(ParseMathExpression(expr), x, y).n.IsFinite()
    ensures EvaluateFunction(host, expr, x, y) == 0.0
  {
  }

  /** Whitespace in the formula never changes its value, since it is stripped first. */
  lemma SpacesIrrelevant(host: Host, expr: string, x: real, y: real)
    ensures EvaluateFunction(host, StripSpaces(expr), x, y) == EvaluateFunction(host, expr, x, y)
  {
    assert StripSpaces(StripSpaces(expr)) == StripSpaces(expr);
  }
}
