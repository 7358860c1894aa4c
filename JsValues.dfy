/** JavaScript numbers idealised to reals, and what a call into host code can do.
    Doubles become `real`: the model has no rounding, no overflow and no signed zero,
    but keeps the three non-finite values because the source branches on them. */
module JsValues {

  datatype Option<+T> = None | Some(value: T)

  /** A JavaScript number: a finite value or one of the three non-finite ones. */
  datatype Num = Finite(v: real) | PosInf | NegInf | NaN {
    /** `isFinite(n)` (and `!isNaN(n)`, which it implies). */
    predicate IsFinite() {
      Finite?
    }

    /** `n > 0` as JavaScript evaluates it: false for NaN and for negative infinity. */
    predicate IsPositive() {
      PosInf? || (Finite? && v > 0.0)
    }
  }

  /** What calling host code produced: an exception, or a number. */
  datatype Completion = Threw | Returned(n: Num)

  /** `Math.min(a, b)`: NaN wins, then negative infinity, and positive infinity is neutral. */
  function Min(a: Num, b: Num): (r: Num)
    ensures a.IsFinite() && b.IsFinite() ==> r.IsFinite() && r.v <= a.v && r.v <= b.v && (r == a || r == b)
    ensures a == PosInf ==> r == b
    ensures b == PosInf ==> r == a
  {
    if a.NaN? || b.NaN? then NaN
    else if a.NegInf? || b.NegInf? then NegInf
    else if a.PosInf? then b
    else if b.PosInf? then a
    else Finite(if a.v <= b.v then a.v else b.v)
  }

  /** `Math.max(a, b)`: NaN wins, then positive infinity, and negative infinity is neutral. */
  function Max(a: Num, b: Num): (r: Num)
    ensures a.IsFinite() && b.IsFinite() ==> r.IsFinite() && a.v <= r.v && b.v <= r.v && (r == a || r == b)
    ensures a == NegInf ==> r == b
    ensures b == NegInf ==> r == a
  {
    if a.NaN? || b.NaN? then NaN
    else if a.PosInf? || b.PosInf? then PosInf
    else if a.NegInf? then b
    else if b.NegInf? then a
    else Finite(if a.v >= b.v then a.v else b.v)
  }

  /** Unary minus. */
  function Neg(a: Num): (r: Num)
    ensures a.IsFinite() ==> r == Finite(-a.v)
    ensures a.PosInf? <==> r.NegInf?
    ensures a.NegInf? <==> r.PosInf?
  {
    match a
    case Finite(v) => Finite(-v)
    case PosInf => NegInf
    case NegInf => PosInf
    case NaN => NaN
  }

  /** `a + b`: opposite infinities give NaN, an infinity absorbs a finite value. */
  function Plus(a: Num, b: Num): (r: Num)
    ensures a.IsFinite() && b.IsFinite() ==> r == Finite(a.v + b.v)
    ensures r.NaN? <==> a.NaN? || b.NaN? || (a.PosInf? && b.NegInf?) || (a.NegInf? && b.PosInf?)
    ensures b.IsFinite() ==> (r.PosInf? <==> a.PosInf?) && (r.NegInf? <==> a.NegInf?)
  {
    if a.NaN? || b.NaN? then NaN
    else if a.PosInf? then (if b.NegInf? then NaN else PosInf)
    else if a.NegInf? then (if b.PosInf? then NaN else NegInf)
    else if b.Finite? then Finite(a.v + b.v)
    else b
  }

  /** `a - b`. */
  function Sub(a: Num, b: Num): (r: Num)
    ensures a.IsFinite() && b.IsFinite() ==> r == Finite(a.v - b.v)
    ensures a.NegInf? && b.PosInf? ==> r.NegInf?
  {
    Plus(a, Neg(b))
  }

  /** `a > b`: false whenever NaN is involved. */
  predicate Greater(a: Num, b: Num)
  {
    match (a, b)
    case (Finite(u), Finite(v)) => u > v
    case (PosInf, Finite(_)) => true
    case (PosInf, NegInf) => true
    case (Finite(_), NegInf) => true
    case _ => false
  }

  /** `Math.min` on finite numbers. */
  function MinReal(a: real, b: real): (r: real)
    ensures r <= a && r <= b && (r == a || r == b)
  {
    if a <= b then a else b
  }

  /** `Math.max` on finite numbers. */
  function MaxReal(a: real, b: real): (r: real)
    ensures a <= r && b <= r && (r == a || r == b)
  {
    if a >= b then a else b
  }

  /** `Math.abs` on a real. */
  function Abs(x: real): (r: real)
    ensures r >= 0.0 && (r == x || r == -x)
  {
    if x < 0.0 then -x else x
  }

  /** `x * x`, written once so that squared distances read as such. */
  function Sq(x: real): (r: real)
    ensures r >= 0.0
  {
    x * x
  }

  /** A host square root: what `Math.sqrt` returns on a non-negative argument. */
  ghost predicate IsSqrt(sqrt: real -> real) {
    forall v :: 0.0 <= v ==> 0.0 <= sqrt(v) && sqrt(v) * sqrt(v) == v
  }

  /** A square root is below 0.5 exactly when its argument is below 0.25. */
  lemma SqrtBelowHalf(sqrt: real -> real, v: real)
    requires IsSqrt(sqrt) && 0.0 <= v
    ensures sqrt(v) < 0.5 <==> v < 0.25
  {
    var s := sqrt(v);
    assert 0.0 <= s && s * s == v;
    if s < 0.5 {
      assert s * s <= 0.5 * s;
    } else {
      assert 0.5 * s <= s * s;
    }
  }
}
