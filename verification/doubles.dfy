/**
  An abstract IEEE-754 double: a finite value, an infinity, or NaN.
  Finite arithmetic is exact over the reals (no rounding, no overflow) and there
  is a single zero; NaN and the infinities follow the IEEE-754 rules.
 */
module Doubles {

  datatype Double = Finite(v: real) | NaN | PosInf | NegInf

  /** `double.IsRealNumber`: every value except NaN, so both infinities qualify. */
  predicate IsRealNumber(d: Double) {
    !d.NaN?
  }

  /** The infinity with the sign of `s` (positive for s >= 0). */
  function Infinity(s: int): (r: Double)
    ensures r.PosInf? <==> s >= 0
    ensures r.NegInf? <==> s < 0
  {
    if s >= 0 then PosInf else NegInf
  }

  /** Sign of a number that is not NaN: -1, 0 or 1. */
  function Sign(d: Double): int
    requires IsRealNumber(d)
  {
    match d
    case Finite(x) => if x > 0.0 then 1 else if x < 0.0 then -1 else 0
    case PosInf => 1
    case NegInf => -1
  }

  /** Unary minus. */
  function Neg(a: Double): Double {
    match a
    case Finite(x) => Finite(-x)
    case NaN => NaN
    case PosInf => NegInf
    case NegInf => PosInf
  }

  function Add(a: Double, b: Double): Double {
    match (a, b)
    case (NaN, _) => NaN
    case (_, NaN) => NaN
    case (Finite(x), Finite(y)) => Finite(x + y)
    case (Finite(_), _) => b
    case (_, Finite(_)) => a
    case (_, _) => if a == b then a else NaN
  }

  function Sub(a: Double, b: Double): Double {
    Add(a, Neg(b))
  }

  function Mul(a: Double, b: Double): Double {
    match (a, b)
    case (NaN, _) => NaN
    case (_, NaN) => NaN
    case (Finite(x), Finite(y)) => Finite(x * y)
    case (_, _) => if Sign(a) == 0 || Sign(b) == 0 then NaN else Infinity(Sign(a) * Sign(b))
  }

  /** Division; a finite non-zero value over zero is the infinity of its sign. */
  function Div(a: Double, b: Double): Double {
    match (a, b)
    case (NaN, _) => NaN
    case (_, NaN) => NaN
    case (Finite(x), Finite(y)) =>
      if y != 0.0 then Finite(x / y)
      else if x == 0.0 then NaN
      else Infinity(Sign(a))
    case (Finite(_), _) => Finite(0.0)
    case (_, Finite(y)) => Infinity(if y < 0.0 then -Sign(a) else Sign(a))
    case (_, _) => NaN
  }

  /** Truncation toward zero, as in C#'s `%` and `double.Truncate`. */
  function TruncReal(x: real): (r: int)
    ensures x >= 0.0 ==> r as real <= x < r as real + 1.0
    ensures x < 0.0 ==> r as real - 1.0 < x <= r as real
  {
    if x >= 0.0 then x.Floor else -((-x).Floor)
  }

  /** C#'s `%` on doubles: the remainder of the quotient truncated toward zero. */
  function Rem(a: Double, b: Double): Double {
    match (a, b)
    case (NaN, _) => NaN
    case (_, NaN) => NaN
    case (Finite(x), Finite(y)) => if y == 0.0 then NaN else Finite(x - y * TruncReal(x / y) as real)
    case (Finite(_), _) => a
    case (_, _) => NaN
  }

  /** `a == b`: false whenever either side is NaN. */
  predicate Eq(a: Double, b: Double) {
    !a.NaN? && a == b
  }

  /** `a != b`: the negation of `==`, so true whenever either side is NaN. */
  predicate Ne(a: Double, b: Double) {
    !Eq(a, b)
  }

  /** `a < b`: the order NegInf < finite values < PosInf, false on NaN. */
  predicate Lt(a: Double, b: Double) {
    match (a, b)
    case (Finite(x), Finite(y)) => x < y
    case (NegInf, Finite(_)) => true
    case (NegInf, PosInf) => true
    case (Finite(_), PosInf) => true
    case (_, _) => false
  }

  predicate Le(a: Double, b: Double) {
    Lt(a, b) || Eq(a, b)
  }

  predicate Gt(a: Double, b: Double) {
    Lt(b, a)
  }

  predicate Ge(a: Double, b: Double) {
    Le(b, a)
  }

  /** Every comparison involving NaN is false (and `!=` is true). */
  lemma NaNComparesFalse(a: Double, b: Double)
    requires a.NaN? || b.NaN?
    ensures !Eq(a, b) && !Lt(a, b) && !Le(a, b) && !Gt(a, b) && !Ge(a, b) && Ne(a, b)
  {
  }

  /** On values that are not NaN the comparisons form a total order. */
  lemma Trichotomy(a: Double, b: Double)
    requires IsRealNumber(a) && IsRealNumber(b)
    ensures Lt(a, b) || Eq(a, b) || Gt(a, b)
    ensures !(Lt(a, b) && Gt(a, b)) && !(Lt(a, b) && Eq(a, b))
  {
  }
}

/**
  The numerics of `System.Double` that the model leaves uninterpreted: the
  transcendental functions and `double.Pow`. Every evaluation takes one such
  library as a parameter, so each property proved holds for all of them.
 */
module MathLib {
  import opened Doubles

  datatype Transcendental = Sqrt | Log10 | Log2 | Ln | Exp | Exp10 | Exp2 | Sin | Cos | Tan | Asin | Acos | Atan

  datatype MathLib = MathLib(
    unary: (Transcendental, Double) -> Double,
    atan2: (Double, Double) -> Double,
    pow: (Double, Double) -> Double)
}
