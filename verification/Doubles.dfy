/**
 Doubles without rounding: a real number, an infinity, or not a number.  Comparisons with NaN are
 false, as in IEEE 754.
 */
module Doubles {

  datatype Double = Finite(value: real) | PosInf | NegInf | NaN
  {
    predicate IsFinite() {
      Finite?
    }
  }

  function Zero(): Double {
    Finite(0.0)
  }

  predicate Less(a: Double, b: Double) {
    match (a, b)
    case (Finite(x), Finite(y)) => x < y
    case (NegInf, Finite(_)) => true
    case (NegInf, PosInf) => true
    case (Finite(_), PosInf) => true
    case _ => false
  }

  predicate AtMost(a: Double, b: Double) {
    Less(a, b) || (a == b && !a.NaN?)
  }

  function Neg(a: Double): Double {
    match a
    case Finite(x) => Finite(-x)
    case PosInf => NegInf
    case NegInf => PosInf
    case NaN => NaN
  }

  function Add(a: Double, b: Double): Double {
    match (a, b)
    case (Finite(x), Finite(y)) => Finite(x + y)
    case (NaN, _) => NaN
    case (_, NaN) => NaN
    case (PosInf, NegInf) => NaN
    case (NegInf, PosInf) => NaN
    case (PosInf, _) => PosInf
    case (NegInf, _) => NegInf
    case (Finite(_), inf) => inf
  }

  function Sub(a: Double, b: Double): Double {
    Add(a, Neg(b))
  }

  function Infinity(positive: bool): Double {
    if positive then PosInf else NegInf
  }

  predicate Positive(a: Double) {
    a.PosInf? || (a.Finite? && a.value > 0.0)
  }

  function Mul(a: Double, b: Double): Double {
    if a.NaN? || b.NaN? then NaN
    else if a.Finite? && b.Finite? then Finite(a.value * b.value)
    else if a == Zero() || b == Zero() then NaN
    else Infinity(Positive(a) == Positive(b))
  }

  /** The quotient of two finite doubles. */
  function Quotient(x: real, y: real): Double {
    if y != 0.0 then Finite(x / y)
    else if x == 0.0 then NaN
    else Infinity(x > 0.0)
  }

  function Abs(a: Double): Double {
    match a
    case Finite(x) => Finite(if x < 0.0 then -x else x)
    case NaN => NaN
    case _ => PosInf
  }

  function AbsReal(x: real): real {
    if x < 0.0 then -x else x
  }

  /** std::min: the first argument unless the second is smaller. */
  function Min(a: Double, b: Double): Double {
    if Less(b, a) then b else a
  }

  /** std::max: the first argument unless it is smaller. */
  function Max(a: Double, b: Double): Double {
    if Less(a, b) then b else a
  }

  function MinReal(a: real, b: real): real {
    if b < a then b else a
  }

  function MaxReal(a: real, b: real): real {
    if a < b then b else a
  }

  function Ceil(x: real): int {
    if x == x.Floor as real then x.Floor else x.Floor + 1
  }

  /** What the real helpers are: a size without sign, the smaller and the larger of two. */
  lemma RealHelpers(a: real, b: real)
    ensures AbsReal(a) >= 0.0 && (AbsReal(a) == a || AbsReal(a) == -a)
    ensures MinReal(a, b) <= a && MinReal(a, b) <= b && (MinReal(a, b) == a || MinReal(a, b) == b)
    ensures MaxReal(a, b) >= a && MaxReal(a, b) >= b && (MaxReal(a, b) == a || MaxReal(a, b) == b)
  {
  }

  lemma CeilAtMost(x: real, k: int)
    ensures k >= Ceil(x) <==> k as real >= x
  {
    var f := x.Floor;
    assert f as real <= x < f as real + 1.0;
  }

  lemma QuotientAtMost(d: real, limit: real, k: real)
    requires limit > 0.0
    ensures d / limit <= k <==> d <= k * limit
  {
    var q := d / limit;
    assert q * limit == d;
    if q <= k {
      ScaleUp(q, k, limit);
    } else {
      ScaleStrictlyUp(k, q, limit);
    }
  }

  lemma ScaleUp(a: real, b: real, t: real)
    requires a <= b && t > 0.0
    ensures a * t <= b * t
  {
  }

  lemma ScaleStrictlyUp(a: real, b: real, t: real)
    requires a < b && t > 0.0
    ensures a * t < b * t
  {
  }
}
