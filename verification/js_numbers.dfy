/**
 * The JavaScript number values the calculators compute with. Doubles are
 * modelled as exact reals plus the three non-finite values; rounding and the
 * sign of zero are not modelled.
 */
module JsNumbers {
  import opened Wrappers

  /** A number value: finite, one of the two infinities, or NaN. */
  datatype Num = Finite(v: real) | PosInf | NegInf | NaN

  /** What `parseFloat` returns, with `None` standing for NaN. */
  function FromParsed(x: Option<real>): Num
  {
    if x.Some? then Finite(x.value) else NaN
  }

  /** `!x` on a parsed number: NaN and zero are the falsy numbers. */
  predicate Falsy(x: Option<real>)
  {
    x.None? || x.value == 0.0
  }

  predicate IsNegative(x: Num)
  {
    x.NegInf? || (x.Finite? && x.v < 0.0)
  }

  function Neg(x: Num): Num
  {
    match x
    case Finite(v) => Finite(-v)
    case PosInf => NegInf
    case NegInf => PosInf
    case NaN => NaN
  }

  /** `x + y`: NaN absorbs, opposite infinities give NaN. */
  function Add(x: Num, y: Num): Num
  {
    match (x, y)
    case (NaN, _) => NaN
    case (_, NaN) => NaN
    case (PosInf, NegInf) => NaN
    case (NegInf, PosInf) => NaN
    case (PosInf, _) => PosInf
    case (_, PosInf) => PosInf
    case (NegInf, _) => NegInf
    case (_, NegInf) => NegInf
    case (Finite(a), Finite(b)) => Finite(a + b)
  }

  /** `x - y`. */
  function Sub(x: Num, y: Num): Num
  {
    Add(x, Neg(y))
  }

  /** `x / y`: a non-zero finite over zero gives an infinity signed like it, 0/0 and infinity/infinity give NaN. */
  function Div(x: Num, y: Num): Num
  {
    match (x, y)
    case (NaN, _) => NaN
    case (_, NaN) => NaN
    case (Finite(a), Finite(b)) =>
      if b != 0.0 then Finite(a / b)
      else if a > 0.0 then PosInf
      else if a < 0.0 then NegInf
      else NaN
    case (Finite(_), _) => Finite(0.0)
    case (_, Finite(b)) => if b >= 0.0 then x else Neg(x)
    case (_, _) => NaN
  }

  /** `Math.max(0, x)`: never negative, NaN stays NaN, and only negative values are replaced by zero. */
  function MaxZero(x: Num): (r: Num)
    ensures !IsNegative(r)
    ensures r.NaN? <==> x.NaN?
    ensures !IsNegative(x) ==> r == x
    ensures IsNegative(x) ==> r == Finite(0.0)
  {
    match x
    case NaN => NaN
    case PosInf => PosInf
    case NegInf => Finite(0.0)
    case Finite(v) => if v > 0.0 then x else Finite(0.0)
  }
}
