/** Floating-point values as pandas arithmetic produces them.  A column of
    floats holds a finite number, an infinity (from dividing a non-zero
    value by zero) or NaN (from 0/0, from a missing value, or from a
    statistic of too few rows).  Every comparison with NaN is false, which is
    what decides several branches of the analytics. */
module Floats {
  import opened Wrappers

  datatype Ext = Finite(value: real) | PosInf | NegInf | NaN

  /** Element-wise division of two column values. */
  function Div(a: real, b: real): (r: Ext)
    ensures r.Finite? <==> b != 0.0
    ensures r.Finite? ==> r.value * b == a
    ensures r == NaN <==> a == 0.0 && b == 0.0
    ensures r == PosInf <==> a > 0.0 && b == 0.0
  {
    if b != 0.0 then Finite(a / b)
    else if a > 0.0 then PosInf
    else if a < 0.0 then NegInf
    else NaN
  }

  /** Division where a missing numerator (None, read as NaN) gives NaN. */
  function DivOpt(a: Option<real>, b: real): (r: Ext)
  {
    match a
    case None => NaN
    case Some(x) => Div(x, b)
  }

  /** Multiplication by a positive constant, such as `* 100`. */
  function Scale(x: Ext, c: real): (r: Ext)
    requires c > 0.0
    ensures r.Finite? <==> x.Finite?
    ensures r.Finite? ==> r.value == x.value * c
    ensures !r.Finite? ==> r == x
  {
    match x
    case Finite(v) => Finite(v * c)
    case _ => x
  }

  function Abs(x: Ext): (r: Ext)
    ensures r.Finite? <==> x.Finite?
    ensures r.Finite? ==> r.value >= 0.0 && (r.value == x.value || r.value == -x.value)
    ensures r == NaN <==> x == NaN
  {
    match x
    case Finite(v) => Finite(if v < 0.0 then -v else v)
    case NegInf => PosInf
    case _ => x
  }

  /** `x < c` for a finite bound `c`. */
  predicate Less(x: Ext, c: real) {
    match x
    case Finite(v) => v < c
    case NegInf => true
    case _ => false
  }

  /** `x <= c` for a finite bound `c`. */
  predicate AtMost(x: Ext, c: real) {
    match x
    case Finite(v) => v <= c
    case NegInf => true
    case _ => false
  }

  /** `x > c` for a finite bound `c`. */
  predicate Greater(x: Ext, c: real) {
    match x
    case Finite(v) => v > c
    case PosInf => true
    case _ => false
  }

  /** `x >= c` for a finite bound `c`. */
  predicate AtLeast(x: Ext, c: real) {
    match x
    case Finite(v) => v >= c
    case PosInf => true
    case _ => false
  }
}
