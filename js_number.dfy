/**
 * JavaScript numbers as the decision core uses them. Finite doubles are taken
 * as exact reals; what is kept from IEEE 754 are the three special values that
 * a division by zero produces, because the percentage change of a cycle is a
 * quotient whose divisor can be zero. Rounding, overflow and the sign of zero
 * are not modelled.
 */
module JsNumber {

  datatype Num = Finite(value: real) | PosInf | NegInf | NaN

  /** `a / b` for finite operands. */
  function Divide(a: real, b: real): (r: Num)
    ensures b != 0.0 ==> r.Finite? && r.value * b == a
    ensures b == 0.0 ==> (r == PosInf <==> a > 0.0) && (r == NegInf <==> a < 0.0) && (r == NaN <==> a == 0.0)
  {
    if b != 0.0 then Finite(a / b)
    else if a > 0.0 then PosInf
    else if a < 0.0 then NegInf
    else NaN
  }

  /** `x - c` for a finite `c`: infinities and NaN absorb it. */
  function SubReal(x: Num, c: real): (r: Num)
    ensures r.Finite? <==> x.Finite?
    ensures x.Finite? ==> r.value + c == x.value
    ensures !x.Finite? ==> r == x
  {
    match x
    case Finite(v) => Finite(v - c)
    case _ => x
  }

  /** `x * c` for a finite `c`: an infinity times zero is NaN, times a negative flips sign. */
  function MulReal(x: Num, c: real): (r: Num)
    ensures x.Finite? ==> r == Finite(x.value * c)
    ensures c > 0.0 ==> r.Finite? == x.Finite? && (r == PosInf <==> x == PosInf) && (r == NaN <==> x == NaN)
  {
    match x
    case Finite(_) => Finite(x.value * c)
    case PosInf => if c > 0.0 then PosInf else if c < 0.0 then NegInf else NaN
    case NegInf => if c > 0.0 then NegInf else if c < 0.0 then PosInf else NaN
    case NaN => NaN
  }

  /** `a + b`: NaN absorbs, opposite infinities give NaN, an infinity absorbs a finite value. */
  function Add(a: Num, b: Num): (r: Num)
    ensures a.Finite? && b.Finite? ==> r == Finite(a.value + b.value)
    ensures r == NaN <==> (a == NaN || b == NaN || (a == PosInf && b == NegInf) || (a == NegInf && b == PosInf))
    ensures r == PosInf <==> ((a == PosInf && b != NegInf && b != NaN) || (b == PosInf && a != NegInf && a != NaN))
  {
    match (a, b)
    case (NaN, _) => NaN
    case (_, NaN) => NaN
    case (PosInf, NegInf) => NaN
    case (NegInf, PosInf) => NaN
    case (PosInf, _) => PosInf
    case (_, PosInf) => PosInf
    case (NegInf, _) => NegInf
    case (_, NegInf) => NegInf
    case (Finite(x), Finite(y)) => Finite(x + y)
  }

  /** JavaScript's `a > b`: false whenever NaN is involved. */
  predicate Greater(a: Num, b: Num)
  {
    match (a, b)
    case (NaN, _) => false
    case (_, NaN) => false
    case (PosInf, PosInf) => false
    case (PosInf, _) => true
    case (NegInf, _) => false
    case (Finite(_), NegInf) => true
    case (Finite(_), PosInf) => false
    case (Finite(x), Finite(y)) => x > y
  }
}
