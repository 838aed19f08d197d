/** Python floats as extended reals: finite values, the two infinities and NaN.
    Rounding is not modelled; comparison, addition and halving follow IEEE 754. */
module Floats {

  datatype Float = Finite(v: real) | PosInf | NegInf | NaN

  /** `a < b` in Python: false whenever NaN is involved. */
  predicate Lt(a: Float, b: Float) {
    match (a, b)
    case (NaN, _) => false
    case (_, NaN) => false
    case (NegInf, NegInf) => false
    case (NegInf, _) => true
    case (PosInf, _) => false
    case (Finite(_), NegInf) => false
    case (Finite(_), PosInf) => true
    case (Finite(u), Finite(w)) => u < w
  }

  /** `a > b` in Python. */
  predicate Gt(a: Float, b: Float) {
    Lt(b, a)
  }

  /** `a <= b` in Python: NaN is not even equal to itself. */
  predicate Le(a: Float, b: Float) {
    Lt(a, b) || (a == b && !a.NaN?)
  }

  /** `a + b` in Python. */
  function Add(a: Float, b: Float): (r: Float)
    ensures r.NaN? <==> (a.NaN? || b.NaN? || (a.PosInf? && b.NegInf?) || (a.NegInf? && b.PosInf?))
    ensures a.Finite? && b.Finite? ==> r == Finite(a.v + b.v)
  {
    match (a, b)
    case (NaN, _) => NaN
    case (_, NaN) => NaN
    case (PosInf, NegInf) => NaN
    case (NegInf, PosInf) => NaN
    case (PosInf, _) => PosInf
    case (_, PosInf) => PosInf
    case (NegInf, _) => NegInf
    case (_, NegInf) => NegInf
    case (Finite(u), Finite(w)) => Finite(u + w)
  }

  /** `a / 2` in Python. */
  function Half(a: Float): (r: Float)
    ensures a.Finite? ==> r == Finite(a.v / 2.0)
    ensures !a.Finite? ==> r == a
  {
    if a.Finite? then Finite(a.v / 2.0) else a
  }

  /** `(a + b) / 2` in Python. */
  function Midpoint(a: Float, b: Float): (r: Float)
  {
    Half(Add(a, b))
  }

  /** The midpoint of two ordered finite values lies between them. */
  lemma MidpointBetween(a: Float, b: Float)
    requires a.Finite? && b.Finite? && Le(a, b)
    ensures Le(a, Midpoint(a, b)) && Le(Midpoint(a, b), b)
  {
  }

  /** The midpoint of the two infinities is NaN. */
  lemma MidpointOfInfinitiesIsNaN()
    ensures Midpoint(NegInf, PosInf) == NaN
  {
  }

  /** Without NaN, `<` is a strict total order. */
  lemma LtStrictTotal(a: Float, b: Float, c: Float)
    requires !a.NaN? && !b.NaN? && !c.NaN?
    ensures !Lt(a, a)
    ensures Lt(a, b) && Lt(b, c) ==> Lt(a, c)
    ensures a == b || Lt(a, b) || Lt(b, a)
  {
  }
}
