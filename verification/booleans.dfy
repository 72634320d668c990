/** The encoding of booleans as doubles shared by every boolean-valued operator: true is 1, false is NaN. */
module Booleans {
  import opened Doubles

  const True: Double := Finite(1.0)
  const False: Double := NaN

  function FromBool(b: bool): (r: Double)
    ensures b ==> r == Finite(1.0)
    ensures !b ==> r.NaN?
  {
    if b then True else False
  }

  /** Truthiness: any value that is not NaN and not zero; both infinities are truthy. */
  function ToBool(n: Double): (r: bool)
    ensures r <==> !n.NaN? && n != Finite(0.0)
  {
    IsRealNumber(n) && Ne(n, Finite(0.0))
  }

  /** Reading back an encoded boolean recovers it. */
  lemma ToBoolFromBool(b: bool)
    ensures ToBool(FromBool(b)) == b
  {
  }

  /** The values `FromBool` produces are exactly 1 and NaN. */
  lemma FromBoolRange(b: bool)
    ensures FromBool(b) == Finite(1.0) || FromBool(b).NaN?
    ensures FromBool(b) == Finite(1.0) <==> b
  {
  }

  /** Infinities are truthy and zero is falsy, as `double.IsRealNumber` rejects only NaN. */
  lemma TruthOfSpecialValues()
    ensures ToBool(PosInf) && ToBool(NegInf)
    ensures !ToBool(Finite(0.0)) && !ToBool(NaN)
  {
  }
}
