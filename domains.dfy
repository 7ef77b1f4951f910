// The two value domains of the library and a model of IEEE doubles that is
// just detailed enough for the membership checks the parser makes.
module Domains {
  /** ValueDomain: the output and argument types a signature can name. */
  datatype ValueDomain = Double | Boolean

  /** A double value: a finite real, or one of the non-finite values. */
  datatype Num = Finite(r: real) | NaN | Infinity(negative: bool)

  predicate IsFinite(v: Num) { v.Finite? }

  /** CheckIfValueBelongsToType: a Double must be finite, a Boolean must be 0 or 1. */
  predicate CheckIfValueBelongsToType(v: Num, t: ValueDomain)
  {
    match t
    case Double => IsFinite(v)
    case Boolean => v == Finite(1.0) || v == Finite(0.0)
  }

  lemma BooleanValuesAreDoubles(v: Num)
    ensures CheckIfValueBelongsToType(v, Boolean) ==> CheckIfValueBelongsToType(v, Double)
    ensures !CheckIfValueBelongsToType(NaN, Double) && !CheckIfValueBelongsToType(Infinity(false), Double)
  {
  }
}
