/**
  The JavaScript `number` values that the countdown reads from its callers,
  and the few primitive operations on them that the core relies on:
  `isNaN`, the relational operators against an integer constant,
  truthiness (`x ? a : b`, `if (x)`) and `Math.trunc`.
  A finite number is modelled by its exact real value; IEEE-754 rounding
  is not modelled.
 */
module JsNumber {
  import opened Optional

  datatype Number = NaN | PositiveInfinity | NegativeInfinity | Finite(value: real)

  /** `x < k`: false for NaN, as every comparison with NaN is. */
  function LessThan(x: Number, k: int): (b: bool)
    ensures b <==> x.NegativeInfinity? || (x.Finite? && x.value < k as real)
  {
    match x
    case NaN => false
    case PositiveInfinity => false
    case NegativeInfinity => true
    case Finite(v) => v < k as real
  }

  /** `x > k`: false for NaN, as every comparison with NaN is. */
  function GreaterThan(x: Number, k: int): (b: bool)
    ensures b <==> x.PositiveInfinity? || (x.Finite? && x.value > k as real)
  {
    match x
    case NaN => false
    case PositiveInfinity => true
    case NegativeInfinity => false
    case Finite(v) => v > k as real
  }

  /**
    NaN is neither below nor above any bound; every other number is below,
    above or equal to it, exactly one of the three.
   */
  lemma ComparisonTrichotomy(x: Number, k: int)
    ensures x.NaN? ==> !LessThan(x, k) && !GreaterThan(x, k)
    ensures !x.NaN? ==> (LessThan(x, k) || GreaterThan(x, k) || x == Finite(k as real))
    ensures !(LessThan(x, k) && GreaterThan(x, k))
    ensures LessThan(x, k) ==> x != Finite(k as real)
    ensures GreaterThan(x, k) ==> x != Finite(k as real)
  {
  }

  /** Truthiness of an optional number argument: `undefined`, NaN and 0 (also -0) are falsy. */
  function Truthy(x: Option<Number>): (b: bool)
    ensures b ==> x.Some? && !x.value.NaN?
    ensures x.Some? && (x.value.PositiveInfinity? || x.value.NegativeInfinity?) ==> b
    ensures x.Some? && x.value.Finite? ==> (b <==> x.value.value != 0.0)
  {
    x.Some? && !x.value.NaN? && x.value != Finite(0.0)
  }

  /** `Math.trunc` on a finite number: the integer part, rounding toward zero. */
  function Trunc(v: real): (r: int)
    ensures v >= 0.0 ==> r as real <= v < r as real + 1.0
    ensures v < 0.0 ==> r as real - 1.0 < v <= r as real
  {
    if v >= 0.0 then v.Floor else -((-v).Floor)
  }
}
