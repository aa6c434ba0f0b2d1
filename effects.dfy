/**
 * The closed set of effects through which an evaluating script signals a
 * condition to its host: every failure, the regular ends of evaluation and
 * the request to yield.
 */
module Effects {

  datatype Effect =
    | AssertionFailed
    | DivisionByZero
    | IntegerOverflow
    | InvalidAddress
    | InvalidOperandStackIndex
    | InvalidReference
    | OperandStackUnderflow
    | OutOfOperators
    | Return
    | UnknownIdentifier
    | Yield

  /** Every effect, once, in declaration order. */
  const AllEffects: seq<Effect> := [
    AssertionFailed, DivisionByZero, IntegerOverflow, InvalidAddress,
    InvalidOperandStackIndex, InvalidReference, OperandStackUnderflow,
    OutOfOperators, Return, UnknownIdentifier, Yield
  ]

  /** There are exactly eleven effects. */
  lemma AllEffectsComplete(e: Effect)
    ensures e in AllEffects
    ensures |AllEffects| == 11
    ensures forall i, j :: 0 <= i < j < |AllEffects| ==> AllEffects[i] != AllEffects[j]
  {
  }

  /** The regular ends of evaluation: running out of operators, or `return` at the top level. */
  predicate IsRegularEnd(e: Effect)
  {
    e == OutOfOperators || e == Return
  }

  /** The host may clear this effect and let the script continue. */
  predicate IsYield(e: Effect)
  {
    e == Yield
  }

  /** An error condition the script would not expect to recover from. */
  predicate IsError(e: Effect)
  {
    !IsRegularEnd(e) && !IsYield(e)
  }

  /** Every effect is exactly one of an error, a regular end, or a yield. */
  lemma EffectKinds(e: Effect)
    ensures IsError(e) || IsRegularEnd(e) || IsYield(e)
    ensures !(IsRegularEnd(e) && IsYield(e))
    ensures IsError(e) <==> e !in {OutOfOperators, Return, Yield}
  {
  }
}
