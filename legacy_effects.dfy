/**
 * The effects of the single-file interpreter: nine kinds, against the
 * evaluator crate's eleven. It has no `assert` and no `return`, so neither
 * `AssertionFailed` nor `Return` exists, and three effects carry older names.
 */
module LegacyEffects {

  import Effects

  datatype Effect =
    | DivisionByZero
    | IntegerOverflow
    | InvalidAddress
    | InvalidReference
    | InvalidStackIndex
    | OutOfTokens
    | StackUnderflow
    | UnknownIdentifier
    | Yield

  /** The effect of the evaluator crate that signals the same condition. */
  function Renamed(e: Effect): Effects.Effect
  {
    match e
    case DivisionByZero => Effects.DivisionByZero
    case IntegerOverflow => Effects.IntegerOverflow
    case InvalidAddress => Effects.InvalidAddress
    case InvalidReference => Effects.InvalidReference
    case InvalidStackIndex => Effects.InvalidOperandStackIndex
    case OutOfTokens => Effects.OutOfOperators
    case StackUnderflow => Effects.OperandStackUnderflow
    case UnknownIdentifier => Effects.UnknownIdentifier
    case Yield => Effects.Yield
  }

  /**
   * Every legacy effect has its own counterpart, and the two the legacy
   * interpreter lacks are exactly `AssertionFailed` and `Return`.
   */
  lemma RenamedInjective(e: Effect, f: Effect)
    ensures Renamed(e) == Renamed(f) ==> e == f
    ensures Renamed(e) != Effects.AssertionFailed && Renamed(e) != Effects.Return
  {
  }

  /** Every effect of the evaluator crate other than `AssertionFailed` and `Return` has a legacy counterpart. */
  lemma RenamedOnto(g: Effects.Effect)
    requires g != Effects.AssertionFailed && g != Effects.Return
    ensures exists e :: Renamed(e) == g
  {
    match g
    case DivisionByZero => assert Renamed(DivisionByZero) == g;
    case IntegerOverflow => assert Renamed(IntegerOverflow) == g;
    case InvalidAddress => assert Renamed(InvalidAddress) == g;
    case InvalidOperandStackIndex => assert Renamed(InvalidStackIndex) == g;
    case InvalidReference => assert Renamed(InvalidReference) == g;
    case OperandStackUnderflow => assert Renamed(StackUnderflow) == g;
    case OutOfOperators => assert Renamed(OutOfTokens) == g;
    case UnknownIdentifier => assert Renamed(UnknownIdentifier) == g;
    case Yield => assert Renamed(Yield) == g;
  }
}
