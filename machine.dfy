/**
 * What one step of the evaluator does, as a function of its state: the
 * reference against which the imperative evaluator (module Evaluation) is
 * proved, and about which the properties of the language are stated
 * (module MachineProperties).
 *
 * Operators take their operands from the top of the operand stack, the
 * last operand on top; an operand popped before a failure stays popped.
 * The cursor moves to the next operator before the current one is
 * dispatched, so a failing operator leaves it just past itself.
 */
module Machine {

  import opened Int32
  import opened Values
  import opened Wrappers
  import opened Effects
  import opened Scripts
  import Builtins

  /** The fields of an evaluation. */
  datatype State = State(
    next_operator: U32,
    call_stack: seq<U32>,
    effect: Option<Effect>,
    operand_stack: seq<Value>,
    memory: seq<Value>)

  /** What evaluating one operator leaves behind, and the effect it triggered, if any. */
  datatype Outcome = Outcome(state: State, failure: Option<Effect>)

  function Continue(s: State): Outcome { Outcome(s, None) }

  function Trigger(s: State, e: Effect): Outcome { Outcome(s, Some(e)) }

  function Push(s: State, v: Value): State
  {
    s.(operand_stack := s.operand_stack + [v])
  }

  /** A value taken off the top of the stack, and the state without it. */
  datatype Popped = Popped(state: State, value: Value)

  /** `operand_stack.pop()`; `None` when the stack is empty. */
  function Pop(s: State): Option<Popped>
  {
    if s.operand_stack == [] then None
    else
      var n := |s.operand_stack|;
      Some(Popped(s.(operand_stack := s.operand_stack[..n - 1]), s.operand_stack[n - 1]))
  }

  // ---------------------------------------------------------------------
  // Operators on values
  // ---------------------------------------------------------------------

  /** The operators that pop two values and push one computed from them. */
  predicate IsBinary(op: Builtins.Builtin)
  {
    op.Multiply? || op.Add? || op.Subtract? ||
    op.Less? || op.LessOrEqual? || op.Equal? || op.Greater? || op.GreaterOrEqual? ||
    op.And? || op.Or? || op.Xor? ||
    op.RotateLeft? || op.RotateRight? || op.ShiftLeft? || op.ShiftRight?
  }

  /** The operators that pop one value and push one computed from it. */
  predicate IsUnary(op: Builtins.Builtin)
  {
    op.CountOnes? || op.LeadingZeros? || op.TrailingZeros?
  }

  /** What a binary operator pushes for first operand `a` and second (top) operand `b`. */
  function BinaryResult(op: Builtins.Builtin, a: Value, b: Value): Value
    requires IsBinary(op)
  {
    match op
    case Multiply => FromI32(WrappingMul(a.ToI32(), b.ToI32()))
    case Add => FromI32(WrappingAdd(a.ToI32(), b.ToI32()))
    case Subtract => FromI32(WrappingSub(a.ToI32(), b.ToI32()))
    case Less => FromBool(a.ToI32() < b.ToI32())
    case LessOrEqual => FromBool(a.ToI32() <= b.ToI32())
    case Equal => FromBool(a.ToI32() == b.ToI32())
    case Greater => FromBool(a.ToI32() > b.ToI32())
    case GreaterOrEqual => FromBool(a.ToI32() >= b.ToI32())
    case And => FromI32(BitwiseI32(Logic.And, a.ToI32(), b.ToI32()))
    case Or => FromI32(BitwiseI32(Logic.Or, a.ToI32(), b.ToI32()))
    case Xor => FromI32(BitwiseI32(Logic.Xor, a.ToI32(), b.ToI32()))
    case RotateLeft => FromI32(RotateLeftI32(a.ToI32(), b.ToU32()))
    case RotateRight => FromI32(RotateRightI32(a.ToI32(), b.ToU32()))
    case ShiftLeft => FromI32(Int32.ShiftLeft(a.ToI32(), b.ToI32()))
    case ShiftRight => FromI32(Int32.ShiftRight(a.ToI32(), b.ToI32()))
  }

  /** What a unary operator pushes for operand `a`. */
  function UnaryResult(op: Builtins.Builtin, a: Value): Value
    requires IsUnary(op)
  {
    match op
    case CountOnes => FromU32(CountOnesU32(Unsigned(a.ToI32())))
    case LeadingZeros => FromU32(Int32.LeadingZeros(Unsigned(a.ToI32())))
    case TrailingZeros => FromU32(TrailingZerosU32(Unsigned(a.ToI32())))
  }

  function Binary(s: State, op: Builtins.Builtin): Outcome
    requires IsBinary(op)
  {
    match Pop(s)
    case None => Trigger(s, OperandStackUnderflow)
    case Some(Popped(s1, b)) =>
      match Pop(s1)
      case None => Trigger(s1, OperandStackUnderflow)
      case Some(Popped(s2, a)) => Continue(Push(s2, BinaryResult(op, a, b)))
  }

  function Unary(s: State, op: Builtins.Builtin): Outcome
    requires IsUnary(op)
  {
    match Pop(s)
    case None => Trigger(s, OperandStackUnderflow)
    case Some(Popped(s1, a)) => Continue(Push(s1, UnaryResult(op, a)))
  }

  /** `/`: checked signed division, pushing the quotient and then the remainder. */
  function Divide(s: State): Outcome
  {
    match Pop(s)
    case None => Trigger(s, OperandStackUnderflow)
    case Some(Popped(s1, bv)) =>
      match Pop(s1)
      case None => Trigger(s1, OperandStackUnderflow)
      case Some(Popped(s2, av)) =>
        var a, b := av.ToI32(), bv.ToI32();
        if b == 0 then Trigger(s2, DivisionByZero)
        else if a == I32_MIN && b == -1 then Trigger(s2, IntegerOverflow)
        else Continue(Push(Push(s2, FromI32(DivI32(a, b))), FromI32(RemI32(a, b))))
  }

  // ---------------------------------------------------------------------
  // Stack shuffling
  // ---------------------------------------------------------------------

  /**
   * `convert_operand_stack_index`: the position, counted from the bottom,
   * of the value `index_from_top` places below the top of a stack of `len`
   * values.
   */
  function ConvertIndex(len: nat, index_from_top: U32): (r: Result<nat, Effect>)
    ensures r.Ok? <==> index_from_top < len
    ensures r.Ok? ==> r.value == len - 1 - index_from_top
    ensures r.Err? ==> r.error == InvalidOperandStackIndex
  {
    if len == 0 then Err(InvalidOperandStackIndex)
    else if len - 1 < index_from_top then Err(InvalidOperandStackIndex)
    else Ok(len - 1 - index_from_top)
  }

  /** `copy` and `drop`: pop an index from the top, then duplicate or remove that value. */
  function Shuffle(s: State, op: Builtins.Builtin): Outcome
    requires op.Copy? || op.Drop?
  {
    match Pop(s)
    case None => Trigger(s, OperandStackUnderflow)
    case Some(Popped(s1, index)) =>
      var values := s1.operand_stack;
      match ConvertIndex(|values|, index.ToU32())
      case Err(e) => Trigger(s1, e)
      case Ok(k) =>
        if op.Copy? then Continue(Push(s1, values[k]))
        else Continue(s1.(operand_stack := values[..k] + values[k + 1..]))
  }

  // ---------------------------------------------------------------------
  // Control flow
  // ---------------------------------------------------------------------

  function Jump(s: State): Outcome
  {
    match Pop(s)
    case None => Trigger(s, OperandStackUnderflow)
    case Some(Popped(s1, index)) => Continue(s1.(next_operator := index.ToU32()))
  }

  function JumpIf(s: State): Outcome
  {
    match Pop(s)
    case None => Trigger(s, OperandStackUnderflow)
    case Some(Popped(s1, index)) =>
      match Pop(s1)
      case None => Trigger(s1, OperandStackUnderflow)
      case Some(Popped(s2, condition)) =>
        if condition.ToBool() then Continue(s2.(next_operator := index.ToU32())) else Continue(s2)
  }

  /** `call`: the return address is pushed before the target is popped. */
  function Call(s: State): Outcome
  {
    var s0 := s.(call_stack := s.call_stack + [s.next_operator]);
    match Pop(s0)
    case None => Trigger(s0, OperandStackUnderflow)
    case Some(Popped(s1, index)) => Continue(s1.(next_operator := index.ToU32()))
  }

  /** `call_either`: pops the else target, the then target and the condition, in that order. */
  function CallEither(s: State): Outcome
  {
    var s0 := s.(call_stack := s.call_stack + [s.next_operator]);
    match Pop(s0)
    case None => Trigger(s0, OperandStackUnderflow)
    case Some(Popped(s1, else_)) =>
      match Pop(s1)
      case None => Trigger(s1, OperandStackUnderflow)
      case Some(Popped(s2, then_)) =>
        match Pop(s2)
        case None => Trigger(s2, OperandStackUnderflow)
        case Some(Popped(s3, condition)) =>
          Continue(s3.(next_operator := if condition.ToBool() then then_.ToU32() else else_.ToU32()))
  }

  function Return(s: State): Outcome
  {
    if s.call_stack == [] then Trigger(s, Effects.Return)
    else
      var n := |s.call_stack|;
      Continue(s.(next_operator := s.call_stack[n - 1], call_stack := s.call_stack[..n - 1]))
  }

  function Assert(s: State): Outcome
  {
    match Pop(s)
    case None => Trigger(s, OperandStackUnderflow)
    case Some(Popped(s1, condition)) =>
      if !condition.ToBool() then Trigger(s1, AssertionFailed) else Continue(s1)
  }

  // ---------------------------------------------------------------------
  // Memory
  // ---------------------------------------------------------------------

  function Read(s: State): Outcome
  {
    match Pop(s)
    case None => Trigger(s, OperandStackUnderflow)
    case Some(Popped(s1, address)) =>
      if address.ToU32() < |s1.memory| then Continue(Push(s1, s1.memory[address.ToU32()]))
      else Trigger(s1, InvalidAddress)
  }

  /** `write`: pops the value first and the address second. */
  function Write(s: State): Outcome
  {
    match Pop(s)
    case None => Trigger(s, OperandStackUnderflow)
    case Some(Popped(s1, value)) =>
      match Pop(s1)
      case None => Trigger(s1, OperandStackUnderflow)
      case Some(Popped(s2, address)) =>
        if address.ToU32() < |s2.memory| then Continue(s2.(memory := s2.memory[address.ToU32() := value]))
        else Trigger(s2, InvalidAddress)
  }

  // ---------------------------------------------------------------------
  // Dispatch
  // ---------------------------------------------------------------------

  function EvaluateBuiltin(s: State, op: Builtins.Builtin): Outcome
  {
    if IsBinary(op) then Binary(s, op)
    else if IsUnary(op) then Unary(s, op)
    else match op
      case Divide => Divide(s)
      case Copy => Shuffle(s, op)
      case Drop => Shuffle(s, op)
      case Jump => Jump(s)
      case JumpIf => JumpIf(s)
      case Call => Call(s)
      case CallEither => CallEither(s)
      case Return => Return(s)
      case Assert => Assert(s)
      case Yield => Trigger(s, Effects.Yield)
      case Read => Read(s)
      case Write => Write(s)
  }

  function EvaluateIdentifier(s: State, identifier: string): Outcome
  {
    match Builtins.Parse(identifier)
    case None => Trigger(s, UnknownIdentifier)
    case Some(op) => EvaluateBuiltin(s, op)
  }

  /** `evaluate_next_operator`: fetch, advance the cursor, dispatch. */
  function EvaluateNext(script: Script, s: State): Outcome
    requires script.Valid()
  {
    match script.GetOperator(s.next_operator)
    case Err(e) => Trigger(s, e)
    case Ok(operator) => EvaluateOperator(script, s.(next_operator := s.next_operator + 1), operator)
  }

  /** Evaluating the fetched operator, with the cursor already past it. */
  function EvaluateOperator(script: Script, s: State, operator: Operator): Outcome
    requires script.Valid()
  {
    match operator
    case Identifier(identifier) => EvaluateIdentifier(s, identifier)
    case Integer(value) => Continue(Push(s, FromI32(value)))
    case Reference(name) => EvaluateReference(script, s, name)
  }

  /** A reference pushes the index of the operator its label names. */
  function EvaluateReference(script: Script, s: State, name: string): Outcome
    requires script.Valid()
  {
    match script.ResolveReference(name)
    case Err(e) => Trigger(s, e)
    case Ok(index) => Continue(Push(s, FromU32(index)))
  }

  /** `step`: nothing while an effect is active; otherwise evaluate, recording any effect. */
  function Step(script: Script, s: State): State
    requires script.Valid()
  {
    if s.effect.Some? then s
    else
      var o := EvaluateNext(script, s);
      if o.failure.Some? then o.state.(effect := o.failure) else o.state
  }

  /**
   * `run`, for at most `fuel` steps: the loop's test, `while` no effect is
   * active, then the fuel bound, then the loop's body.
   */
  function Run(script: Script, s: State, fuel: nat): State
    requires script.Valid()
    decreases fuel, 2
  {
    if s.effect.Some? then s else RunWithin(script, s, fuel)
  }

  /** The bound on the steps `run` may take. */
  function RunWithin(script: Script, s: State, fuel: nat): State
    requires script.Valid()
    decreases fuel, 1
  {
    if fuel == 0 then s else StepThenRun(script, s, fuel)
  }

  /** The loop's body, a step, and then the rest of the run. */
  function StepThenRun(script: Script, s: State, fuel: nat): State
    requires script.Valid() && fuel > 0
    decreases fuel, 0
  {
    Run(script, Step(script, s), fuel - 1)
  }

  /** Without an effect and with fuel left, `run` is a step and then the rest of the run. */
  lemma RunStep(script: Script, s: State, fuel: nat)
    requires script.Valid() && s.effect.None? && fuel > 0
    ensures Run(script, s, fuel) == Run(script, Step(script, s), fuel - 1)
  {
    assert Run(script, s, fuel) == RunWithin(script, s, fuel) == StepThenRun(script, s, fuel);
  }

  /** `run` without fuel, or on a state with an effect, is that state. */
  lemma RunStops(script: Script, s: State, fuel: nat)
    requires script.Valid()
    requires s.effect.Some? || fuel == 0
    ensures Run(script, s, fuel) == s
  {
  }
}
