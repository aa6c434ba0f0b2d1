/**
 * What one step of the single-file interpreter does, as a function of its
 * state: the reference for the imperative `Eval` of module LegacyEvaluation.
 *
 * Unlike the evaluator crate, the cursor moves only after an operator has
 * succeeded, and not at all after `jump` or a taken `jump_if`: an operator
 * that triggers an effect leaves the cursor on itself.
 */
module LegacyMachine {

  import opened Int32
  import opened Values
  import opened Wrappers
  import opened Scripts
  import opened LegacyEffects
  import Builtins
  import Machine

  /** The fields of an evaluation that evaluating changes. */
  datatype State = State(
    next_operator: nat,
    effect: Option<LegacyEffects.Effect>,
    stack: seq<Value>,
    memory: seq<Value>)

  /** The compiled script: the fields `start` fills in and evaluating only reads. */
  datatype Program = Program(operators: seq<Operator>, labels: seq<Label>)
  {
    /**
     * Every label index fits in a `u32`; the interpreter panics on a
     * reference to a label past that.
     */
    predicate ReferencesFit()
    {
      forall k :: 0 <= k < |labels| ==> labels[k].operator < WORD
    }
  }

  datatype Outcome = Outcome(state: State, failure: Option<LegacyEffects.Effect>)

  function Trigger(s: State, e: LegacyEffects.Effect): Outcome { Outcome(s, Some(e)) }

  /** Success, followed by the increment at the end of `evaluate_next_operator`. */
  function Done(s: State): Outcome
  {
    Outcome(s.(next_operator := s.next_operator + 1), None)
  }

  /** Success of an operator that has set the cursor itself and so bypasses the increment. */
  function Jumped(s: State, index: nat): Outcome
  {
    Outcome(s.(next_operator := index), None)
  }

  function Push(s: State, v: Value): State
  {
    s.(stack := s.stack + [v])
  }

  datatype Popped = Popped(state: State, value: Value)

  function Pop(s: State): Option<Popped>
  {
    if s.stack == [] then None
    else Some(Popped(s.(stack := s.stack[..|s.stack| - 1]), s.stack[|s.stack| - 1]))
  }

  // ---------------------------------------------------------------------
  // Operators on values
  // ---------------------------------------------------------------------

  /**
   * What a binary operator pushes: `*`, `+`, `-` and `=` work on `u32`,
   * rotations too, the rest on `i32`; comparisons push the `i32` one or zero.
   */
  function BinaryResult(op: Builtins.Builtin, a: Value, b: Value): Value
    requires Machine.IsBinary(op)
  {
    match op
    case Multiply => FromU32(WrappingMulU32(a.ToU32(), b.ToU32()))
    case Add => FromU32(WrappingAddU32(a.ToU32(), b.ToU32()))
    case Subtract => FromU32(WrappingSubU32(a.ToU32(), b.ToU32()))
    case Less => FromI32(if a.ToI32() < b.ToI32() then 1 else 0)
    case LessOrEqual => FromI32(if a.ToI32() <= b.ToI32() then 1 else 0)
    case Equal => FromI32(if a.ToU32() == b.ToU32() then 1 else 0)
    case Greater => FromI32(if a.ToI32() > b.ToI32() then 1 else 0)
    case GreaterOrEqual => FromI32(if a.ToI32() >= b.ToI32() then 1 else 0)
    case And => FromI32(BitwiseI32(Logic.And, a.ToI32(), b.ToI32()))
    case Or => FromI32(BitwiseI32(Logic.Or, a.ToI32(), b.ToI32()))
    case Xor => FromI32(BitwiseI32(Logic.Xor, a.ToI32(), b.ToI32()))
    case RotateLeft => FromU32(Int32.RotateLeft(a.ToU32(), b.ToU32()))
    case RotateRight => FromU32(Int32.RotateRight(a.ToU32(), b.ToU32()))
    case ShiftLeft => FromI32(Int32.ShiftLeft(a.ToI32(), b.ToI32()))
    case ShiftRight => FromI32(Int32.ShiftRight(a.ToI32(), b.ToI32()))
  }

  function UnaryResult(op: Builtins.Builtin, a: Value): Value
    requires Machine.IsUnary(op)
  {
    match op
    case CountOnes => FromU32(CountOnesU32(a.ToU32()))
    case LeadingZeros => FromU32(Int32.LeadingZeros(a.ToU32()))
    case TrailingZeros => FromU32(TrailingZerosU32(a.ToU32()))
  }

  /**
   * Reading the operands as `u32` here and as `i32` in the evaluator crate
   * makes no difference: every binary and unary operator pushes the same
   * bits in both.
   */
  lemma SameResultsAsEvaluator(op: Builtins.Builtin, a: Value, b: Value)
    ensures Machine.IsBinary(op) ==> BinaryResult(op, a, b) == Machine.BinaryResult(op, a, b)
    ensures Machine.IsUnary(op) ==> UnaryResult(op, a) == Machine.UnaryResult(op, a)
  {
    FromToI32(a);
    match op
    case Multiply => WrappingMulSameBits(a.inner, b.inner);
    case Add => WrappingAddSameBits(a.inner, b.inner);
    case Subtract => WrappingSubSameBits(a.inner, b.inner);
    case Equal => EqualAsI32(a, b);
    case RotateLeft => UnsignedSigned(Int32.RotateLeft(a.inner, b.inner));
    case RotateRight => UnsignedSigned(Int32.RotateRight(a.inner, b.inner));
    case _ =>
  }

  // ---------------------------------------------------------------------
  // Operators
  // ---------------------------------------------------------------------

  function Binary(s: State, op: Builtins.Builtin): Outcome
    requires Machine.IsBinary(op)
  {
    match Pop(s)
    case None => Trigger(s, StackUnderflow)
    case Some(Popped(s1, b)) =>
      match Pop(s1)
      case None => Trigger(s1, StackUnderflow)
      case Some(Popped(s2, a)) => Done(Push(s2, BinaryResult(op, a, b)))
  }

  function Unary(s: State, op: Builtins.Builtin): Outcome
    requires Machine.IsUnary(op)
  {
    match Pop(s)
    case None => Trigger(s, StackUnderflow)
    case Some(Popped(s1, a)) => Done(Push(s1, UnaryResult(op, a)))
  }

  function Divide(s: State): Outcome
  {
    match Pop(s)
    case None => Trigger(s, StackUnderflow)
    case Some(Popped(s1, bv)) =>
      match Pop(s1)
      case None => Trigger(s1, StackUnderflow)
      case Some(Popped(s2, av)) =>
        var a, b := av.ToI32(), bv.ToI32();
        if b == 0 then Trigger(s2, DivisionByZero)
        else if a == I32_MIN && b == -1 then Trigger(s2, IntegerOverflow)
        else Done(Push(Push(s2, FromI32(DivI32(a, b))), FromI32(RemI32(a, b))))
  }

  /** `copy` and `drop`, through the stack's `get` and `remove`. */
  function Shuffle(s: State, op: Builtins.Builtin): Outcome
    requires op.Copy? || op.Drop?
  {
    match Pop(s)
    case None => Trigger(s, StackUnderflow)
    case Some(Popped(s1, index)) =>
      var values := s1.stack;
      var i := index.ToUsize();
      if i >= |values| then Trigger(s1, InvalidStackIndex)
      else
        var k := |values| - 1 - i;
        if op.Copy? then Done(Push(s1, values[k]))
        else Done(s1.(stack := values[..k] + values[k + 1..]))
  }

  function Jump(s: State): Outcome
  {
    match Pop(s)
    case None => Trigger(s, StackUnderflow)
    case Some(Popped(s1, index)) => Jumped(s1, index.ToUsize())
  }

  function JumpIf(s: State): Outcome
  {
    match Pop(s)
    case None => Trigger(s, StackUnderflow)
    case Some(Popped(s1, index)) =>
      match Pop(s1)
      case None => Trigger(s1, StackUnderflow)
      case Some(Popped(s2, condition)) =>
        if condition.ToU32() != 0 then Jumped(s2, index.ToUsize()) else Done(s2)
  }

  function Read(s: State): Outcome
  {
    match Pop(s)
    case None => Trigger(s, StackUnderflow)
    case Some(Popped(s1, address)) =>
      if address.ToUsize() < |s1.memory| then Done(Push(s1, s1.memory[address.ToUsize()]))
      else Trigger(s1, InvalidAddress)
  }

  function Write(s: State): Outcome
  {
    match Pop(s)
    case None => Trigger(s, StackUnderflow)
    case Some(Popped(s1, value)) =>
      match Pop(s1)
      case None => Trigger(s1, StackUnderflow)
      case Some(Popped(s2, address)) =>
        if address.ToUsize() < |s2.memory| then Done(s2.(memory := s2.memory[address.ToUsize() := value]))
        else Trigger(s2, InvalidAddress)
  }

  function EvaluateBuiltin(s: State, op: Builtins.Builtin): Outcome
    requires Builtins.InLegacyVocabulary(op)
  {
    if Machine.IsBinary(op) then Binary(s, op)
    else if Machine.IsUnary(op) then Unary(s, op)
    else match op
      case Divide => Divide(s)
      case Copy => Shuffle(s, op)
      case Drop => Shuffle(s, op)
      case Jump => Jump(s)
      case JumpIf => JumpIf(s)
      case Yield => Trigger(s, LegacyEffects.Yield)
      case Read => Read(s)
      case Write => Write(s)
  }

  /** `evaluate_next_operator`. */
  function EvaluateNext(p: Program, s: State): Outcome
    requires p.ReferencesFit()
  {
    if s.next_operator >= |p.operators| then Trigger(s, OutOfTokens)
    else match p.operators[s.next_operator]
      case Identifier(identifier) =>
        (match Builtins.ParseLegacy(identifier)
         case None => Trigger(s, UnknownIdentifier)
         case Some(op) => EvaluateBuiltin(s, op))
      case Integer(value) => Done(Push(s, FromI32(value)))
      case Reference(name) =>
        match FirstLabel(p.labels, name)
        case None => Trigger(s, InvalidReference)
        case Some(k) => Done(Push(s, FromU32(p.labels[k].operator)))
  }

  function Step(p: Program, s: State): State
    requires p.ReferencesFit()
  {
    if s.effect.Some? then s
    else
      var o := EvaluateNext(p, s);
      if o.failure.Some? then o.state.(effect := o.failure) else o.state
  }

  /**
   * `run`, for at most `fuel` steps: the loop's test, `while` no effect is
   * active, then the fuel bound, then the loop's body.
   */
  function Run(p: Program, s: State, fuel: nat): State
    requires p.ReferencesFit()
    decreases fuel, 2
  {
    if s.effect.Some? then s else RunWithin(p, s, fuel)
  }

  /** The bound on the steps `run` may take. */
  function RunWithin(p: Program, s: State, fuel: nat): State
    requires p.ReferencesFit()
    decreases fuel, 1
  {
    if fuel == 0 then s else StepThenRun(p, s, fuel)
  }

  /** The loop's body, a step, and then the rest of the run. */
  function StepThenRun(p: Program, s: State, fuel: nat): State
    requires p.ReferencesFit() && fuel > 0
    decreases fuel, 0
  {
    Run(p, Step(p, s), fuel - 1)
  }

  /** Without an effect and with fuel left, `run` is a step and then the rest of the run. */
  lemma RunStep(p: Program, s: State, fuel: nat)
    requires p.ReferencesFit() && s.effect.None? && fuel > 0
    ensures Run(p, s, fuel) == Run(p, Step(p, s), fuel - 1)
  {
    assert Run(p, s, fuel) == RunWithin(p, s, fuel) == StepThenRun(p, s, fuel);
  }

  /** `run` without fuel, or on a state with an effect, is that state. */
  lemma RunStops(p: Program, s: State, fuel: nat)
    requires p.ReferencesFit()
    requires s.effect.Some? || fuel == 0
    ensures Run(p, s, fuel) == s
  {
  }

  // ---------------------------------------------------------------------
  // Properties
  // ---------------------------------------------------------------------

  /**
   * A builtin that triggers an effect leaves the cursor where it was; one
   * that succeeds moves it on by one, unless it is `jump` or a `jump_if`
   * whose condition held.
   */
  lemma BuiltinCursor(s: State, op: Builtins.Builtin)
    requires Builtins.InLegacyVocabulary(op)
    ensures var o := EvaluateBuiltin(s, op);
      (o.failure.Some? ==> o.state.next_operator == s.next_operator) &&
      (o.failure.None? && !op.Jump? && !op.JumpIf? ==> o.state.next_operator == s.next_operator + 1)
  {
    if Machine.IsBinary(op) {
    } else if Machine.IsUnary(op) {
    } else {
      match op
      case Divide =>
      case Copy =>
      case Drop =>
      case Jump =>
      case JumpIf =>
      case Yield =>
      case Read =>
      case Write =>
    }
  }

  /** An effect leaves the cursor on the operator that triggered it; success without a jump moves it on by one. */
  lemma CursorOnEffect(p: Program, s: State)
    requires p.ReferencesFit()
    ensures var o := EvaluateNext(p, s);
      (o.failure.Some? ==> o.state.next_operator == s.next_operator) &&
      (o.failure.None? && s.next_operator < |p.operators| &&
       !(p.operators[s.next_operator].Identifier? &&
         Builtins.ParseLegacy(p.operators[s.next_operator].text) in {Some(Builtins.Jump), Some(Builtins.JumpIf)}) ==>
        o.state.next_operator == s.next_operator + 1)
  {
    if s.next_operator < |p.operators| {
      var operator := p.operators[s.next_operator];
      if operator.Identifier? && Builtins.ParseLegacy(operator.text).Some? {
        BuiltinCursor(s, Builtins.ParseLegacy(operator.text).value);
      }
    }
  }

  /**
   * After `yield` the host must move the cursor on itself: if it only
   * clears the effect, the same `yield` triggers again.
   */
  lemma YieldRepeats(p: Program, s: State, identifier: string)
    requires p.ReferencesFit() && s.effect.None?
    requires s.next_operator < |p.operators| && p.operators[s.next_operator] == Identifier(identifier)
    requires Builtins.ParseLegacy(identifier) == Some(Builtins.Yield)
    ensures Step(p, s) == s.(effect := Some(LegacyEffects.Yield))
    ensures Step(p, Step(p, s).(effect := None)) == Step(p, s)
  {
  }

  /**
   * An identifier triggers `UnknownIdentifier` exactly when it is the
   * mnemonic of no operation of the legacy vocabulary (so `assert`, `call`,
   * `call_either` and `return` are unknown here), and then the cursor, the
   * stack and the memory stay as they were.
   */
  lemma UnknownIdentifierSpec(p: Program, s: State, identifier: string)
    requires p.ReferencesFit() && s.effect.None?
    requires s.next_operator < |p.operators| && p.operators[s.next_operator] == Identifier(identifier)
    ensures var unknown := forall b: Builtins.Builtin :: Builtins.InLegacyVocabulary(b) ==> Builtins.Mnemonic(b) != identifier;
      EvaluateNext(p, s).failure == Some(UnknownIdentifier) <==> unknown
    ensures Builtins.ParseLegacy(identifier).None? ==> Step(p, s) == s.(effect := Some(UnknownIdentifier))
  {
  }

  /** A reference pushes the index of the first label of that name, or triggers `InvalidReference`. */
  lemma ReferenceSpec(p: Program, s: State, name: string)
    requires p.ReferencesFit()
    requires s.next_operator < |p.operators| && p.operators[s.next_operator] == Reference(name)
    ensures var o := EvaluateNext(p, s);
      match FirstLabel(p.labels, name)
      case None => o == Trigger(s, InvalidReference)
      case Some(k) =>
        o == Done(Push(s, FromU32(p.labels[k].operator))) && (forall j :: 0 <= j < k ==> p.labels[j].name != name)
  {
  }

  /** `/` here triggers exactly what it triggers in the evaluator crate, and pushes the same results. */
  lemma DivideAsEvaluator(s: State, t: Machine.State)
    requires s.stack == t.operand_stack
    ensures var o, q := Divide(s), Machine.Divide(t);
      o.failure.Some? == q.failure.Some? &&
      (o.failure.Some? ==> Renamed(o.failure.value) == q.failure.value) &&
      o.state.stack == q.state.operand_stack
  {
  }

  /** `+`, `-` and `*` wrap as `u32` arithmetic and never fail on two operands. */
  lemma WrappingArithmetic(s: State, op: Builtins.Builtin)
    requires op.Add? || op.Subtract? || op.Multiply?
    requires |s.stack| >= 2
    ensures var n := |s.stack|;
      var a, b := s.stack[n - 2].ToU32(), s.stack[n - 1].ToU32();
      var r := if op.Add? then WrappingAddU32(a, b) else if op.Subtract? then WrappingSubU32(a, b) else WrappingMulU32(a, b);
      EvaluateBuiltin(s, op) == Done(s.(stack := s.stack[..n - 2] + [FromU32(r)])) &&
      r == Wrap(if op.Add? then a + b else if op.Subtract? then a - b else a * b)
  {
    var n := |s.stack|;
    assert s.stack[..n - 1][..n - 2] == s.stack[..n - 2];
  }

  /** `copy` pops an index and pushes the value that deep, or fails with `InvalidStackIndex` exactly when there is none. */
  lemma CopySpec(s: State)
    requires |s.stack| >= 1
    ensures var rest := s.stack[..|s.stack| - 1];
      var i := s.stack[|s.stack| - 1].ToU32();
      var o := Shuffle(s, Builtins.Copy);
      (i >= |rest| ==> o == Trigger(s.(stack := rest), InvalidStackIndex)) &&
      (i < |rest| ==> o == Done(s.(stack := rest + [rest[|rest| - 1 - i]])))
  {
  }

  /**
   * `drop` pops an index and removes exactly the value that deep, or
   * fails with `InvalidStackIndex` exactly when there is none.
   */
  lemma DropSpec(s: State)
    requires |s.stack| >= 1
    ensures var rest := s.stack[..|s.stack| - 1];
      var i := s.stack[|s.stack| - 1].ToU32();
      var o := Shuffle(s, Builtins.Drop);
      (i >= |rest| ==> o == Trigger(s.(stack := rest), InvalidStackIndex)) &&
      (i < |rest| ==>
        var k := |rest| - 1 - i;
        var after := rest[..k] + rest[k + 1..];
        o == Done(s.(stack := after)) &&
        |after| == |rest| - 1 &&
        (forall j :: 0 <= j < k ==> after[j] == rest[j]) &&
        (forall j :: k <= j < |after| ==> after[j] == rest[j + 1]) &&
        multiset(after) + multiset{rest[k]} == multiset(rest))
  {
    var rest := s.stack[..|s.stack| - 1];
    var i := s.stack[|s.stack| - 1].ToU32();
    assert Pop(s) == Some(Popped(s.(stack := rest), s.stack[|s.stack| - 1]));
    if i < |rest| {
      RemoveAt(rest, |rest| - 1 - i);
    }
  }
}
