/**
 * Properties of the evaluator's step function (module Machine): what each
 * operator does to the stacks, the cursor and the memory, which conditions
 * trigger which effect, and how `step` and `run` behave around effects.
 */
module MachineProperties {

  import opened Int32
  import opened Values
  import opened Wrappers
  import opened Effects
  import opened Scripts
  import opened Machine
  import Builtins

  /** The operator at the cursor is the identifier naming `op`. */
  predicate At(script: Script, s: State, op: Builtins.Builtin)
  {
    s.next_operator < |script.operators| &&
    script.operators[s.next_operator] == Identifier(Builtins.Mnemonic(op))
  }

  /** The state once the cursor has moved past the current operator. */
  function Advanced(s: State): State
    requires s.next_operator + 1 < WORD
  {
    s.(next_operator := s.next_operator + 1)
  }

  /** An identifier naming a builtin is dispatched to it, after the cursor has moved on. */
  lemma Dispatch(script: Script, s: State, op: Builtins.Builtin)
    requires script.Valid() && At(script, s, op)
    ensures s.next_operator + 1 < WORD
    ensures EvaluateNext(script, s) == EvaluateBuiltin(Advanced(s), op)
  {
    Builtins.ParseMnemonic(op);
  }

  // ---------------------------------------------------------------------
  // Step and run around effects
  // ---------------------------------------------------------------------

  /** While an effect is active, `step` changes nothing at all. */
  lemma ActiveEffectBlocksStep(script: Script, s: State)
    requires script.Valid() && s.effect.Some?
    ensures Step(script, s) == s
  {
  }

  /** Evaluating an operator never touches the `effect` field itself; `step` does. */
  lemma EvaluateKeepsEffect(script: Script, s: State)
    requires script.Valid()
    ensures EvaluateNext(script, s).state.effect == s.effect
  {
    if s.next_operator < |script.operators| {
      var operator := script.operators[s.next_operator];
      if operator.Identifier? && Builtins.Parse(operator.text).Some? {
        BuiltinKeepsEffect(Advanced(s), Builtins.Parse(operator.text).value);
      }
    }
  }

  /** A builtin changes neither the `effect` field nor, unless it is `write`, the memory. */
  lemma BuiltinKeepsEffect(s: State, op: Builtins.Builtin)
    ensures EvaluateBuiltin(s, op).state.effect == s.effect
    ensures !op.Write? ==> EvaluateBuiltin(s, op).state.memory == s.memory
  {
    if IsBinary(op) {
    } else if IsUnary(op) {
    } else {
      match op
      case Divide =>
      case Copy =>
      case Drop =>
      case Jump =>
      case JumpIf =>
      case Call =>
      case CallEither =>
      case Return =>
      case Assert =>
      case Yield =>
      case Read =>
      case Write =>
    }
  }

  /** Without an effect and with fuel left, `run` is the same run from some next state with one step fewer. */
  lemma RunAdvances(script: Script, s: State, fuel: nat, more: nat) returns (t: State)
    requires script.Valid() && s.effect.None? && fuel > 0
    ensures Run(script, s, fuel) == Run(script, t, fuel - 1)
    ensures Run(script, s, fuel + more) == Run(script, t, fuel + more - 1)
  {
    t := Step(script, s);
    assert Run(script, s, fuel) == RunWithin(script, s, fuel) == StepThenRun(script, s, fuel);
    assert Run(script, s, fuel + more) == RunWithin(script, s, fuel + more) == StepThenRun(script, s, fuel + more);
  }

  /** Once `run` has stopped on an effect, more steps change nothing. */
  lemma {:induction false} RunStable(script: Script, s: State, fuel: nat, more: nat)
    requires script.Valid()
    requires Run(script, s, fuel).effect.Some?
    ensures Run(script, s, fuel + more) == Run(script, s, fuel)
    decreases fuel
  {
    if s.effect.None? {
      if fuel == 0 {
        RunStops(script, s, fuel);
        assert false;
      }
      var t := RunAdvances(script, s, fuel, more);
      RunStable(script, t, fuel - 1, more);
      assert fuel - 1 + more == fuel + more - 1;
    }
  }

  /**
   * `run` stops only on an effect: without one it has used all its steps,
   * and each of them evaluated an operator without an effect.
   */
  lemma {:induction false} RunStopsOnEffect(script: Script, s: State, fuel: nat)
    requires script.Valid() && s.effect.None? && fuel > 0
    ensures Run(script, s, fuel).effect.Some? || Run(script, s, fuel) == Run(script, Step(script, s), fuel - 1)
    ensures Run(script, s, fuel).effect.None? ==> Step(script, s).effect.None?
  {
    RunStep(script, s, fuel);
    if Step(script, s).effect.Some? {
      RunStops(script, Step(script, s), fuel - 1);
    }
  }

  // ---------------------------------------------------------------------
  // The cursor
  // ---------------------------------------------------------------------

  /** The operators that set the cursor themselves when they succeed. */
  predicate SetsCursor(op: Operator)
  {
    op.Identifier? &&
    match Builtins.Parse(op.text)
    case None => false
    case Some(b) => b.Jump? || b.JumpIf? || b.Call? || b.CallEither? || b.Return?
  }

  /** The next state's cursor, if the last step did not set it, is just past the evaluated operator. */
  lemma CursorAdvancesBeforeDispatch(script: Script, s: State)
    requires script.Valid() && s.next_operator < |script.operators|
    ensures var o := EvaluateNext(script, s);
      o.failure.Some? || !SetsCursor(script.operators[s.next_operator]) ==>
        o.state.next_operator == s.next_operator + 1
  {
    var operator := script.operators[s.next_operator];
    if operator.Identifier? && Builtins.Parse(operator.text).Some? {
      BuiltinCursor(Advanced(s), Builtins.Parse(operator.text).value);
    }
  }

  /** Only a successful jump, call or return moves the cursor. */
  lemma BuiltinCursor(s: State, op: Builtins.Builtin)
    ensures var o := EvaluateBuiltin(s, op);
      o.failure.Some? || !(op.Jump? || op.JumpIf? || op.Call? || op.CallEither? || op.Return?) ==>
        o.state.next_operator == s.next_operator
  {
    if IsBinary(op) {
    } else if IsUnary(op) {
    } else {
      match op
      case Divide =>
      case Copy =>
      case Drop =>
      case Jump =>
      case JumpIf =>
      case Call =>
      case CallEither =>
      case Return =>
      case Assert =>
      case Yield =>
      case Read =>
      case Write =>
    }
  }

  /** Past the last operator, `step` triggers `OutOfOperators` and changes nothing else. */
  lemma OutOfOperatorsPastEnd(script: Script, s: State)
    requires script.Valid() && s.effect.None?
    requires s.next_operator >= |script.operators|
    ensures Step(script, s) == s.(effect := Some(OutOfOperators))
  {
  }

  // ---------------------------------------------------------------------
  // Arithmetic
  // ---------------------------------------------------------------------

  /** `+`, `-` and `*` are the wrapping `u32` operations on the same bits, and never fail. */
  lemma WrappingArithmetic(s: State, op: Builtins.Builtin)
    requires op.Add? || op.Subtract? || op.Multiply?
    requires |s.operand_stack| >= 2
    ensures var n := |s.operand_stack|;
      var a, b := s.operand_stack[n - 2].ToU32(), s.operand_stack[n - 1].ToU32();
      var r := if op.Add? then WrappingAddU32(a, b) else if op.Subtract? then WrappingSubU32(a, b) else WrappingMulU32(a, b);
      EvaluateBuiltin(s, op) == Continue(s.(operand_stack := s.operand_stack[..n - 2] + [FromU32(r)]))
  {
    var n := |s.operand_stack|;
    var a, b := s.operand_stack[n - 2], s.operand_stack[n - 1];
    assert s.operand_stack[..n - 1][..n - 2] == s.operand_stack[..n - 2];
    if op.Add? {
      WrappingAddSameBits(a.inner, b.inner);
    } else if op.Subtract? {
      WrappingSubSameBits(a.inner, b.inner);
    } else {
      WrappingMulSameBits(a.inner, b.inner);
    }
  }

  /** How many operands each builtin pops. */
  function Arity(op: Builtins.Builtin): nat
  {
    if IsBinary(op) then 2
    else if IsUnary(op) then 1
    else match op
      case Divide => 2
      case Copy => 1
      case Drop => 1
      case Jump => 1
      case JumpIf => 2
      case Call => 1
      case CallEither => 3
      case Return => 0
      case Assert => 1
      case Yield => 0
      case Read => 1
      case Write => 2
  }

  /**
   * `OperandStackUnderflow` triggers exactly when an operator needs more
   * operands than the stack holds; the operands there were are consumed,
   * and only `call` and `call_either` have pushed their return address.
   */
  lemma UnderflowExactly(s: State, op: Builtins.Builtin)
    ensures var o := EvaluateBuiltin(s, op);
      o.failure == Some(OperandStackUnderflow) <==> |s.operand_stack| < Arity(op)
    ensures |s.operand_stack| < Arity(op) ==>
      EvaluateBuiltin(s, op).state ==
        s.(operand_stack := [],
           call_stack := if op.Call? || op.CallEither? then s.call_stack + [s.next_operator] else s.call_stack)
  {
    var n := |s.operand_stack|;
    if n >= 1 {
      assert |s.operand_stack[..n - 1]| == n - 1;
    }
  }

  /**
   * `/`: a zero divisor triggers `DivisionByZero` and `i32::MIN / -1`
   * triggers `IntegerOverflow`, both operands consumed and nothing pushed;
   * otherwise the truncated quotient and then the remainder are pushed,
   * and they recombine to the dividend.
   */
  lemma DivideSpec(s: State)
    requires |s.operand_stack| >= 2
    ensures var n := |s.operand_stack|;
      var rest := s.operand_stack[..n - 2];
      var a, b := s.operand_stack[n - 2].ToI32(), s.operand_stack[n - 1].ToI32();
      var o := Divide(s);
      (b == 0 ==> o == Trigger(s.(operand_stack := rest), DivisionByZero)) &&
      (b != 0 && a == I32_MIN && b == -1 ==> o == Trigger(s.(operand_stack := rest), IntegerOverflow)) &&
      (b != 0 && !(a == I32_MIN && b == -1) ==>
        o.failure.None? && |o.state.operand_stack| == n &&
        o.state.operand_stack[..n - 2] == rest &&
        o.state == s.(operand_stack := o.state.operand_stack) &&
        var q, r := o.state.operand_stack[n - 2].ToI32(), o.state.operand_stack[n - 1].ToI32();
        q * b + r == a && Abs(r) < Abs(b) && (r == 0 || (r < 0 <==> a < 0)))
  {
    var n := |s.operand_stack|;
    assert s.operand_stack[..n - 1][..n - 2] == s.operand_stack[..n - 2];
    var a, b := s.operand_stack[n - 2].ToI32(), s.operand_stack[n - 1].ToI32();
    if b != 0 && !(a == I32_MIN && b == -1) {
      TruncDivRem(a, b);
    }
  }

  /** The only way to trigger `IntegerOverflow`: `/` with `i32::MIN` and `-1`. */
  lemma IntegerOverflowOnlyFromDivide(s: State, op: Builtins.Builtin)
    requires EvaluateBuiltin(s, op).failure == Some(IntegerOverflow)
    ensures op.Divide? && |s.operand_stack| >= 2
    ensures var n := |s.operand_stack|;
      s.operand_stack[n - 2].ToI32() == I32_MIN && s.operand_stack[n - 1].ToI32() == -1
  {
    var n := |s.operand_stack|;
    if n >= 2 {
      assert s.operand_stack[..n - 1][n - 2] == s.operand_stack[n - 2];
    }
  }

  // ---------------------------------------------------------------------
  // Comparisons and bit operations
  // ---------------------------------------------------------------------

  predicate IsComparison(op: Builtins.Builtin)
  {
    op.Less? || op.LessOrEqual? || op.Equal? || op.Greater? || op.GreaterOrEqual?
  }

  /** Comparisons push one or zero. */
  lemma ComparisonIsBoolean(op: Builtins.Builtin, a: Value, b: Value)
    requires IsComparison(op)
    ensures BinaryResult(op, a, b).ToU32() == 0 || BinaryResult(op, a, b).ToU32() == 1
  {
  }

  /** `=` pushes one exactly when the two words have the same bits. */
  lemma EqualComparesBits(a: Value, b: Value)
    ensures BinaryResult(Builtins.Equal, a, b) == FromBool(a == b)
  {
    EqualAsI32(a, b);
  }

  /**
   * The signed order: `>` is `<` with its operands swapped, `<=` and `>=`
   * are the negations of `>` and `<`.
   */
  lemma ComparisonDuality(a: Value, b: Value)
    ensures BinaryResult(Builtins.Greater, a, b) == BinaryResult(Builtins.Less, b, a)
    ensures BinaryResult(Builtins.LessOrEqual, a, b) == FromBool(!BinaryResult(Builtins.Greater, a, b).ToBool())
    ensures BinaryResult(Builtins.GreaterOrEqual, a, b) == FromBool(!BinaryResult(Builtins.Less, a, b).ToBool())
    ensures BinaryResult(Builtins.Less, a, b).ToBool() <==> a.ToI32() < b.ToI32()
  {
  }

  /** `and`, `or` and `xor` combine the two words bit by bit. */
  lemma BitwiseSpec(op: Builtins.Builtin, a: Value, b: Value, k: nat)
    requires op.And? || op.Or? || op.Xor?
    requires k < 32
    ensures var logic := if op.And? then Logic.And else if op.Or? then Logic.Or else Logic.Xor;
      Bit(BinaryResult(op, a, b).ToU32(), k) == Combine(logic, Bit(a.ToU32(), k), Bit(b.ToU32(), k))
  {
    var logic := if op.And? then Logic.And else if op.Or? then Logic.Or else Logic.Xor;
    var bits := BitwiseU32(logic, Unsigned(a.ToI32()), Unsigned(b.ToI32()));
    UnsignedSigned(bits);
  }

  /** `rotate_right` by the same count undoes `rotate_left`. */
  lemma RotateInverse(a: Value, n: Value)
    ensures BinaryResult(Builtins.RotateRight, BinaryResult(Builtins.RotateLeft, a, n), n) == a
  {
    RotateRightLeftI32(a.ToI32(), n.ToU32());
    FromToI32(a);
  }

  /** `shift_left` multiplies the bits by two to the count modulo 32, keeping the low 32 bits. */
  lemma ShiftLeftMultiplies(a: Value, n: Value)
    ensures BinaryResult(Builtins.ShiftLeft, a, n).ToU32() == WrappingMulU32(a.ToU32(), Wrap(Pow2(n.ToI32() % 32)))
  {
    ShiftLeftIsMultiplication(a.ToI32(), n.ToI32());
  }

  /** `count_ones` and `leading_zeros` count at most 32 bits, and count none / all exactly for zero. */
  lemma BitCounts(a: Value)
    ensures UnaryResult(Builtins.CountOnes, a).ToU32() <= 32
    ensures UnaryResult(Builtins.CountOnes, a).ToU32() == 0 <==> a.ToU32() == 0
    ensures UnaryResult(Builtins.LeadingZeros, a).ToU32() == 32 <==> a.ToU32() == 0
    ensures UnaryResult(Builtins.TrailingZeros, a).ToU32() <= 32
  {
  }

  // ---------------------------------------------------------------------
  // Stack shuffling
  // ---------------------------------------------------------------------

  /**
   * `copy` pops an index; if it is below the number of remaining values,
   * the value that many places below the top is pushed again and nothing
   * else changes, otherwise `InvalidOperandStackIndex` with the index
   * consumed.
   */
  lemma CopySpec(s: State)
    requires |s.operand_stack| >= 1
    ensures var rest := s.operand_stack[..|s.operand_stack| - 1];
      var i := s.operand_stack[|s.operand_stack| - 1].ToU32();
      var o := Shuffle(s, Builtins.Copy);
      (i < |rest| ==> o == Continue(s.(operand_stack := rest + [rest[|rest| - 1 - i]]))) &&
      (i >= |rest| ==> o == Trigger(s.(operand_stack := rest), InvalidOperandStackIndex))
  {
  }

  /**
   * `drop` pops an index; if it is valid, exactly the value that many
   * places below the top is removed and the others keep their order,
   * otherwise `InvalidOperandStackIndex` with the index consumed.
   */
  lemma DropSpec(s: State)
    requires |s.operand_stack| >= 1
    ensures var rest := s.operand_stack[..|s.operand_stack| - 1];
      var i := s.operand_stack[|s.operand_stack| - 1].ToU32();
      var o := Shuffle(s, Builtins.Drop);
      (i >= |rest| ==> o == Trigger(s.(operand_stack := rest), InvalidOperandStackIndex)) &&
      (i < |rest| ==>
        var k := |rest| - 1 - i;
        var after := o.state.operand_stack;
        o.failure.None? && o.state == s.(operand_stack := after) &&
        |after| == |rest| - 1 &&
        (forall j :: 0 <= j < k ==> after[j] == rest[j]) &&
        (forall j :: k <= j < |after| ==> after[j] == rest[j + 1]) &&
        multiset(after) + multiset{rest[k]} == multiset(rest))
  {
    var rest := s.operand_stack[..|s.operand_stack| - 1];
    var i := s.operand_stack[|s.operand_stack| - 1].ToU32();
    if i < |rest| {
      var k := |rest| - 1 - i;
      assert Shuffle(s, Builtins.Drop) == Continue(s.(operand_stack := rest[..k] + rest[k + 1..]));
      RemoveAt(rest, k);
    }
  }

  // ---------------------------------------------------------------------
  // Control flow
  // ---------------------------------------------------------------------

  /** `jump_if` jumps exactly on a non-zero condition, and otherwise goes on with the next operator. */
  lemma JumpIfSpec(s: State)
    requires |s.operand_stack| >= 2
    ensures var n := |s.operand_stack|;
      var index, condition := s.operand_stack[n - 1], s.operand_stack[n - 2];
      var o := JumpIf(s);
      o.failure.None? &&
      o.state == s.(operand_stack := s.operand_stack[..n - 2],
                    next_operator := if condition.ToU32() != 0 then index.ToU32() else s.next_operator)
  {
    var n := |s.operand_stack|;
    assert s.operand_stack[..n - 1][..n - 2] == s.operand_stack[..n - 2];
  }

  /**
   * `call` pushes the address of the operator after it onto the call
   * stack before it pops its target, so the address is pushed even when
   * the target is missing.
   */
  lemma CallPushesReturnAddress(script: Script, s: State)
    requires script.Valid() && At(script, s, Builtins.Call)
    ensures var o := EvaluateNext(script, s);
      o.state.call_stack == s.call_stack + [s.next_operator + 1] &&
      (s.operand_stack == [] ==> o.failure == Some(OperandStackUnderflow)) &&
      (s.operand_stack != [] ==>
        o.failure.None? && o.state.next_operator == s.operand_stack[|s.operand_stack| - 1].ToU32())
  {
    Dispatch(script, s, Builtins.Call);
  }

  /** `call_either` pushes its return address first, then continues at the then or the else target. */
  lemma CallEitherSpec(script: Script, s: State)
    requires script.Valid() && At(script, s, Builtins.CallEither)
    ensures var o := EvaluateNext(script, s);
      o.state.call_stack == s.call_stack + [s.next_operator + 1] &&
      (|s.operand_stack| < 3 ==> o.failure == Some(OperandStackUnderflow)) &&
      (|s.operand_stack| >= 3 ==>
        var n := |s.operand_stack|;
        var condition, then_, else_ := s.operand_stack[n - 3], s.operand_stack[n - 2], s.operand_stack[n - 1];
        o.failure.None? && o.state.operand_stack == s.operand_stack[..n - 3] &&
        o.state.next_operator == if condition.ToBool() then then_.ToU32() else else_.ToU32())
  {
    Dispatch(script, s, Builtins.CallEither);
    CallEitherPops(Advanced(s));
  }

  /** `call_either` on its own: the return address first, then the three pops. */
  lemma CallEitherPops(s: State)
    ensures var o := Machine.CallEither(s);
      o.state.call_stack == s.call_stack + [s.next_operator] &&
      (|s.operand_stack| < 3 ==> o.failure == Some(OperandStackUnderflow)) &&
      (|s.operand_stack| >= 3 ==>
        var n := |s.operand_stack|;
        var condition, then_, else_ := s.operand_stack[n - 3], s.operand_stack[n - 2], s.operand_stack[n - 1];
        o.failure.None? && o.state.operand_stack == s.operand_stack[..n - 3] &&
        o.state.next_operator == if condition.ToBool() then then_.ToU32() else else_.ToU32())
  {
    var n := |s.operand_stack|;
    if n >= 3 {
      assert s.operand_stack[..n - 1][..n - 2][..n - 3] == s.operand_stack[..n - 3];
    }
  }

  /**
   * `return` with a non-empty call stack pops it and continues at that
   * address; with an empty one it triggers `Return` and nothing changes.
   */
  lemma ReturnSpec(s: State)
    ensures s.call_stack == [] ==> Machine.Return(s) == Trigger(s, Effects.Return)
    ensures s.call_stack != [] ==>
      var n := |s.call_stack|;
      Machine.Return(s) == Continue(s.(next_operator := s.call_stack[n - 1], call_stack := s.call_stack[..n - 1]))
  {
  }

  /** A `call` followed, in the callee, by `return` comes back to the operator after the `call`. */
  lemma CallThenReturn(script: Script, s: State)
    requires script.Valid() && At(script, s, Builtins.Call) && s.operand_stack != []
    ensures var o := EvaluateNext(script, s);
      o.failure.None? && Machine.Return(o.state) ==
        Continue(o.state.(next_operator := s.next_operator + 1, call_stack := s.call_stack))
  {
    CallPushesReturnAddress(script, s);
    ReturnAfterCall(s, EvaluateNext(script, s).state);
  }

  /** `return` on the call stack a `call` left continues after that `call`. */
  lemma ReturnAfterCall(s: State, t: State)
    requires t.call_stack == s.call_stack + [s.next_operator + 1]
    ensures Machine.Return(t) == Continue(t.(next_operator := s.next_operator + 1, call_stack := s.call_stack))
  {
    assert t.call_stack[..|s.call_stack|] == s.call_stack;
  }

  /** `assert` triggers `AssertionFailed` exactly on a zero input; otherwise it only consumes it. */
  lemma AssertSpec(s: State)
    requires |s.operand_stack| >= 1
    ensures var n := |s.operand_stack|;
      var rest := s.operand_stack[..n - 1];
      var o := Assert(s);
      (s.operand_stack[n - 1].ToU32() == 0 <==> o.failure == Some(AssertionFailed)) &&
      o.state == s.(operand_stack := rest) &&
      (o.failure.None? || o.failure == Some(AssertionFailed))
  {
  }

  /**
   * `yield` triggers `Yield` with no effect on the stacks; once the host
   * clears it, the state is the one in which the operator after the `yield`
   * is next, as if the `yield` had been an operator without effect.
   */
  lemma YieldResumes(script: Script, s: State)
    requires script.Valid() && At(script, s, Builtins.Yield) && s.effect.None?
    ensures Step(script, s) == s.(next_operator := s.next_operator + 1, effect := Some(Effects.Yield))
    ensures Step(script, s).(effect := None) == Advanced(s)
  {
    Dispatch(script, s, Builtins.Yield);
  }

  // ---------------------------------------------------------------------
  // Memory
  // ---------------------------------------------------------------------

  /** `read` pushes the word at an address in bounds and leaves memory alone; out of bounds, `InvalidAddress`. */
  lemma ReadSpec(s: State)
    requires |s.operand_stack| >= 1
    ensures var n := |s.operand_stack|;
      var rest, address := s.operand_stack[..n - 1], s.operand_stack[n - 1].ToU32();
      var o := Machine.Read(s);
      o.state.memory == s.memory &&
      (address < |s.memory| ==> o == Continue(s.(operand_stack := rest + [s.memory[address]]))) &&
      (address >= |s.memory| ==> o == Trigger(s.(operand_stack := rest), InvalidAddress))
  {
  }

  /**
   * `write` pops the value, then the address, and stores the value there;
   * out of bounds, `InvalidAddress` with both consumed and memory unchanged.
   */
  lemma WriteSpec(s: State)
    requires |s.operand_stack| >= 2
    ensures var n := |s.operand_stack|;
      var rest := s.operand_stack[..n - 2];
      var address, value := s.operand_stack[n - 2].ToU32(), s.operand_stack[n - 1];
      var o := Machine.Write(s);
      (address < |s.memory| ==> o == Continue(s.(operand_stack := rest, memory := s.memory[address := value]))) &&
      (address >= |s.memory| ==> o == Trigger(s.(operand_stack := rest), InvalidAddress))
  {
    var n := |s.operand_stack|;
    assert s.operand_stack[..n - 1][..n - 2] == s.operand_stack[..n - 2];
  }

  /** Reading an address just written gives the written word. */
  lemma ReadAfterWrite(s: State)
    requires |s.operand_stack| >= 2
    requires s.operand_stack[|s.operand_stack| - 2].ToU32() < |s.memory|
    ensures var n := |s.operand_stack|;
      var t := Push(Machine.Write(s).state, s.operand_stack[n - 2]);
      Machine.Read(t) == Continue(Push(Machine.Write(s).state, s.operand_stack[n - 1]))
  {
    WriteSpec(s);
  }

  // ---------------------------------------------------------------------
  // Literals, references and unknown identifiers
  // ---------------------------------------------------------------------

  /** An integer literal pushes exactly its value and nothing else. */
  lemma IntegerSpec(script: Script, s: State, value: I32)
    requires script.Valid() && s.next_operator < |script.operators|
    requires script.operators[s.next_operator] == Integer(value)
    ensures var o := EvaluateNext(script, s);
      o.failure.None? &&
      o.state == s.(next_operator := s.next_operator + 1, operand_stack := s.operand_stack + [FromI32(value)]) &&
      o.state.operand_stack[|s.operand_stack|].ToI32() == value
  {
  }

  /** A literal written by its unsigned bits pushes those bits. */
  lemma IntegerU32Spec(script: Script, s: State, value: U32)
    requires script.Valid() && s.next_operator < |script.operators|
    requires script.operators[s.next_operator] == IntegerU32(value)
    ensures EvaluateNext(script, s).state.operand_stack == s.operand_stack + [FromU32(value)]
  {
  }

  /**
   * A reference pushes the index of the operator after the first label of
   * that name; without such a label it triggers `InvalidReference` and
   * pushes nothing.
   */
  lemma ReferenceSpec(script: Script, s: State, name: string)
    requires script.Valid() && s.next_operator < |script.operators|
    requires script.operators[s.next_operator] == Reference(name)
    ensures var o := EvaluateNext(script, s);
      o.state.next_operator == s.next_operator + 1 &&
      match FirstLabel(script.labels, name)
      case None => o == Trigger(Advanced(s), InvalidReference)
      case Some(k) => o == Continue(Push(Advanced(s), FromU32(script.labels[k].operator)))
  {
  }

  /** `@name jump` continues at the operator the label names, with the stack as before. */
  lemma JumpToLabel(script: Script, s: State, name: string, k: nat)
    requires script.Valid() && s.effect.None?
    requires s.next_operator + 1 < |script.operators|
    requires script.operators[s.next_operator] == Reference(name)
    requires script.operators[s.next_operator + 1] == Identifier(Builtins.Mnemonic(Builtins.Jump))
    requires FirstLabel(script.labels, name) == Some(k)
    ensures var t := Step(script, Step(script, s));
      t == s.(next_operator := script.labels[k].operator)
  {
    var s1 := Step(script, s);
    assert s1 == Push(Advanced(s), FromU32(script.labels[k].operator));
    Dispatch(script, s1, Builtins.Jump);
    assert s1.operand_stack[..|s1.operand_stack| - 1] == s.operand_stack;
  }

  /** An identifier outside the vocabulary triggers `UnknownIdentifier`, with the stacks as they were. */
  lemma UnknownIdentifierSpec(script: Script, s: State, identifier: string)
    requires script.Valid() && s.next_operator < |script.operators|
    requires script.operators[s.next_operator] == Identifier(identifier)
    requires forall b: Builtins.Builtin :: Builtins.Mnemonic(b) != identifier
    ensures EvaluateNext(script, s) == Trigger(Advanced(s), UnknownIdentifier)
  {
    Builtins.ParseUnknown(identifier);
  }

  // ---------------------------------------------------------------------
  // Where each effect comes from
  // ---------------------------------------------------------------------

  /** The documented trigger of each effect a builtin can trigger, in the state it starts from. */
  predicate BuiltinTriggers(s: State, op: Builtins.Builtin, e: Effect)
  {
    var n := |s.operand_stack|;
    match e
    case AssertionFailed => op.Assert? && n >= 1 && s.operand_stack[n - 1].ToU32() == 0
    case DivisionByZero => op.Divide? && n >= 2 && s.operand_stack[n - 1].ToI32() == 0
    case IntegerOverflow =>
      op.Divide? && n >= 2 && s.operand_stack[n - 2].ToI32() == I32_MIN && s.operand_stack[n - 1].ToI32() == -1
    case InvalidAddress =>
      (op.Read? && n >= 1 && s.operand_stack[n - 1].ToU32() >= |s.memory|) ||
      (op.Write? && n >= 2 && s.operand_stack[n - 2].ToU32() >= |s.memory|)
    case InvalidOperandStackIndex => (op.Copy? || op.Drop?) && n >= 1 && s.operand_stack[n - 1].ToU32() >= n - 1
    case OperandStackUnderflow => n < Arity(op)
    case Return => op.Return? && s.call_stack == []
    case Yield => op.Yield?
    case _ => false
  }

  /** Every effect a builtin triggers is triggered under its documented condition. */
  lemma BuiltinEffectsAsDocumented(s: State, op: Builtins.Builtin)
    ensures var o := EvaluateBuiltin(s, op);
      o.failure.Some? ==> BuiltinTriggers(s, op, o.failure.value)
  {
    var n := |s.operand_stack|;
    if IsBinary(op) {
    } else if IsUnary(op) {
    } else {
      match op
      case Divide =>
        if n >= 2 {
          assert s.operand_stack[..n - 1][n - 2] == s.operand_stack[n - 2];
        }
      case Copy =>
      case Drop =>
      case Jump =>
      case JumpIf =>
      case Call =>
      case CallEither =>
        if n >= 1 {
          assert |s.operand_stack[..n - 1]| == n - 1;
        }
      case Return =>
      case Assert =>
      case Yield =>
      case Read =>
      case Write =>
    }
  }

  /** The documented trigger of each effect, for the operator at the cursor. */
  predicate Triggers(script: Script, s: State, e: Effect)
  {
    var i := s.next_operator;
    if i >= |script.operators| then e == OutOfOperators
    else match script.operators[i]
      case Integer(_) => false
      case Reference(name) => e == InvalidReference && FirstLabel(script.labels, name).None?
      case Identifier(text) =>
        match Builtins.Parse(text)
        case None => e == UnknownIdentifier
        case Some(op) => BuiltinTriggers(s, op, e)
  }

  /** Every effect an operator triggers is triggered under its documented condition. */
  lemma EffectsAsDocumented(script: Script, s: State)
    requires script.Valid()
    ensures var o := EvaluateNext(script, s);
      o.failure.Some? ==> Triggers(script, s, o.failure.value)
  {
    if s.next_operator < |script.operators| {
      var operator := script.operators[s.next_operator];
      if operator.Identifier? && Builtins.Parse(operator.text).Some? {
        BuiltinEffectsAsDocumented(Advanced(s), Builtins.Parse(operator.text).value);
      }
    }
  }
}
