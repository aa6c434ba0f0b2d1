/**
 * The ongoing evaluation of a script (`Eval`): a cursor, a call stack, the
 * active effect, and the operand stack and memory the host shares with the
 * script. Each method updates the fields in place, as the evaluator does,
 * and is proved to leave exactly the state the reference step function
 * (module Machine) computes.
 */
module Evaluation {

  import opened Int32
  import opened Values
  import opened Wrappers
  import opened Effects
  import opened Scripts
  import opened OperandStacks
  import opened Memories
  import Machine
  import Builtins

  class Eval {

    /** The index of the operator to evaluate next. */
    var next_operator: U32
    /** The return addresses of the calls in progress, innermost last. */
    var call_stack: seq<U32>
    /** The active effect; the host clears it by setting it to `None`. */
    var effect: Option<Effect>
    const operand_stack: OperandStack
    const memory: Memory

    /** The fields, as the value the reference step function works on. */
    ghost function State(): Machine.State
      reads this, operand_stack, memory.values
    {
      Machine.State(next_operator, call_stack, effect, operand_stack.values, memory.values[..])
    }

    /** The evaluation reports `r` where the reference reports outcome `o`, and has reached its state. */
    ghost predicate Reports(r: Result<(), Effect>, o: Machine.Outcome)
      reads this, operand_stack, memory.values
    {
      State() == o.state &&
      match r
      case Ok(_) => o.failure.None?
      case Err(e) => o.failure == Some(e)
    }

    /**
     * `new`: an evaluation at the first operator, with empty stacks, no
     * effect, and a memory of `memorySize` zero words.
     */
    constructor (memorySize: nat)
      ensures fresh(operand_stack) && fresh(memory) && fresh(memory.values)
      ensures State() == Machine.State(0, [], None, [], seq(memorySize, _ => Value(0)))
    {
      next_operator := 0;
      call_stack := [];
      effect := None;
      operand_stack := new OperandStack();
      memory := new Memory(memorySize);
      new;
      assert memory.values[..] == seq(memorySize, _ => Value(0));
    }

    /**
     * `run`, for at most `fuel` steps: evaluate until an effect is active,
     * and return it (`None` if the steps ran out first).
     */
    method Run(script: Script, fuel: nat) returns (r: Option<Effect>)
      requires script.Valid()
      modifies this, operand_stack, memory.values
      ensures State() == Machine.Run(script, old(State()), fuel)
      ensures r == effect
    {
      ghost var start := State();
      var steps := 0;
      while effect.None? && steps < fuel
        invariant steps <= fuel
        invariant Machine.Run(script, State(), fuel - steps) == Machine.Run(script, start, fuel)
        decreases fuel - steps
      {
        StepWithin(script, fuel - steps);
        steps := steps + 1;
      }
      Machine.RunStops(script, State(), fuel - steps);
      assert State() == Machine.Run(script, start, fuel);
      r := effect;
    }

    /** One step of a run with `steps` steps left, which leaves a run of one step fewer. */
    method StepWithin(script: Script, ghost steps: nat)
      requires script.Valid() && effect.None? && steps > 0
      modifies this, operand_stack, memory.values
      ensures Machine.Run(script, State(), steps - 1) == Machine.Run(script, old(State()), steps)
    {
      Machine.RunStep(script, State(), steps);
      Step(script);
    }

    /**
     * `step`: nothing while an effect is active; otherwise evaluate the
     * next operator and store the effect it triggers, if any.
     */
    method Step(script: Script)
      requires script.Valid()
      modifies this, operand_stack, memory.values
      ensures State() == Machine.Step(script, old(State()))
    {
      if effect.Some? {
        return;
      }
      var r := EvaluateNextOperator(script);
      if r.Err? {
        effect := Some(r.error);
      }
    }

    /** `evaluate_next_operator`: fetch the operator, move the cursor past it, then evaluate it. */
    method EvaluateNextOperator(script: Script) returns (r: Result<(), Effect>)
      requires script.Valid()
      modifies this, operand_stack, memory.values
      ensures Reports(r, Machine.EvaluateNext(script, old(State())))
    {
      var operator := script.GetOperator(next_operator);
      if operator.Err? {
        return Err(operator.error);
      }
      ghost var advanced := State().(next_operator := next_operator + 1);
      next_operator := next_operator + 1;
      assert State() == advanced;
      r := EvaluateOperator(script, operator.value);
    }

    /** Evaluate the fetched operator: a builtin, an integer to push, or a reference to resolve. */
    method EvaluateOperator(script: Script, operator: Operator) returns (r: Result<(), Effect>)
      requires script.Valid()
      modifies this, operand_stack, memory.values
      ensures Reports(r, Machine.EvaluateOperator(script, old(State()), operator))
    {
      match operator
      case Identifier(identifier) =>
        r := EvaluateIdentifier(identifier);
      case Integer(value) =>
        operand_stack.Push(FromI32(value));
        r := Ok(());
      case Reference(name) =>
        r := EvaluateReference(script, name);
    }

    /** A reference pushes the index of the operator its label names, or triggers `InvalidReference`. */
    method EvaluateReference(script: Script, name: string) returns (r: Result<(), Effect>)
      requires script.Valid()
      modifies operand_stack
      ensures Reports(r, Machine.EvaluateReference(script, old(State()), name))
    {
      var index := script.ResolveReference(name);
      if index.Err? {
        return Err(index.error);
      }
      operand_stack.Push(FromU32(index.value));
      r := Ok(());
    }

    /** An identifier names a builtin, or triggers `UnknownIdentifier`. */
    method EvaluateIdentifier(identifier: string) returns (r: Result<(), Effect>)
      modifies this, operand_stack, memory.values
      ensures Reports(r, Machine.EvaluateIdentifier(old(State()), identifier))
    {
      var builtin := Builtins.Parse(identifier);
      if builtin.None? {
        return Err(UnknownIdentifier);
      }
      r := EvaluateBuiltin(builtin.value);
    }

    method EvaluateBuiltin(op: Builtins.Builtin) returns (r: Result<(), Effect>)
      modifies this, operand_stack, memory.values
      ensures Reports(r, Machine.EvaluateBuiltin(old(State()), op))
    {
      if Machine.IsBinary(op) {
        r := Binary(op);
      } else if Machine.IsUnary(op) {
        r := Unary(op);
      } else {
        match op
        case Divide => r := Divide();
        case Copy => r := Shuffle(op);
        case Drop => r := Shuffle(op);
        case Jump => r := Jump();
        case JumpIf => r := JumpIf();
        case Call => r := Call();
        case CallEither => r := CallEither();
        case Return => r := Return();
        case Assert => r := Assert();
        case Yield => r := Err(Effects.Yield);
        case Read => r := Read();
        case Write => r := Write();
      }
    }

    /** `operand_stack.pop()?`, with the underflow converted into its effect. */
    method PopOperand() returns (r: Result<Value, Effect>)
      modifies operand_stack
      ensures match Machine.Pop(old(State()))
        case None => r == Err(Effect.OperandStackUnderflow) && State() == old(State())
        case Some(p) => r == Ok(p.value) && State() == p.state
    {
      var popped := operand_stack.Pop();
      if popped.Err? {
        return Err(UnderflowEffect(popped.error));
      }
      r := Ok(popped.value);
    }

    method Binary(op: Builtins.Builtin) returns (r: Result<(), Effect>)
      requires Machine.IsBinary(op)
      modifies operand_stack
      ensures Reports(r, Machine.Binary(old(State()), op))
    {
      var b := PopOperand();
      if b.Err? {
        return Err(b.error);
      }
      var a := PopOperand();
      if a.Err? {
        return Err(a.error);
      }
      operand_stack.Push(Machine.BinaryResult(op, a.value, b.value));
      r := Ok(());
    }

    method Unary(op: Builtins.Builtin) returns (r: Result<(), Effect>)
      requires Machine.IsUnary(op)
      modifies operand_stack
      ensures Reports(r, Machine.Unary(old(State()), op))
    {
      var a := PopOperand();
      if a.Err? {
        return Err(a.error);
      }
      operand_stack.Push(Machine.UnaryResult(op, a.value));
      r := Ok(());
    }

    /** `/`: both operands are popped before the divisor is checked. */
    method Divide() returns (r: Result<(), Effect>)
      modifies operand_stack
      ensures Reports(r, Machine.Divide(old(State())))
    {
      var bv := PopOperand();
      if bv.Err? {
        return Err(bv.error);
      }
      var av := PopOperand();
      if av.Err? {
        return Err(av.error);
      }
      var a, b := av.value.ToI32(), bv.value.ToI32();
      if b == 0 {
        return Err(DivisionByZero);
      }
      if a == I32_MIN && b == -1 {
        return Err(IntegerOverflow);
      }
      operand_stack.Push(FromI32(DivI32(a, b)));
      operand_stack.Push(FromI32(RemI32(a, b)));
      r := Ok(());
    }

    /** `copy` and `drop`. */
    method Shuffle(op: Builtins.Builtin) returns (r: Result<(), Effect>)
      requires op.Copy? || op.Drop?
      modifies operand_stack
      ensures Reports(r, Machine.Shuffle(old(State()), op))
    {
      var index_from_top := PopOperand();
      if index_from_top.Err? {
        return Err(index_from_top.error);
      }
      var index_from_bottom := Machine.ConvertIndex(|operand_stack.values|, index_from_top.value.ToU32());
      if index_from_bottom.Err? {
        return Err(index_from_bottom.error);
      }
      var k := index_from_bottom.value;
      if op.Copy? {
        operand_stack.Push(operand_stack.values[k]);
      } else {
        operand_stack.values := operand_stack.values[..k] + operand_stack.values[k + 1..];
      }
      r := Ok(());
    }

    method Jump() returns (r: Result<(), Effect>)
      modifies this, operand_stack
      ensures Reports(r, Machine.Jump(old(State())))
    {
      var index := PopOperand();
      if index.Err? {
        return Err(index.error);
      }
      next_operator := index.value.ToU32();
      r := Ok(());
    }

    method JumpIf() returns (r: Result<(), Effect>)
      modifies this, operand_stack
      ensures Reports(r, Machine.JumpIf(old(State())))
    {
      var index := PopOperand();
      if index.Err? {
        return Err(index.error);
      }
      var condition := PopOperand();
      if condition.Err? {
        return Err(condition.error);
      }
      if condition.value.ToBool() {
        next_operator := index.value.ToU32();
      }
      r := Ok(());
    }

    /** `call`: the return address goes onto the call stack before the target is popped. */
    method Call() returns (r: Result<(), Effect>)
      modifies this, operand_stack
      ensures Reports(r, Machine.Call(old(State())))
    {
      call_stack := call_stack + [next_operator];
      var index := PopOperand();
      if index.Err? {
        return Err(index.error);
      }
      next_operator := index.value.ToU32();
      r := Ok(());
    }

    method CallEither() returns (r: Result<(), Effect>)
      modifies this, operand_stack
      ensures Reports(r, Machine.CallEither(old(State())))
    {
      call_stack := call_stack + [next_operator];
      var else_ := PopOperand();
      if else_.Err? {
        return Err(else_.error);
      }
      var then_ := PopOperand();
      if then_.Err? {
        return Err(then_.error);
      }
      var condition := PopOperand();
      if condition.Err? {
        return Err(condition.error);
      }
      next_operator := if condition.value.ToBool() then then_.value.ToU32() else else_.value.ToU32();
      r := Ok(());
    }

    method Return() returns (r: Result<(), Effect>)
      modifies this
      ensures Reports(r, Machine.Return(old(State())))
    {
      if call_stack == [] {
        return Err(Effects.Return);
      }
      next_operator := call_stack[|call_stack| - 1];
      call_stack := call_stack[..|call_stack| - 1];
      r := Ok(());
    }

    method Assert() returns (r: Result<(), Effect>)
      modifies operand_stack
      ensures Reports(r, Machine.Assert(old(State())))
    {
      var condition := PopOperand();
      if condition.Err? {
        return Err(condition.error);
      }
      if !condition.value.ToBool() {
        return Err(AssertionFailed);
      }
      r := Ok(());
    }

    method Read() returns (r: Result<(), Effect>)
      modifies operand_stack
      ensures Reports(r, Machine.Read(old(State())))
    {
      var address := PopOperand();
      if address.Err? {
        return Err(address.error);
      }
      var value := memory.Read(address.value.ToU32());
      if value.Err? {
        return Err(value.error);
      }
      operand_stack.Push(value.value);
      r := Ok(());
    }

    /** `write`: the value is popped first, then the address. */
    method Write() returns (r: Result<(), Effect>)
      modifies operand_stack, memory.values
      ensures Reports(r, Machine.Write(old(State())))
    {
      var value := PopOperand();
      if value.Err? {
        return Err(value.error);
      }
      var address := PopOperand();
      if address.Err? {
        return Err(address.error);
      }
      var written := memory.Write(address.value.ToU32(), value.value);
      if written.Err? {
        return Err(written.error);
      }
      r := Ok(());
    }
  }
}
