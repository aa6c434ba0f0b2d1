/**
 * The single-file interpreter's `Eval`: the compiled script, the cursor,
 * the active effect, the stack and a memory of 1024 words, updated in
 * place. Each method is proved to leave the state the reference step
 * function (module LegacyMachine) computes.
 */
module LegacyEvaluation {

  import opened Int32
  import opened Values
  import opened Wrappers
  import opened Scripts
  import opened LegacyEffects
  import opened LegacyStacks
  import opened Memories
  import opened LegacyCompiler
  import LegacyMachine
  import Machine
  import Builtins

  /** The number of words `start` gives the memory. */
  const MEMORY_SIZE: nat := 1024

  /**
   * The loop in `start`: each token either names the next operator's index
   * (a label) or becomes that operator.
   */
  method CompileTokens(tokens: seq<string>) returns (ops: seq<Operator>, lbls: seq<Label>)
    ensures Compiled(ops, lbls) == Compile(tokens)
  {
    ops, lbls := [], [];
    var i := 0;
    while i < |tokens|
      invariant i <= |tokens|
      invariant Compiled(ops, lbls) == Assemble(Classified(tokens)[..i])
    {
      var token := tokens[i];
      assert Classified(tokens)[..i + 1][..i] == Classified(tokens)[..i];
      var colon := RSplitOnce(token, ':');
      if colon.Some? && colon.value.1 == "" {
        lbls := lbls + [Label(colon.value.0, |ops|)];
      } else {
        var at := SplitOnce(token, '@');
        var operator;
        if at.Some? && at.value.0 == "" {
          operator := Reference(at.value.1);
        } else {
          var value := ParseI32(token);
          if value.Some? {
            operator := Integer(value.value);
          } else {
            operator := Identifier(token);
          }
        }
        ops := ops + [operator];
      }
      i := i + 1;
    }
    assert Classified(tokens)[..|tokens|] == Classified(tokens);
  }

  class Eval {

    /** The compiled script, which evaluating only reads. */
    const operators: seq<Operator>
    const labels: seq<Label>
    /** The index of the operator to evaluate next; after an effect, the host moves it on. */
    var next_operator: nat
    var effect: Option<LegacyEffects.Effect>
    const stack: Stack
    const memory: Memory

    ghost function Program(): LegacyMachine.Program
    {
      LegacyMachine.Program(operators, labels)
    }

    ghost function State(): LegacyMachine.State
      reads this, stack, memory.values
    {
      LegacyMachine.State(next_operator, effect, stack.values, memory.values[..])
    }

    ghost predicate Reports(r: Result<(), LegacyEffects.Effect>, o: LegacyMachine.Outcome)
      reads this, stack, memory.values
    {
      State() == o.state &&
      match r
      case Ok(_) => o.failure.None?
      case Err(e) => o.failure == Some(e)
    }

    /**
     * `start`: compile the script token by token, then stand at the first
     * operator with no effect, an empty stack and zeroed memory.
     */
    constructor Start(script: string)
      ensures fresh(stack) && fresh(memory) && fresh(memory.values)
      ensures var c := Compile(SplitWhitespace(script));
        operators == c.operators && labels == c.labels
      ensures operators == OperatorsOf(Classified(SplitWhitespace(script)))
      ensures LabelsOrdered(Compiled(operators, labels))
      ensures State() == LegacyMachine.State(0, None, [], seq(MEMORY_SIZE, _ => Value(0)))
    {
      var ops, lbls := CompileTokens(SplitWhitespace(script));
      AssembleOperators(Classified(SplitWhitespace(script)));
      AssembleLabelsOrdered(Classified(SplitWhitespace(script)));
      operators := ops;
      labels := lbls;
      next_operator := 0;
      effect := None;
      stack := new Stack();
      memory := new Memory(MEMORY_SIZE);
      new;
      assert memory.values[..] == seq(MEMORY_SIZE, _ => Value(0));
    }

    /** `run`, for at most `fuel` steps: evaluate until an effect is active. */
    method Run(fuel: nat)
      requires Program().ReferencesFit()
      modifies this, stack, memory.values
      ensures State() == LegacyMachine.Run(Program(), old(State()), fuel)
    {
      ghost var start := State();
      var steps := 0;
      while effect.None? && steps < fuel
        invariant steps <= fuel
        invariant LegacyMachine.Run(Program(), State(), fuel - steps) == LegacyMachine.Run(Program(), start, fuel)
        decreases fuel - steps
      {
        StepWithin(fuel - steps);
        steps := steps + 1;
      }
      LegacyMachine.RunStops(Program(), State(), fuel - steps);

    }

    method StepWithin(ghost steps: nat)
      requires Program().ReferencesFit() && effect.None? && steps > 0
      modifies this, stack, memory.values
      ensures LegacyMachine.Run(Program(), State(), steps - 1) == LegacyMachine.Run(Program(), old(State()), steps)
    {
      LegacyMachine.RunStep(Program(), State(), steps);
      Step();
    }

    /** `step`: nothing while an effect is active; otherwise evaluate and store any effect. */
    method Step()
      requires Program().ReferencesFit()
      modifies this, stack, memory.values
      ensures State() == LegacyMachine.Step(Program(), old(State()))
    {
      if effect.Some? {
        return;
      }
      var r := EvaluateNextOperator();
      if r.Err? {
        effect := Some(r.error);
      }
    }

    /** `evaluate_next_operator`: the cursor moves on only at the end, after success. */
    method EvaluateNextOperator() returns (r: Result<(), LegacyEffects.Effect>)
      requires Program().ReferencesFit()
      modifies this, stack, memory.values
      ensures Reports(r, LegacyMachine.EvaluateNext(Program(), old(State())))
    {
      if next_operator >= |operators| {
        return Err(OutOfTokens);
      }
      match operators[next_operator]
      case Identifier(identifier) =>
        var builtin := Builtins.ParseLegacy(identifier);
        if builtin.None? {
          return Err(UnknownIdentifier);
        }
        r := EvaluateBuiltin(builtin.value);
      case Integer(value) =>
        stack.Push(FromI32(value));
        next_operator := next_operator + 1;
        r := Ok(());
      case Reference(name) =>
        var found := FirstLabel(labels, name);
        if found.None? {
          return Err(InvalidReference);
        }
        stack.Push(FromU32(labels[found.value].operator));
        next_operator := next_operator + 1;
        r := Ok(());
    }

    method EvaluateBuiltin(op: Builtins.Builtin) returns (r: Result<(), LegacyEffects.Effect>)
      requires Builtins.InLegacyVocabulary(op)
      modifies this, stack, memory.values
      ensures Reports(r, LegacyMachine.EvaluateBuiltin(old(State()), op))
    {
      if Machine.IsBinary(op) {
        r := Binary(op);
      } else if Machine.IsUnary(op) {
        r := Unary(op);
      } else {
        match op
        case Divide => r := Divide();
        case Copy => r := Copy();
        case Drop => r := Drop();
        case Jump => r := Jump();
        case JumpIf => r := JumpIf();
        case Yield => r := Err(LegacyEffects.Yield);
        case Read => r := Read();
        case Write => r := Write();
      }
    }

    /** `stack.pop()?`, with the underflow converted into its effect. */
    method PopValue() returns (r: Result<Value, LegacyEffects.Effect>)
      modifies stack
      ensures match LegacyMachine.Pop(old(State()))
        case None => r == Err(LegacyEffects.StackUnderflow) && State() == old(State())
        case Some(p) => r == Ok(p.value) && State() == p.state
    {
      var popped := stack.Pop();
      if popped.Err? {
        return Err(UnderflowEffect(popped.error));
      }
      r := Ok(popped.value);
    }

    method Binary(op: Builtins.Builtin) returns (r: Result<(), LegacyEffects.Effect>)
      requires Machine.IsBinary(op)
      modifies this, stack
      ensures Reports(r, LegacyMachine.Binary(old(State()), op))
    {
      var b := PopValue();
      if b.Err? {
        return Err(b.error);
      }
      var a := PopValue();
      if a.Err? {
        return Err(a.error);
      }
      stack.Push(LegacyMachine.BinaryResult(op, a.value, b.value));
      next_operator := next_operator + 1;
      r := Ok(());
    }

    method Unary(op: Builtins.Builtin) returns (r: Result<(), LegacyEffects.Effect>)
      requires Machine.IsUnary(op)
      modifies this, stack
      ensures Reports(r, LegacyMachine.Unary(old(State()), op))
    {
      var a := PopValue();
      if a.Err? {
        return Err(a.error);
      }
      stack.Push(LegacyMachine.UnaryResult(op, a.value));
      next_operator := next_operator + 1;
      r := Ok(());
    }

    method Divide() returns (r: Result<(), LegacyEffects.Effect>)
      modifies this, stack
      ensures Reports(r, LegacyMachine.Divide(old(State())))
    {
      var bv := PopValue();
      if bv.Err? {
        return Err(bv.error);
      }
      var av := PopValue();
      if av.Err? {
        return Err(av.error);
      }
      var a, b := av.value.ToI32(), bv.value.ToI32();
      if b == 0 {
        return Err(DivisionByZero);
      }
      if a == I32_MIN && b == -1 {
        return Err(IntegerOverflow);
      }
      var quotient := DivI32(a, b);
      var remainder := RemI32(a, b);
      stack.Push(FromI32(quotient));
      stack.Push(FromI32(remainder));
      next_operator := next_operator + 1;
      r := Ok(());
    }

    /** `copy`, through `Stack::get`. */
    method Copy() returns (r: Result<(), LegacyEffects.Effect>)
      modifies this, stack
      ensures Reports(r, LegacyMachine.Shuffle(old(State()), Builtins.Copy))
    {
      var index_from_top := PopValue();
      if index_from_top.Err? {
        return Err(index_from_top.error);
      }
      var value := stack.Get(index_from_top.value.ToUsize());
      if value.Err? {
        return Err(IndexEffect(value.error));
      }
      stack.Push(value.value);
      next_operator := next_operator + 1;
      r := Ok(());
    }

    /** `drop`, through `Stack::remove`. */
    method Drop() returns (r: Result<(), LegacyEffects.Effect>)
      modifies this, stack
      ensures Reports(r, LegacyMachine.Shuffle(old(State()), Builtins.Drop))
    {
      var index_from_top := PopValue();
      if index_from_top.Err? {
        return Err(index_from_top.error);
      }
      var removed := stack.Remove(index_from_top.value.ToUsize());
      if removed.Err? {
        return Err(IndexEffect(removed.error));
      }
      next_operator := next_operator + 1;
      r := Ok(());
    }

    /** `jump`: sets the cursor and returns early, bypassing the increment. */
    method Jump() returns (r: Result<(), LegacyEffects.Effect>)
      modifies this, stack
      ensures Reports(r, LegacyMachine.Jump(old(State())))
    {
      var index := PopValue();
      if index.Err? {
        return Err(index.error);
      }
      next_operator := index.value.ToUsize();
      r := Ok(());
    }

    method JumpIf() returns (r: Result<(), LegacyEffects.Effect>)
      modifies this, stack
      ensures Reports(r, LegacyMachine.JumpIf(old(State())))
    {
      var index := PopValue();
      if index.Err? {
        return Err(index.error);
      }
      var condition := PopValue();
      if condition.Err? {
        return Err(condition.error);
      }
      if condition.value.ToU32() != 0 {
        next_operator := index.value.ToUsize();
        return Ok(());
      }
      next_operator := next_operator + 1;
      r := Ok(());
    }

    method Read() returns (r: Result<(), LegacyEffects.Effect>)
      modifies this, stack
      ensures Reports(r, LegacyMachine.Read(old(State())))
    {
      var address := PopValue();
      if address.Err? {
        return Err(address.error);
      }
      if address.value.ToUsize() >= memory.values.Length {
        return Err(InvalidAddress);
      }
      stack.Push(memory.values[address.value.ToUsize()]);
      next_operator := next_operator + 1;
      r := Ok(());
    }

    /** `write`: the value is popped first, then the address. */
    method Write() returns (r: Result<(), LegacyEffects.Effect>)
      modifies this, stack, memory.values
      ensures Reports(r, LegacyMachine.Write(old(State())))
    {
      var value := PopValue();
      if value.Err? {
        return Err(value.error);
      }
      var address := PopValue();
      if address.Err? {
        return Err(address.error);
      }
      if address.value.ToUsize() < memory.values.Length {
        memory.values[address.value.ToUsize()] := value.value;
      } else {
        return Err(InvalidAddress);
      }
      next_operator := next_operator + 1;
      r := Ok(());
    }
  }
}
