# StackAssembly, modelled in Dafny

StackAssembly is a minimalist, stack-based, assembly-like language. A script
is a sequence of operators: identifiers naming built-in operations, integer
literals, and references to labels. All data are 32-bit words. They live on
an operand stack and in a linear memory, and an operator reads a word as
`u32` or as `i32` as it needs. Evaluation goes one operator per `step`. It
stops when an *effect* triggers: an error, the regular end of the script, or
a `yield` to the host, which may clear the effect and let the script go on.

This project models two generations of the interpreter.

- **The evaluator crate** (`crates/stack-assembly/src/`):
  - `Eval` is the class `Evaluation.Eval`. Its fields are the cursor, the call
    stack, the active effect, an `OperandStack` object and a `Memory` object,
    updated in place.
  - Each method is proved to leave exactly the state that the pure step
    function in module `Machine` computes.
  - Module `MachineProperties` proves, about that function, what each
    operator does and when each effect triggers.
  - Supporting modules: `Values` (the word and its readings), `Int32`
    (wrapping arithmetic, truncating division, bit counts, rotations and
    shifts on unbounded integers), `OperandStacks`, `Memories` (the word
    array and its `Debug` printer, proved to print a list that parses back),
    `Scripts` (operators and labels), `Effects` (the eleven effects) and
    `Builtins` (the vocabulary of mnemonics).
- **The single-file interpreter** (`src/`):
  - `Eval::start` compiles a script. It splits on whitespace and classifies
    each token as a label, a reference, an `i32` literal or an identifier.
    Module `LegacyCompiler` models this, down to `split_whitespace`,
    `rsplit_once`, `split_once` and `str::parse::<i32>`. The loop itself is
    the method `LegacyEvaluation.CompileTokens`.
  - `LegacyEvaluation.Eval` is the interpreter that moves its cursor after a
    successful operator. It is proved against the step function in module
    `LegacyMachine`.
  - `LegacyMachine` also states where this interpreter differs from the
    evaluator crate: the cursor, `u32` against `i32` arithmetic (the same
    bits), and the nine effect names.

The interpreter's three definitions of `Value` are all module `Values`:
`crates/stack-assembly/src/value.rs`, `src/value.rs`, and the copy in
`src/stack.rs`.

`run` loops until an effect triggers, which may be never. `run` therefore
takes a bound on its steps (`fuel`): `Machine.Run(script, s, fuel)` is what
`run` has done after at most `fuel` steps.

## Model

| member | source | states |
|---|---|---|
| `Evaluation.Eval.constructor` | crates/stack-assembly/src/eval.rs:142-144 | `Eval::new`: cursor 0, empty call and operand stacks, no effect, and a memory of the given number of zero words |
| `Evaluation.Eval.Run` | crates/stack-assembly/src/eval.rs:157-173 | the `while self.effect.is_none()` loop leaves the state the bounded reference run reaches, and returns the effect field |
| `Evaluation.Eval.StepWithin` | crates/stack-assembly/src/eval.rs:158-160 | one turn of `run`'s loop turns a run with n steps left into one with n-1 left, from the new state |
| `Evaluation.Eval.Step` | crates/stack-assembly/src/eval.rs:187-195 | `step` changes nothing while an effect is active; otherwise it evaluates the next operator and stores the effect it triggers, as `Machine.Step` does |
| `Evaluation.Eval.EvaluateNextOperator` | crates/stack-assembly/src/eval.rs:197-203 | fetches the operator, or reports `OutOfOperators`; moves the cursor past it before evaluating it; reports what `Machine.EvaluateNext` reports and reaches its state |
| `Evaluation.Eval.EvaluateOperator` | crates/stack-assembly/src/eval.rs:204-405 | the match on the operator's kind: a builtin, an integer to push, or a reference to resolve |
| `Evaluation.Eval.EvaluateReference` | crates/stack-assembly/src/eval.rs:399-402 | pushes the resolved operator index, or reports `InvalidReference` with the stack unchanged |
| `Evaluation.Eval.EvaluateIdentifier` | crates/stack-assembly/src/eval.rs:392-394 | an identifier that names no builtin reports `UnknownIdentifier`; any other is dispatched to its builtin |
| `Evaluation.Eval.EvaluateBuiltin` | crates/stack-assembly/src/eval.rs:206-391 | the chain of identifier comparisons: each builtin leaves the state and reports the effect that `Machine.EvaluateBuiltin` gives |
| `Evaluation.Eval.PopOperand` | crates/stack-assembly/src/eval.rs:207-208 | `operand_stack.pop()?`: the top word and the stack without it, or `OperandStackUnderflow` with nothing changed |
| `Evaluation.Eval.Binary` | crates/stack-assembly/src/eval.rs:206-305 | the two-operand operators pop `b`, then `a`, and push the result for `a` and `b`; underflow leaves what was popped popped |
| `Evaluation.Eval.Unary` | crates/stack-assembly/src/eval.rs:274-285 | `count_ones`, `leading_zeros` and `trailing_zeros` pop one word and push its count |
| `Evaluation.Eval.Divide` | crates/stack-assembly/src/eval.rs:221-233 | pops both operands, then checks for a zero divisor and then for `i32::MIN / -1`, and pushes the quotient and then the remainder |
| `Evaluation.Eval.Shuffle` | crates/stack-assembly/src/eval.rs:306-338 | `copy` and `drop` pop an index, convert it, then push a copy of that value or remove it |
| `Evaluation.Eval.Jump` | crates/stack-assembly/src/eval.rs:339-342 | pops the target into the cursor |
| `Evaluation.Eval.JumpIf` | crates/stack-assembly/src/eval.rs:343-349 | pops the target, then the condition, and jumps only on a non-zero condition |
| `Evaluation.Eval.Call` | crates/stack-assembly/src/eval.rs:350-355 | pushes the cursor onto the call stack before popping the target |
| `Evaluation.Eval.CallEither` | crates/stack-assembly/src/eval.rs:356-366 | pushes the cursor, then pops the else target, the then target and the condition |
| `Evaluation.Eval.Return` | crates/stack-assembly/src/eval.rs:367-372 | resumes at the popped return address, or reports `Return` on an empty call stack |
| `Evaluation.Eval.Assert` | crates/stack-assembly/src/eval.rs:373-378 | pops the condition and reports `AssertionFailed` when it is zero |
| `Evaluation.Eval.Read` | crates/stack-assembly/src/eval.rs:381-386 | pops the address and pushes the word stored there, or reports `InvalidAddress` |
| `Evaluation.Eval.Write` | crates/stack-assembly/src/eval.rs:387-391 | pops the value, then the address, and stores the value there, or reports `InvalidAddress` |
| `Machine.ConvertIndex` | crates/stack-assembly/src/eval.rs:409-427 | `convert_operand_stack_index` succeeds exactly when the index from the top is below the length, giving `len - 1 - index`; otherwise `InvalidOperandStackIndex` |
| `Machine.RunStep` | crates/stack-assembly/src/eval.rs:158-160 | with no effect and steps left, `run` is one `step` followed by the rest of the run |
| `Machine.RunStops` | crates/stack-assembly/src/eval.rs:158 | `run` on a state with an active effect returns that state unchanged |
| `MachineProperties.Dispatch` | crates/stack-assembly/src/eval.rs:201-205 | an identifier naming a builtin is evaluated as that builtin, with the cursor already one further |
| `MachineProperties.ActiveEffectBlocksStep` | crates/stack-assembly/src/eval.rs:187-190 | with an effect active, `step` changes nothing: not the cursor, the stacks or the memory |
| `MachineProperties.EvaluateKeepsEffect` | crates/stack-assembly/src/eval.rs:192-194 | evaluating an operator never writes the `effect` field; only `step` stores the effect |
| `MachineProperties.BuiltinKeepsEffect` | crates/stack-assembly/src/eval.rs:206-391 | no builtin writes the `effect` field, and no builtin but `write` changes the memory |
| `MachineProperties.RunAdvances` | crates/stack-assembly/src/eval.rs:157-160 | with no effect and steps left, a run is the run from the next state with one step fewer, for any number of extra steps |
| `MachineProperties.RunStable` | crates/stack-assembly/src/eval.rs:157-173 | once a run has stopped on an effect, more steps do not change its result |
| `MachineProperties.RunStopsOnEffect` | crates/stack-assembly/src/eval.rs:158-160 | a run that has not stopped on an effect has gone on past a step that triggered nothing |
| `MachineProperties.CursorAdvancesBeforeDispatch` | crates/stack-assembly/src/eval.rs:201-202 | after evaluating the operator at `i`, the cursor is `i + 1` unless a successful jump, call or return set it; a failing or yielding operator leaves it at `i + 1` |
| `MachineProperties.BuiltinCursor` | crates/stack-assembly/src/eval.rs:339-372 | only a successful `jump`, `jump_if`, `call`, `call_either` or `return` moves the cursor |
| `MachineProperties.OutOfOperatorsPastEnd` | crates/stack-assembly/src/tests/evaluation.rs:3-14 | past the last operator, `step` triggers `OutOfOperators` and changes nothing else |
| `MachineProperties.WrappingArithmetic` | crates/stack-assembly/src/eval.rs:206-220 | `+`, `-` and `*` on the top two words push their sum, difference or product modulo 2^32 and never fail |
| `MachineProperties.UnderflowExactly` | crates/stack-assembly/src/effect.rs:99-103 | `OperandStackUnderflow` triggers exactly when a builtin needs more operands than the stack holds; the stack then ends empty, and only `call` and `call_either` have pushed a return address |
| `MachineProperties.DivideSpec` | crates/stack-assembly/src/eval.rs:221-233 | a zero divisor gives `DivisionByZero` and `i32::MIN / -1` gives `IntegerOverflow`, both with the operands consumed and nothing pushed; otherwise quotient `q` and remainder `r` satisfy `q*b + r = a` and `\|r\| < \|b\|`, and `r` has the sign of `a` |
| `MachineProperties.IntegerOverflowOnlyFromDivide` | crates/stack-assembly/src/effect.rs:70-78 | `IntegerOverflow` comes only from `/` applied to `i32::MIN` and `-1` |
| `MachineProperties.ComparisonIsBoolean` | crates/stack-assembly/src/eval.rs:234-258 | the comparisons push one or zero |
| `MachineProperties.EqualComparesBits` | crates/stack-assembly/src/eval.rs:244-248 | `=` pushes one exactly when the two words have the same bits |
| `MachineProperties.ComparisonDuality` | crates/stack-assembly/src/eval.rs:234-258 | the comparisons are the signed order: `>` is `<` swapped, and `<=` and `>=` negate `>` and `<` |
| `MachineProperties.BitwiseSpec` | crates/stack-assembly/src/eval.rs:259-273 | `and`, `or` and `xor` combine the two words bit by bit |
| `MachineProperties.RotateInverse` | crates/stack-assembly/src/eval.rs:286-295 | `rotate_right` by a count undoes `rotate_left` by the same count |
| `MachineProperties.ShiftLeftMultiplies` | crates/stack-assembly/src/eval.rs:296-300 | `shift_left` multiplies the bits by two to the power of the count modulo 32, wrapping |
| `MachineProperties.BitCounts` | crates/stack-assembly/src/eval.rs:274-285 | `count_ones` is at most 32 and is zero only for zero; `leading_zeros` is 32 only for zero; `trailing_zeros` is at most 32 |
| `MachineProperties.CopySpec` | crates/stack-assembly/src/eval.rs:306-327 | `copy` pops index `i`; if `i` is below the remaining length, it pushes the value `i` places below the top and changes nothing else; otherwise `InvalidOperandStackIndex` with the index consumed |
| `MachineProperties.DropSpec` | crates/stack-assembly/src/eval.rs:328-338 | `drop` pops index `i` and removes exactly the value `i` places below the top; the others keep their order, and the multiset loses just that value; otherwise `InvalidOperandStackIndex` |
| `MachineProperties.JumpIfSpec` | crates/stack-assembly/src/eval.rs:343-349 | `jump_if` consumes both operands and jumps exactly on a non-zero condition |
| `MachineProperties.CallPushesReturnAddress` | crates/stack-assembly/src/eval.rs:350-355 | `call` pushes the incremented cursor even when the target is missing; with a target it continues there |
| `MachineProperties.CallEitherSpec` | crates/stack-assembly/src/eval.rs:356-366 | `call_either` pushes the incremented cursor first; with fewer than three operands it underflows; otherwise it consumes all three and continues at the then target on a non-zero condition and at the else target otherwise |
| `MachineProperties.CallEitherPops` | crates/stack-assembly/src/eval.rs:357-366 | the same, for `call_either` applied to a state directly |
| `MachineProperties.ReturnSpec` | crates/stack-assembly/src/eval.rs:367-372 | `return` pops the call stack and continues at that address, or triggers `Return` on an empty call stack and changes nothing |
| `MachineProperties.CallThenReturn` | crates/stack-assembly/src/eval.rs:350-372 | a `return` on the call stack a `call` left resumes at the operator after the `call`, with the call stack as before |
| `MachineProperties.ReturnAfterCall` | crates/stack-assembly/src/eval.rs:367-372 | `return` with the call stack extended by one address continues there and restores the call stack |
| `MachineProperties.AssertSpec` | crates/stack-assembly/src/eval.rs:373-378 | `assert` triggers `AssertionFailed` exactly on a zero input; either way it only consumes that input |
| `MachineProperties.YieldResumes` | crates/stack-assembly/src/effect.rs:23-56 | `yield` triggers `Yield` and touches no stack; once the host clears it, the state is exactly the one with the operator after the `yield` next and nothing else changed |
| `MachineProperties.ReadSpec` | crates/stack-assembly/src/tests/memory.rs:3-34 | in bounds, `read` pushes the stored word and leaves memory as it was; out of bounds, `InvalidAddress` with the address consumed |
| `MachineProperties.WriteSpec` | crates/stack-assembly/src/tests/memory.rs:36-66 | `write` pops the value, then the address, and stores the value there; out of bounds, `InvalidAddress` with both consumed and memory unchanged |
| `MachineProperties.ReadAfterWrite` | crates/stack-assembly/src/eval.rs:381-391 | reading the address just written gives back the written word |
| `MachineProperties.IntegerSpec` | crates/stack-assembly/src/eval.rs:396-398 | an integer literal pushes exactly its value and changes nothing else but the cursor |
| `MachineProperties.IntegerU32Spec` | crates/stack-assembly/src/script.rs:9-13 | a literal made by `integer_u32(v)` pushes the word whose `u32` reading is `v` |
| `MachineProperties.ReferenceSpec` | crates/stack-assembly/src/eval.rs:399-402 | a reference pushes the operator index of the first label of its name; with no such label it triggers `InvalidReference` and pushes nothing |
| `MachineProperties.JumpToLabel` | crates/stack-assembly/src/tests/control_flow.rs:3-22 | `@name jump` continues at the operator the label names, with the operand stack as before |
| `MachineProperties.UnknownIdentifierSpec` | crates/stack-assembly/src/effect.rs:119-123 | an identifier that is no operation's mnemonic triggers `UnknownIdentifier`, with the stacks as they were |
| `MachineProperties.BuiltinEffectsAsDocumented` | crates/stack-assembly/src/effect.rs:57-129 | any effect a builtin triggers comes with its documented condition: a zero `assert` input, a zero divisor, `MIN / -1`, an address at or past the memory's end for `read`/`write`, an index at or past the remaining depth for `copy`/`drop`, too few operands, `return` on an empty call stack, `yield` |
| `MachineProperties.EffectsAsDocumented` | crates/stack-assembly/src/effect.rs:57-129 | the same for any operator, adding `OutOfOperators` past the end, `InvalidReference` for a reference to a name no label has, and `UnknownIdentifier` for unknown identifiers; an integer literal triggers nothing |
| `Effects.AllEffectsComplete` | crates/stack-assembly/src/effect.rs:57-129 | `Effect` has exactly eleven kinds, all listed |
| `Effects.EffectKinds` | crates/stack-assembly/src/effect.rs:105-117 | every effect is exactly one of an error, a regular end (`OutOfOperators` or `Return`) or `Yield` |
| `OperandStacks.OperandStack.constructor` | crates/stack-assembly/src/operand_stack.rs:14-18 | the default stack is empty |
| `OperandStacks.OperandStack.Push` | crates/stack-assembly/src/operand_stack.rs:21-24 | the value becomes the new top, and nothing else changes |
| `OperandStacks.OperandStack.Pop` | crates/stack-assembly/src/operand_stack.rs:30-32 | returns the top value and removes only it; on an empty stack, `OperandStackUnderflow` and the stack stays empty |
| `OperandStacks.OperandStack.ToI32Slice` | crates/stack-assembly/src/operand_stack.rs:34-37 | same length and order, and each element is the stored word read as `i32` |
| `OperandStacks.OperandStack.ToU32Slice` | crates/stack-assembly/src/operand_stack.rs:39-42 | same length and order, and each element is the stored word read as `u32` |
| `OperandStacks.UnderflowEffect` | crates/stack-assembly/src/operand_stack.rs:51-55 | `OperandStackUnderflow` converts to the effect of the same name |
| `OperandStacks.I32sU32s` | crates/stack-assembly/src/operand_stack.rs:34-42 | the two views of the stack hold the same bits element by element |
| `OperandStacks.PushPop` | crates/stack-assembly/src/operand_stack.rs:21-32 | popping right after a push returns the pushed value and restores the stack |
| `Values.Value.ToI32` | crates/stack-assembly/src/value.rs:27-33 | the signed reading has exactly the stored bits |
| `Values.Value.ToUsize` | crates/stack-assembly/src/value.rs:43-70 | on a target whose `usize` has at least 32 bits, the same number as `to_u32` |
| `Values.Value.ToBool` | crates/stack-assembly/src/eval.rs:343-349 | a condition holds exactly when the word is non-zero |
| `Values.FromI32` | crates/stack-assembly/src/value.rs:73-78 | `Value::from(x).to_i32() == x` for every `i32` |
| `Values.FromU32` | crates/stack-assembly/src/value.rs:80-84 | `Value::from(x).to_u32() == x` for every `u32` |
| `Values.FromBool` | crates/stack-assembly/src/eval.rs:234-238 | a pushed comparison result is one for true and zero for false |
| `Values.Debug` | crates/stack-assembly/src/value.rs:86-92 | the canonical decimal digits of the stored `u32` |
| `Values.SignedReading` | crates/stack-assembly/src/value.rs:27-41 | `to_i32` is `to_u32` below 2^31, and `to_u32 - 2^32` from there on |
| `Values.FromToI32` | src/value.rs:48-53 | converting the `i32` reading back gives the same word |
| `Values.FromToU32` | src/value.rs:55-59 | converting the `u32` reading back gives the same word |
| `Values.SameWord` | src/stack.rs:64-75 | an `i32` and a `u32` make the same word exactly when they have the same bits |
| `Values.EqualAsI32` | crates/stack-assembly/src/eval.rs:244-248 | two words are equal exactly when their `i32` readings are |
| `Values.DebugParse` | src/value.rs:61-66 | the printed digits parse back to the stored `u32` |
| `Values.RemoveAt` | crates/stack-assembly/src/eval.rs:338 | removing one element keeps those below it, moves those above it down by one, and takes exactly that element out of the multiset |
| `Memories.Memory.constructor` | crates/stack-assembly/src/memory.rs:16-19 | a memory of the given number of zero words |
| `Memories.Memory.ToU32Slice` | crates/stack-assembly/src/memory.rs:21-26 | same length and address order, and each element is the stored word read as `u32` |
| `Memories.Memory.Read` | crates/stack-assembly/src/eval.rs:381-386 | the word at an address inside the memory, otherwise `InvalidAddress` |
| `Memories.Memory.Write` | crates/stack-assembly/src/eval.rs:387-391 | stores the word at an address inside the memory and changes no other word; otherwise `InvalidAddress` and no change |
| `Memories.Memory.Fmt` | crates/stack-assembly/src/memory.rs:28-48 | the peekable-iterator loop prints `[`, the words in decimal separated by `, ` with none after the last, and `]`; an empty memory prints `[]` |
| `Memories.Join` | crates/stack-assembly/src/memory.rs:35-43 | the joined words are empty exactly when there are none, and otherwise end in a digit |
| `Memories.ParseItemsJoin` | crates/stack-assembly/src/memory.rs:35-43 | the separator-joined decimal words parse back to the stored numbers, in order |
| `Memories.ParseDebugList` | crates/stack-assembly/src/memory.rs:28-48 | the `Debug` output determines the memory's contents: it parses back to the stored numbers |
| `Scripts.IntegerU32` | crates/stack-assembly/src/script.rs:9-13 | `integer_u32(v)` is an integer literal whose bits are `v` |
| `Scripts.FirstLabel` | src/lib.rs:486-487 | the first label with the name, if one exists: no earlier label has the name, and there is none exactly when no label has it |
| `Scripts.Script.GetOperator` | crates/stack-assembly/src/tests/evaluation.rs:3-14 | the operator at an index below the operator count, otherwise `OutOfOperators` |
| `Scripts.Script.ResolveReference` | crates/stack-assembly/src/tests/control_flow.rs:150-162 | the operator index of the first label with the name, or `InvalidReference` exactly when no label has it |
| `Builtins.Parse` | crates/stack-assembly/src/eval.rs:205-394 | the comparison chain: whatever operation it finds has the identifier as its mnemonic |
| `Builtins.ParseMnemonic` | crates/stack-assembly/src/eval.rs:205-391 | every operation's mnemonic is recognised as that operation, so no two operations share one |
| `Builtins.ParseUnknown` | crates/stack-assembly/src/eval.rs:392-394 | an identifier is unknown exactly when it is no operation's mnemonic |
| `Builtins.ParseLegacy` | src/lib.rs:303-480 | the single-file interpreter's chain of comparisons: an identifier is recognised as an operation exactly when it is that operation's mnemonic and the operation is not `call`, `call_either`, `return` or `assert` |
| `Int32.WrappingAddSameBits` | crates/stack-assembly/src/eval.rs:211-215 | `i32::wrapping_add` and `u32::wrapping_add` produce the same bits |
| `Int32.WrappingSubSameBits` | crates/stack-assembly/src/eval.rs:216-220 | `i32::wrapping_sub` and `u32::wrapping_sub` produce the same bits |
| `Int32.WrappingMulSameBits` | crates/stack-assembly/src/eval.rs:206-210 | `i32::wrapping_mul` and `u32::wrapping_mul` produce the same bits |
| `Int32.TruncDivRem` | crates/stack-assembly/src/eval.rs:232-233 | Rust's `/` and `%` give `q*b + r = a` with `\|r\| < \|b\|` and `r` of the sign of `a` |
| `Int32.TruncDivInRange` | crates/stack-assembly/src/eval.rs:228-233 | apart from `i32::MIN / -1`, the quotient and remainder of two `i32` fit in an `i32` |
| `Int32.RotateRightLeft` | src/lib.rs:403-416 | rotating a `u32` right undoes rotating it left by the same count |
| `Int32.RotateLeftRight` | src/lib.rs:403-416 | rotating a `u32` left undoes rotating it right by the same count |
| `Int32.RotateRightLeftI32` | crates/stack-assembly/src/eval.rs:286-295 | the same for an `i32`, rotated as its bits |
| `Int32.ShiftLeftIsMultiplication` | crates/stack-assembly/src/eval.rs:296-300 | `a << n` is wrapping multiplication by 2^(n mod 32) |
| `Int32.ShiftRight` | crates/stack-assembly/src/eval.rs:301-305 | `a >> n` is an arithmetic shift: it keeps the sign of `a` and never grows its magnitude |
| `Int32.CountOnesU32` | crates/stack-assembly/src/eval.rs:274-277 | `count_ones` is at most 32, and zero exactly for zero |
| `Int32.LeadingZeros` | crates/stack-assembly/src/eval.rs:278-281 | `leading_zeros` is 32 minus the bit length: at most 32, and 32 exactly for zero |
| `Int32.TrailingZerosU32` | crates/stack-assembly/src/eval.rs:282-285 | `trailing_zeros` is at most 32; the bits below it are clear and the bit at it is set |
| `Int32.BitwiseU32` | crates/stack-assembly/src/eval.rs:259-273 | each bit of `&`, `\|` and `^` is the operation on the same bit of both words |
| `Decimal.ValueOfFormat` | crates/stack-assembly/src/value.rs:86-92 | the printed digits denote the number printed |
| `Decimal.FormatValueOf` | src/value.rs:61-66 | printing the number a canonical digit string denotes gives that string back |
| `LegacyCompiler.TokenLength` | src/lib.rs:223 | the run of non-whitespace characters a string starts with ends at whitespace or at the end |
| `LegacyCompiler.SplitWhitespaceTokens` | src/lib.rs:223 | `split_whitespace` yields non-empty tokens without whitespace, which together are the script's non-whitespace characters, in order |
| `LegacyCompiler.SplitSpaced` | src/lib.rs:223 | splitting tokens joined by single spaces gives the tokens back |
| `LegacyCompiler.LastIndexOf` | src/lib.rs:224 | the last occurrence of the character, or none exactly when it does not occur |
| `LegacyCompiler.FirstIndexOf` | src/lib.rs:230 | the first occurrence of the character, or none exactly when it does not occur |
| `LegacyCompiler.ParseI32` | src/lib.rs:234 | an accepted token ends in a digit and holds no colon, `@` or whitespace |
| `LegacyCompiler.ParseI32Value` | src/lib.rs:234 | an optional sign and digits parse to the signed value of the digits when it fits in an `i32`, and to nothing otherwise |
| `LegacyCompiler.ParseFormatI32` | src/lib.rs:234 | every `i32` printed in decimal parses back to itself |
| `LegacyCompiler.ClassifySpec` | src/lib.rs:224-240 | a token is a label exactly when it ends in `:`, named by what precedes that colon; otherwise a reference exactly when it starts with `@`, naming the rest; otherwise an integer if it parses as `i32`, and an identifier with its text if it does not |
| `LegacyCompiler.ClassifyFormatI32` | src/lib.rs:234-235 | a printed `i32` compiles to that integer literal |
| `LegacyCompiler.ClassifiedAppend` | src/lib.rs:223 | tokens are classified one at a time, independently of each other |
| `LegacyCompiler.AssembleOperators` | src/lib.rs:219-243 | the compiled operators are exactly the operators of the non-label tokens, in order |
| `LegacyCompiler.AssembleLabelNames` | src/lib.rs:224-229 | the compiled labels carry the names of the label tokens, in order |
| `LegacyCompiler.AssembleLabelsOrdered` | src/lib.rs:224-229 | label indices never decrease and never exceed the operator count |
| `LegacyCompiler.AssembleExtends` | src/lib.rs:223-243 | compiling more tokens only appends operators and labels |
| `LegacyCompiler.AssembleLabelIndex` | src/lib.rs:225-228 | a label token records the number of operators assembled before it |
| `LegacyCompiler.LabelIndex` | src/lib.rs:224-229 | in any script, a label names the operator compiled from the token after it: its index is the number of operators before it |
| `LegacyEvaluation.CompileTokens` | src/lib.rs:220-243 | the loop over tokens builds exactly the operators and labels of `Compile` |
| `LegacyEvaluation.Eval.Start` | src/lib.rs:219-255 | compiles the script, and the operators are exactly those of its non-label tokens, with ordered labels; cursor 0, no effect, an empty stack and 1024 zero words |
| `LegacyEvaluation.Eval.Run` | src/lib.rs:268-272 | the `while` loop leaves the state the bounded reference run reaches |
| `LegacyEvaluation.Eval.StepWithin` | src/lib.rs:269-271 | one turn of the loop leaves a run with one step fewer |
| `LegacyEvaluation.Eval.Step` | src/lib.rs:287-295 | nothing while an effect is active; otherwise evaluate, and store the effect that triggered |
| `LegacyEvaluation.Eval.EvaluateNextOperator` | src/lib.rs:297-517 | `OutOfTokens` past the end; otherwise evaluate the operator and move the cursor only at the end, after success |
| `LegacyEvaluation.Eval.EvaluateBuiltin` | src/lib.rs:303-480 | each builtin leaves the state and reports the effect that `LegacyMachine.EvaluateBuiltin` gives |
| `LegacyEvaluation.Eval.PopValue` | src/lib.rs:305-306 | `stack.pop()?`: the top word, or `StackUnderflow` |
| `LegacyEvaluation.Eval.Binary` | src/lib.rs:304-430 | the two-operand operators pop `b`, then `a`, and push the result |
| `LegacyEvaluation.Eval.Unary` | src/lib.rs:391-402 | the bit counts pop one word and push its count |
| `LegacyEvaluation.Eval.Divide` | src/lib.rs:319-334 | checked signed division, pushing the quotient and then the remainder |
| `LegacyEvaluation.Eval.Copy` | src/lib.rs:431-434 | pops an index and pushes the value that deep, or `InvalidStackIndex` |
| `LegacyEvaluation.Eval.Drop` | src/lib.rs:435-437 | pops an index and removes the value that deep, or `InvalidStackIndex` |
| `LegacyEvaluation.Eval.Jump` | src/lib.rs:438-445 | pops the target into the cursor, bypassing the increment |
| `LegacyEvaluation.Eval.JumpIf` | src/lib.rs:446-457 | jumps on a non-zero condition, bypassing the increment; otherwise falls through to it |
| `LegacyEvaluation.Eval.Read` | src/lib.rs:460-468 | pushes the word at an address inside the memory, otherwise `InvalidAddress` |
| `LegacyEvaluation.Eval.Write` | src/lib.rs:469-477 | stores the value at an address inside the memory, otherwise `InvalidAddress` |
| `LegacyMachine.SameResultsAsEvaluator` | src/lib.rs:304-430 | reading the operands as `u32` here and as `i32` in the evaluator crate makes no difference: every binary and unary operator pushes the same bits |
| `LegacyMachine.RunStep` | src/lib.rs:268-272 | with no effect and steps left, `run` is one step followed by the rest of the run |
| `LegacyMachine.RunStops` | src/lib.rs:269 | `run` on a state with an active effect returns it unchanged |
| `LegacyMachine.BuiltinCursor` | src/lib.rs:438-457 | a builtin that triggers an effect leaves the cursor where it was; one that succeeds moves it on by one, unless it is `jump` or a taken `jump_if` |
| `LegacyMachine.CursorOnEffect` | src/lib.rs:297-516 | any effect, `Yield` and `OutOfTokens` included, leaves the cursor on the operator that triggered it |
| `LegacyMachine.YieldRepeats` | src/lib.rs:186-193 | after `yield`, a host that only clears the effect sees the same `yield` trigger again; it must move the cursor on itself |
| `LegacyMachine.UnknownIdentifierSpec` | src/lib.rs:478-480 | an identifier triggers `UnknownIdentifier` exactly when it is no legacy mnemonic (so also `assert`, `call`, `call_either`, `return`), and then cursor, stack and memory are unchanged |
| `LegacyMachine.ReferenceSpec` | src/lib.rs:485-510 | a reference pushes the index of the first label with its name and moves on, or triggers `InvalidReference` |
| `LegacyMachine.DivideAsEvaluator` | src/lib.rs:319-334 | `/` triggers the same effects under their old names, and pushes the same words, as in the evaluator crate |
| `LegacyMachine.WrappingArithmetic` | src/lib.rs:304-318 | `+`, `-` and `*` wrap as `u32` arithmetic and never fail on two operands |
| `LegacyMachine.CopySpec` | src/lib.rs:431-434 | `copy` pushes the value `i` places below the remaining top, or fails with `InvalidStackIndex` exactly when there is none |
| `LegacyMachine.DropSpec` | src/lib.rs:435-437 | `drop` removes exactly the value `i` places below the remaining top, keeping the order of the rest, or fails with `InvalidStackIndex` exactly when there is none |
| `LegacyEffects.RenamedInjective` | src/lib.rs:557-586 | each of the nine legacy effects has its own counterpart in the evaluator crate, and none of them is `AssertionFailed` or `Return` |
| `LegacyEffects.RenamedOnto` | src/lib.rs:557-586 | every effect of the evaluator crate except `AssertionFailed` and `Return` has a legacy counterpart |
| `LegacyStacks.Stack.constructor` | src/lib.rs:250 | `start`'s stack is empty |
| `LegacyStacks.Stack.Push` | src/stack.rs:11-14 | the value becomes the new top |
| `LegacyStacks.Stack.Pop` | src/stack.rs:16-19 | returns and removes the most recently pushed value; on an empty stack, `StackUnderflow` and no change |
| `LegacyStacks.Stack.ToU32Slice` | src/stack.rs:21-24 | same length and order, and each element is the stored word read as `u32` |
| `LegacyStacks.Stack.Get` | src/lib.rs:431-434 | the value `index_from_top` places below the top, or `InvalidStackIndex` exactly when there is none |
| `LegacyStacks.Stack.Remove` | src/lib.rs:435-437 | deletes exactly the value `index_from_top` places below the top, keeping the others in order; `InvalidStackIndex` and no change when there is none |
| `LegacyStacks.UnderflowEffect` | src/stack.rs:83-87 | `StackUnderflow` converts to the effect of the same name |
| `LegacyStacks.IndexEffect` | src/lib.rs:572-573 | an invalid index converts to `InvalidStackIndex` |
| `LegacyStacks.FromBottom` | src/lib.rs:431-437 | the index from the top is valid exactly below the height, and counts `len - 1 - index` from the bottom |
| `LegacyStacks.CopyThenRemove` | src/lib.rs:431-437 | removing the top after pushing a copy of the value `i` deep restores the stack |

## Left out

- `Machine.Run`: `run` may loop forever. The model's `run` therefore takes a bound on its steps. The model states what `run` has done after at most that many steps, and that it stops only on an effect (`RunStopsOnEffect`, `RunStable`). It does not state what `run` would do without the bound.
- `Evaluation.Eval.Run`: it returns `None` when the bound runs out before an effect triggers. The source's `run` always returns an effect.
- In-place update in the evaluator crate: the operand stack and the call stack are modelled as sequences that are reassigned. Memory is an array that is updated in place.
- Shifts: `shift_left` and `shift_right` with an amount outside 0..31 panic in a debug build of the source. The model follows a release build, which uses the amount modulo 32.
- `to_usize` panics on a target whose `usize` is narrower than 32 bits. The model assumes a 64-bit target.
- Label indices: the single-file interpreter panics on a reference to a label whose index does not fit in a `u32`. The model requires every label index to fit (`ReferencesFit`).
- Not shown in the evaluator crate: `Script::compile`, `Script::get_operator`, `Script::resolve_reference`, `Memory::read`/`write`, `Value::to_bool` and `From<bool> for Value`. They are given bodies that do what the crate's tests assert. `resolve_reference` takes the first label of the name, as the single-file interpreter does.
- `Script::compile` of the evaluator crate, with its `#` comments and hexadecimal literals, is not part of this model. As a result, the model does not state that an out-of-range number becomes an unknown identifier. Only the single-file interpreter's compiler is modelled.
- `Eval::new`'s memory size is a parameter, because `Memory`'s `Default` is not shown. The tests show only that it is below 1025 words.
- Legacy `Stack::get` and `Stack::remove` are not shown. They are given the index-from-the-top behaviour that `copy` and `drop` need.
- `bytemuck::cast_slice` in the `to_*_slice` views is modelled as an element-wise map of the word readings.
- Host I/O: `src/main.rs` and the example host are not part of this model (argument parsing, file reading, printing, sleeping, exiting). So are the module wiring and prose in `crates/stack-assembly/src/lib.rs`.
- `src/effect.rs` is not declared as a module of the single-file interpreter, and duplicates its inline `Effect` enum. `src/memory.rs` is a bare struct, folded into `LegacyEvaluation.Eval` as a 1024-word array.
- Tests that disagree with the code were not followed. `src/tests/integers.rs:30-52` expects an effect where the code compiles an identifier. `src/tests/control_flow.rs:3-20` expects the cursor to move on after an effect. `src/tests/comments.rs:3-31` expects `#` comments to be skipped, but `start` compiles `#` as an identifier, which triggers `UnknownIdentifier`. `src/tests/assert.rs` expects an `assert` operation and an `AssertionFailed` effect; the interpreter has neither, so `assert` triggers `UnknownIdentifier`. Many tests (for example `src/tests/comparison.rs`, `src/tests/memory.rs`, `src/tests/control_flow.rs`) expect `OutOfOperators` at the end of a script, but the interpreter's effect is `OutOfTokens`. The model follows the code in all these cases.
- The evaluator crate's tests and the example in `effect.rs` take a pair from `run` and call `clear_effect`. Neither appears in `eval.rs`, where `run` returns the effect and the host clears the `effect` field itself. The model follows `eval.rs`.
- Empty label names: the single-file interpreter accepts a lone `:` as a label with an empty name, and the model keeps this.
- `Debug` for a `u32` and `str::parse::<i32>` are Rust library code. They are modelled as decimal printing and parsing of ASCII digits with an optional sign.
- `MachineProperties.CallThenReturn`: this is stated for the `return` applied directly on the state that the `call` leaves. Operators evaluated in the callee between the two are not part of it.
