/**
 * The vocabulary of built-in operations an identifier can name. Both
 * interpreters compare the identifier text against this fixed list of
 * mnemonics; the legacy one knows all but the four call-stack and assertion
 * operations.
 */
module Builtins {

  import opened Wrappers

  datatype Builtin =
    | Multiply | Add | Subtract | Divide
    | Less | LessOrEqual | Equal | Greater | GreaterOrEqual
    | And | Or | Xor
    | CountOnes | LeadingZeros | TrailingZeros
    | RotateLeft | RotateRight | ShiftLeft | ShiftRight
    | Copy | Drop
    | Jump | JumpIf | Call | CallEither | Return
    | Assert | Yield
    | Read | Write

  /** The identifier that names each operation. */
  function Mnemonic(b: Builtin): string
  {
    match b
    case Multiply => "*"
    case Add => "+"
    case Subtract => "-"
    case Divide => "/"
    case Less => "<"
    case LessOrEqual => "<="
    case Equal => "="
    case Greater => ">"
    case GreaterOrEqual => ">="
    case And => "and"
    case Or => "or"
    case Xor => "xor"
    case CountOnes => "count_ones"
    case LeadingZeros => "leading_zeros"
    case TrailingZeros => "trailing_zeros"
    case RotateLeft => "rotate_left"
    case RotateRight => "rotate_right"
    case ShiftLeft => "shift_left"
    case ShiftRight => "shift_right"
    case Copy => "copy"
    case Drop => "drop"
    case Jump => "jump"
    case JumpIf => "jump_if"
    case Call => "call"
    case CallEither => "call_either"
    case Return => "return"
    case Assert => "assert"
    case Yield => "yield"
    case Read => "read"
    case Write => "write"
  }

  /** The arithmetic operations. */
  function ParseArithmetic(identifier: string): (r: Option<Builtin>)
    ensures r.Some? ==> Mnemonic(r.value) == identifier
  {
    if identifier == "*" then Some(Multiply)
    else if identifier == "+" then Some(Add)
    else if identifier == "-" then Some(Subtract)
    else if identifier == "/" then Some(Divide)
    else None
  }

  /** The comparisons. */
  function ParseComparison(identifier: string): (r: Option<Builtin>)
    ensures r.Some? ==> Mnemonic(r.value) == identifier
  {
    if identifier == "<" then Some(Less)
    else if identifier == "<=" then Some(LessOrEqual)
    else if identifier == "=" then Some(Equal)
    else if identifier == ">" then Some(Greater)
    else if identifier == ">=" then Some(GreaterOrEqual)
    else None
  }

  /** The bit operations. */
  function ParseBitwise(identifier: string): (r: Option<Builtin>)
    ensures r.Some? ==> Mnemonic(r.value) == identifier
  {
    if identifier == "and" then Some(And)
    else if identifier == "or" then Some(Or)
    else if identifier == "xor" then Some(Xor)
    else if identifier == "count_ones" then Some(CountOnes)
    else if identifier == "leading_zeros" then Some(LeadingZeros)
    else if identifier == "trailing_zeros" then Some(TrailingZeros)
    else if identifier == "rotate_left" then Some(RotateLeft)
    else if identifier == "rotate_right" then Some(RotateRight)
    else if identifier == "shift_left" then Some(ShiftLeft)
    else if identifier == "shift_right" then Some(ShiftRight)
    else None
  }

  /** The stack shuffling operations. */
  function ParseShuffling(identifier: string): (r: Option<Builtin>)
    ensures r.Some? ==> Mnemonic(r.value) == identifier
  {
    if identifier == "copy" then Some(Copy)
    else if identifier == "drop" then Some(Drop)
    else None
  }

  /** The control-flow operations, `assert` and `yield`. */
  function ParseControl(identifier: string): (r: Option<Builtin>)
    ensures r.Some? ==> Mnemonic(r.value) == identifier
  {
    if identifier == "jump" then Some(Jump)
    else if identifier == "jump_if" then Some(JumpIf)
    else if identifier == "call" then Some(Call)
    else if identifier == "call_either" then Some(CallEither)
    else if identifier == "return" then Some(Return)
    else if identifier == "assert" then Some(Assert)
    else if identifier == "yield" then Some(Yield)
    else None
  }

  /** The memory operations. */
  function ParseMemory(identifier: string): (r: Option<Builtin>)
    ensures r.Some? ==> Mnemonic(r.value) == identifier
  {
    if identifier == "read" then Some(Read)
    else if identifier == "write" then Some(Write)
    else None
  }

  /**
   * The operation an identifier names, compared against the mnemonics in
   * the evaluator's order; `None` for anything else.
   */
  function Parse(identifier: string): (r: Option<Builtin>)
    ensures r.Some? ==> Mnemonic(r.value) == identifier
  {
    var arithmetic := ParseArithmetic(identifier);
    var comparison := ParseComparison(identifier);
    var bitwise := ParseBitwise(identifier);
    var shuffling := ParseShuffling(identifier);
    var control := ParseControl(identifier);
    var memory := ParseMemory(identifier);
    if arithmetic.Some? then arithmetic
    else if comparison.Some? then comparison
    else if bitwise.Some? then bitwise
    else if shuffling.Some? then shuffling
    else if control.Some? then control
    else if memory.Some? then memory
    else None
  }

  /** Each arithmetic mnemonic is recognised as its own operation. */
  lemma ParseArithmeticMnemonics()
    ensures Parse("*") == Some(Multiply) &&
      Parse("+") == Some(Add) &&
      Parse("-") == Some(Subtract) &&
      Parse("/") == Some(Divide)
  {
  }

  /** Each comparison mnemonic is recognised as its own operation. */
  lemma ParseComparisonMnemonics()
    ensures Parse("<") == Some(Less) &&
      Parse("<=") == Some(LessOrEqual) &&
      Parse("=") == Some(Equal) &&
      Parse(">") == Some(Greater) &&
      Parse(">=") == Some(GreaterOrEqual)
  {
  }

  /** Each bitwise mnemonic is recognised as its own operation. */
  lemma ParseBitwiseMnemonics()
    ensures Parse("and") == Some(And) &&
      Parse("or") == Some(Or) &&
      Parse("xor") == Some(Xor) &&
      Parse("count_ones") == Some(CountOnes) &&
      Parse("leading_zeros") == Some(LeadingZeros) &&
      Parse("trailing_zeros") == Some(TrailingZeros) &&
      Parse("rotate_left") == Some(RotateLeft) &&
      Parse("rotate_right") == Some(RotateRight) &&
      Parse("shift_left") == Some(ShiftLeft) &&
      Parse("shift_right") == Some(ShiftRight)
  {
  }

  /** Each shuffling mnemonic is recognised as its own operation. */
  lemma ParseShufflingMnemonics()
    ensures Parse("copy") == Some(Copy) &&
      Parse("drop") == Some(Drop)
  {
  }

  /** Each jump mnemonic is recognised as its own operation. */
  lemma ParseJumpMnemonics()
    ensures Parse("jump") == Some(Jump) &&
      Parse("jump_if") == Some(JumpIf)
  {
  }

  /** Each call-stack mnemonic is recognised as its own operation. */
  lemma ParseCallMnemonics()
    ensures Parse("call") == Some(Call) &&
      Parse("call_either") == Some(CallEither) &&
      Parse("return") == Some(Return)
  {
  }

  /** `assert` and `yield` are recognised as their own operations. */
  lemma ParseHostMnemonics()
    ensures Parse("assert") == Some(Assert) &&
      Parse("yield") == Some(Yield)
  {
  }

  /** Each memory mnemonic is recognised as its own operation. */
  lemma ParseMemoryMnemonics()
    ensures Parse("read") == Some(Read) &&
      Parse("write") == Some(Write)
  {
  }

  /** Every mnemonic is recognised as its own operation, so no two operations share one. */
  lemma ParseMnemonic(b: Builtin)
    ensures Parse(Mnemonic(b)) == Some(b)
  {
    match b
    case Multiply => ParseArithmeticMnemonics();
    case Add => ParseArithmeticMnemonics();
    case Subtract => ParseArithmeticMnemonics();
    case Divide => ParseArithmeticMnemonics();
    case Less => ParseComparisonMnemonics();
    case LessOrEqual => ParseComparisonMnemonics();
    case Equal => ParseComparisonMnemonics();
    case Greater => ParseComparisonMnemonics();
    case GreaterOrEqual => ParseComparisonMnemonics();
    case And => ParseBitwiseMnemonics();
    case Or => ParseBitwiseMnemonics();
    case Xor => ParseBitwiseMnemonics();
    case CountOnes => ParseBitwiseMnemonics();
    case LeadingZeros => ParseBitwiseMnemonics();
    case TrailingZeros => ParseBitwiseMnemonics();
    case RotateLeft => ParseBitwiseMnemonics();
    case RotateRight => ParseBitwiseMnemonics();
    case ShiftLeft => ParseBitwiseMnemonics();
    case ShiftRight => ParseBitwiseMnemonics();
    case Copy => ParseShufflingMnemonics();
    case Drop => ParseShufflingMnemonics();
    case Jump => ParseJumpMnemonics();
    case JumpIf => ParseJumpMnemonics();
    case Call => ParseCallMnemonics();
    case CallEither => ParseCallMnemonics();
    case Return => ParseCallMnemonics();
    case Assert => ParseHostMnemonics();
    case Yield => ParseHostMnemonics();
    case Read => ParseMemoryMnemonics();
    case Write => ParseMemoryMnemonics();
  }

  /** An identifier is unknown exactly when it is no operation's mnemonic. */
  lemma ParseUnknown(identifier: string)
    ensures Parse(identifier).None? <==> forall b: Builtin :: Mnemonic(b) != identifier
  {
    if Parse(identifier).None? {
      forall b: Builtin ensures Mnemonic(b) != identifier {
        ParseMnemonic(b);
      }
    }
  }

  /** The operations the legacy interpreter knows. */
  predicate InLegacyVocabulary(b: Builtin)
  {
    !(b.Call? || b.CallEither? || b.Return? || b.Assert?)
  }

  /**
   * The legacy interpreter's lookup: the same comparisons, without the
   * four operations it does not have. An identifier names an operation
   * exactly when it is that operation's mnemonic and the operation is in
   * the legacy vocabulary.
   */
  function ParseLegacy(identifier: string): (r: Option<Builtin>)
    ensures forall b: Builtin :: r == Some(b) <==> InLegacyVocabulary(b) && Mnemonic(b) == identifier
  {
    assert forall b: Builtin :: Parse(identifier) == Some(b) <==> Mnemonic(b) == identifier by {
      forall b: Builtin ensures Mnemonic(b) == identifier ==> Parse(identifier) == Some(b) {
        ParseMnemonic(b);
      }
    }
    match Parse(identifier)
    case Some(b) => if InLegacyVocabulary(b) then Some(b) else None
    case None => None
  }
}
