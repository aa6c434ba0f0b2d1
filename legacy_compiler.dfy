/**
 * How the single-file interpreter compiles a script (`Eval::start`): the
 * script is split on whitespace, and each token becomes a label, a
 * reference, an integer or an identifier, tried in that order. Labels emit
 * no operator; they record the index of the operator that follows them.
 */
module LegacyCompiler {

  import opened Int32
  import opened Wrappers
  import opened Decimal
  import opened Scripts

  // ---------------------------------------------------------------------
  // Splitting on whitespace
  // ---------------------------------------------------------------------

  /** The characters with the Unicode `White_Space` property, on which `split_whitespace` splits. */
  predicate IsWhitespace(c: char)
  {
    ('\U{0009}' <= c <= '\U{000D}') || c == ' ' || c == '\U{0085}' || c == '\U{00A0}' ||
    c == '\U{1680}' || ('\U{2000}' <= c <= '\U{200A}') || c == '\U{2028}' || c == '\U{2029}' ||
    c == '\U{202F}' || c == '\U{205F}' || c == '\U{3000}'
  }

  predicate NoWhitespace(s: string)
  {
    forall i :: 0 <= i < |s| ==> !IsWhitespace(s[i])
  }

  /** What `split_whitespace` yields: a non-empty run of non-whitespace characters. */
  predicate IsToken(t: string)
  {
    t != [] && NoWhitespace(t)
  }

  /** The length of the run of non-whitespace characters `s` starts with. */
  function TokenLength(s: string): (k: nat)
    ensures k <= |s|
    ensures NoWhitespace(s[..k])
    ensures k < |s| ==> IsWhitespace(s[k])
  {
    if s == [] || IsWhitespace(s[0]) then 0
    else
      var k := 1 + TokenLength(s[1..]);
      assert s[..k] == [s[0]] + s[1..][..k - 1];
      k
  }

  /** `split_whitespace`: the maximal runs of non-whitespace characters, in order. */
  function SplitWhitespace(s: string): seq<string>
    decreases |s|
  {
    if s == [] then []
    else if IsWhitespace(s[0]) then SplitWhitespace(s[1..])
    else
      var k := TokenLength(s);
      [s[..k]] + SplitWhitespace(s[k..])
  }

  function Concat(ts: seq<string>): string
  {
    if ts == [] then [] else ts[0] + Concat(ts[1..])
  }

  /** The script with every whitespace character deleted. */
  function Unspaced(s: string): string
  {
    if s == [] then [] else (if IsWhitespace(s[0]) then [] else [s[0]]) + Unspaced(s[1..])
  }

  lemma {:induction false} UnspacedSplit(a: string, b: string)
    requires NoWhitespace(a)
    ensures Unspaced(a + b) == a + Unspaced(b)
    decreases |a|
  {
    if a == [] {
      assert a + b == b;
    } else {
      assert (a + b)[1..] == a[1..] + b;
      UnspacedSplit(a[1..], b);
    }
  }

  /**
   * The tokens are non-empty and free of whitespace, and together they are
   * exactly the script's non-whitespace characters, in order.
   */
  lemma {:induction false} SplitWhitespaceTokens(s: string)
    ensures forall t :: t in SplitWhitespace(s) ==> IsToken(t)
    ensures Concat(SplitWhitespace(s)) == Unspaced(s)
    decreases |s|
  {
    if s == [] {
    } else if IsWhitespace(s[0]) {
      SplitWhitespaceTokens(s[1..]);
    } else {
      var k := TokenLength(s);
      SplitWhitespaceTokens(s[k..]);
      assert s == s[..k] + s[k..];
      UnspacedSplit(s[..k], s[k..]);
      assert ([s[..k]] + SplitWhitespace(s[k..]))[1..] == SplitWhitespace(s[k..]);
    }
  }

  /** Tokens joined by single spaces. */
  function Spaced(ts: seq<string>): string
  {
    if ts == [] then [] else if |ts| == 1 then ts[0] else ts[0] + " " + Spaced(ts[1..])
  }

  lemma {:induction false} TokenLengthOf(t: string, rest: string)
    requires NoWhitespace(t)
    requires rest == [] || IsWhitespace(rest[0])
    ensures TokenLength(t + rest) == |t|
    decreases |t|
  {
    if t != [] {
      assert (t + rest)[1..] == t[1..] + rest;
      TokenLengthOf(t[1..], rest);
    }
  }

  /** Splitting tokens joined by spaces gives back the tokens. */
  lemma {:induction false} SplitSpaced(ts: seq<string>)
    requires forall t :: t in ts ==> IsToken(t)
    ensures SplitWhitespace(Spaced(ts)) == ts
  {
    if ts == [] {
    } else if |ts| == 1 {
      assert ts[0] in ts;
      TokenLengthOf(ts[0], []);
      assert ts[0] + [] == ts[0];
      assert ts[0][|ts[0]|..] == [];
    } else {
      assert ts[0] in ts;
      assert forall t :: t in ts[1..] ==> t in ts;
      var rest := " " + Spaced(ts[1..]);
      var s := ts[0] + rest;
      assert Spaced(ts) == s;
      TokenLengthOf(ts[0], rest);
      assert s[..|ts[0]|] == ts[0];
      assert s[|ts[0]|..] == rest;
      assert rest[1..] == Spaced(ts[1..]);
      SplitSpaced(ts[1..]);
    }
  }

  // ---------------------------------------------------------------------
  // `rsplit_once` and `split_once` on a single character
  // ---------------------------------------------------------------------

  function LastIndexOf(s: string, c: char): (r: Option<nat>)
    ensures r.Some? ==> r.value < |s| && s[r.value] == c
    ensures r.Some? ==> forall j :: r.value < j < |s| ==> s[j] != c
    ensures r.None? <==> forall j :: 0 <= j < |s| ==> s[j] != c
  {
    if s == [] then None
    else if s[|s| - 1] == c then Some(|s| - 1)
    else LastIndexOf(s[..|s| - 1], c)
  }

  function FirstIndexOf(s: string, c: char): (r: Option<nat>)
    ensures r.Some? ==> r.value < |s| && s[r.value] == c
    ensures r.Some? ==> forall j :: 0 <= j < r.value ==> s[j] != c
    ensures r.None? <==> forall j :: 0 <= j < |s| ==> s[j] != c
  {
    if s == [] then None
    else if s[0] == c then Some(0)
    else
      var r := FirstIndexOf(s[1..], c);
      if r.Some? then Some(r.value + 1) else None
  }

  /** `rsplit_once`: the text before and after the last occurrence of `c`. */
  function RSplitOnce(s: string, c: char): Option<(string, string)>
  {
    match LastIndexOf(s, c)
    case None => None
    case Some(i) => Some((s[..i], s[i + 1..]))
  }

  /** `split_once`: the text before and after the first occurrence of `c`. */
  function SplitOnce(s: string, c: char): Option<(string, string)>
  {
    match FirstIndexOf(s, c)
    case None => None
    case Some(i) => Some((s[..i], s[i + 1..]))
  }

  // ---------------------------------------------------------------------
  // `str::parse::<i32>`
  // ---------------------------------------------------------------------

  predicate HasSign(t: string)
  {
    |t| > 0 && (t[0] == '+' || t[0] == '-')
  }

  /**
   * `token.parse::<i32>()`: an optional `+` or `-`, then at least one ASCII
   * digit and nothing else, with a value that fits in an `i32`.
   */
  function ParseI32(t: string): (r: Option<I32>)
    ensures r.Some? ==> |t| > 0 && IsDigit(t[|t| - 1])
    ensures r.Some? ==> forall i :: 0 <= i < |t| ==> t[i] != ':' && t[i] != '@' && !IsWhitespace(t[i])
  {
    if t == [] || (HasSign(t) && |t| == 1) then None
    else
      var digits := if HasSign(t) then t[1..] else t;
      if !AllDigits(digits) then None
      else
        var magnitude: int := ValueOf(digits);
        var value: int := if t[0] == '-' then -magnitude else magnitude;
        if I32_MIN <= value < HALF then Some(value) else None
  }

  /** How `Debug` prints an `i32`: a minus sign for negative values, then the decimal magnitude. */
  function FormatI32(x: I32): string
  {
    if x < 0 then "-" + Format(-(x as int)) else Format(x)
  }

  /** Parsing the printed form of an `i32` gives back that `i32`. */
  lemma ParseFormatI32(x: I32)
    ensures ParseI32(FormatI32(x)) == Some(x)
  {
    var m: nat := if x < 0 then -(x as int) else x;
    var s := Format(m);
    ValueOfFormat(m);
    ParseI32Value(if x < 0 then "-" else "", s);
    assert ("" + s) == s;
  }

  /** A literal is parsed with its sign applied to the value of its digits. */
  lemma ParseI32Value(sign: string, digits: string)
    requires sign == "" || sign == "+" || sign == "-"
    requires digits != [] && AllDigits(digits)
    ensures var magnitude: int := ValueOf(digits);
      var value: int := if sign == "-" then -magnitude else magnitude;
      ParseI32(sign + digits) == if I32_MIN <= value < HALF then Some(value) else None
  {
    var t := sign + digits;
    if sign == "" {
      assert t == digits;
      assert !HasSign(t);
    } else {
      assert t[1..] == digits;
    }
  }

  // ---------------------------------------------------------------------
  // Classifying a token
  // ---------------------------------------------------------------------

  /** What one token contributes to the script: a label, or an operator. */
  datatype Token = LabelToken(name: string) | OperatorToken(operator: Operator)

  /** The chain of `if let` in `start`. */
  function Classify(token: string): Token
  {
    var colon := RSplitOnce(token, ':');
    var at := SplitOnce(token, '@');
    if colon.Some? && colon.value.1 == "" then LabelToken(colon.value.0)
    else if at.Some? && at.value.0 == "" then OperatorToken(Reference(at.value.1))
    else match ParseI32(token)
      case Some(value) => OperatorToken(Integer(value))
      case None => OperatorToken(Identifier(token))
  }

  predicate EndsWithColon(token: string)
  {
    |token| > 0 && token[|token| - 1] == ':'
  }

  predicate StartsWithAt(token: string)
  {
    |token| > 0 && token[0] == '@'
  }

  /**
   * A token is a label exactly when it ends in `:`, named by everything
   * before that colon (which may be empty or hold further colons); then a
   * reference exactly when it starts with `@`, naming everything after it;
   * then an integer exactly when it parses as an `i32`; and otherwise an
   * identifier with the token's text.
   */
  lemma ClassifySpec(token: string)
    ensures Classify(token).LabelToken? <==> EndsWithColon(token)
    ensures EndsWithColon(token) ==> Classify(token) == LabelToken(token[..|token| - 1])
    ensures !EndsWithColon(token) && StartsWithAt(token) ==>
      Classify(token) == OperatorToken(Reference(token[1..]))
    ensures !EndsWithColon(token) && !StartsWithAt(token) ==>
      Classify(token) == OperatorToken(
        match ParseI32(token)
        case Some(value) => Integer(value)
        case None => Identifier(token))
  {
    var colon := LastIndexOf(token, ':');
    var at := FirstIndexOf(token, '@');
    if colon.Some? {
      var i := colon.value;
      if token[i + 1..] == "" {
        assert i == |token| - 1;
      } else {
        assert token[|token| - 1] == token[i + 1..][|token| - 2 - i];
      }
    }
    if at.Some? && at.value != 0 {
      assert token[..at.value][0] == token[0];
    }
  }

  /** A printed `i32` is compiled into the integer it prints. */
  lemma ClassifyFormatI32(x: I32)
    ensures Classify(FormatI32(x)) == OperatorToken(Integer(x))
  {
    ParseFormatI32(x);
    ClassifySpec(FormatI32(x));
  }

  // ---------------------------------------------------------------------
  // Compiling the tokens
  // ---------------------------------------------------------------------

  /** Each token, classified. */
  function Classified(tokens: seq<string>): seq<Token>
  {
    seq(|tokens|, i requires 0 <= i < |tokens| => Classify(tokens[i]))
  }

  /** Classifying is done token by token. */
  lemma ClassifiedAppend(a: seq<string>, b: seq<string>)
    ensures Classified(a + b) == Classified(a) + Classified(b)
  {
    assert forall i :: 0 <= i < |a| ==> (a + b)[i] == a[i];
    assert forall i :: |a| <= i < |a + b| ==> (a + b)[i] == b[i - |a|];
  }

  /** The operators and labels compiled so far. */
  datatype Compiled = Compiled(operators: seq<Operator>, labels: seq<Label>)

  /** One turn of the loop in `start`, on its token classified. */
  function AddToken(c: Compiled, t: Token): Compiled
  {
    match t
    case LabelToken(name) => c.(labels := c.labels + [Label(name, |c.operators|)])
    case OperatorToken(operator) => c.(operators := c.operators + [operator])
  }

  /** The loop in `start`, over classified tokens in order. */
  function Assemble(ts: seq<Token>): Compiled
  {
    if ts == [] then Compiled([], [])
    else AddToken(Assemble(ts[..|ts| - 1]), ts[|ts| - 1])
  }

  /** The loop in `start`, over the tokens in order. */
  function Compile(tokens: seq<string>): Compiled
  {
    Assemble(Classified(tokens))
  }

  /** The operator a token contributes, if it is not a label. */
  function Emitted(t: Token): seq<Operator>
  {
    match t case LabelToken(_) => [] case OperatorToken(op) => [op]
  }

  /** The label name a token contributes, if it is a label. */
  function Named(t: Token): seq<string>
  {
    match t case LabelToken(name) => [name] case OperatorToken(_) => []
  }

  /** The operators of the tokens that are not labels, in order: a description independent of the loop. */
  function OperatorsOf(ts: seq<Token>): seq<Operator>
  {
    if ts == [] then [] else Emitted(ts[0]) + OperatorsOf(ts[1..])
  }

  /** The names of the label tokens, in order. */
  function LabelNames(ts: seq<Token>): seq<string>
  {
    if ts == [] then [] else Named(ts[0]) + LabelNames(ts[1..])
  }

  lemma {:induction false} OperatorsOfAppend(a: seq<Token>, b: seq<Token>)
    ensures OperatorsOf(a + b) == OperatorsOf(a) + OperatorsOf(b)
  {
    if a == [] {
      assert a + b == b;
    } else {
      assert (a + b)[0] == a[0];
      assert (a + b)[1..] == a[1..] + b;
      OperatorsOfAppend(a[1..], b);
    }
  }

  lemma {:induction false} LabelNamesAppend(a: seq<Token>, b: seq<Token>)
    ensures LabelNames(a + b) == LabelNames(a) + LabelNames(b)
  {
    if a == [] {
      assert a + b == b;
    } else {
      assert (a + b)[0] == a[0];
      assert (a + b)[1..] == a[1..] + b;
      LabelNamesAppend(a[1..], b);
    }
  }

  /** The names of a list of labels, in order. */
  function Names(labels: seq<Label>): (r: seq<string>)
    ensures |r| == |labels|
  {
    if labels == [] then [] else Names(labels[..|labels| - 1]) + [labels[|labels| - 1].name]
  }

  /** One turn of the loop appends what its token contributes. */
  lemma AddTokenContents(c: Compiled, t: Token)
    ensures AddToken(c, t).operators == c.operators + Emitted(t)
    ensures Names(AddToken(c, t).labels) == Names(c.labels) + Named(t)
  {
    match t
    case LabelToken(name) =>
      var labels := c.labels + [Label(name, |c.operators|)];
      assert labels[..|labels| - 1] == c.labels;
    case OperatorToken(_) =>
      assert c.labels + [] == c.labels;
  }

  lemma {:induction false} OperatorsOfSnoc(ts: seq<Token>, t: Token)
    ensures OperatorsOf(ts + [t]) == OperatorsOf(ts) + Emitted(t)
  {
    if ts == [] {
      assert ts + [t] == [t];
      assert [t][1..] == [];
    } else {
      assert (ts + [t])[0] == ts[0];
      assert (ts + [t])[1..] == ts[1..] + [t];
      OperatorsOfSnoc(ts[1..], t);
    }
  }

  lemma {:induction false} LabelNamesSnoc(ts: seq<Token>, t: Token)
    ensures LabelNames(ts + [t]) == LabelNames(ts) + Named(t)
  {
    if ts == [] {
      assert ts + [t] == [t];
      assert [t][1..] == [];
    } else {
      assert (ts + [t])[0] == ts[0];
      assert (ts + [t])[1..] == ts[1..] + [t];
      LabelNamesSnoc(ts[1..], t);
    }
  }

  lemma OperatorsOfLast(ts: seq<Token>)
    requires ts != []
    ensures OperatorsOf(ts) == OperatorsOf(ts[..|ts| - 1]) + Emitted(ts[|ts| - 1])
  {
    var init, last := ts[..|ts| - 1], ts[|ts| - 1];
    assert ts == init + [last];
    OperatorsOfSnoc(init, last);
  }

  lemma LabelNamesLast(ts: seq<Token>)
    requires ts != []
    ensures LabelNames(ts) == LabelNames(ts[..|ts| - 1]) + Named(ts[|ts| - 1])
  {
    var init, last := ts[..|ts| - 1], ts[|ts| - 1];
    assert ts == init + [last];
    LabelNamesSnoc(init, last);
  }

  /** The assembled operators are exactly the operators of the non-label tokens, in order. */
  lemma {:induction false} AssembleOperators(ts: seq<Token>)
    ensures Assemble(ts).operators == OperatorsOf(ts)
  {
    if ts != [] {
      var n := |ts|;
      var init, last := ts[..n - 1], ts[n - 1];
      AssembleOperators(init);
      AddTokenContents(Assemble(init), last);
      OperatorsOfLast(ts);
    }
  }

  /** The assembled labels carry the names of the label tokens, in order. */
  lemma {:induction false} AssembleLabelNames(ts: seq<Token>)
    ensures Names(Assemble(ts).labels) == LabelNames(ts)
  {
    if ts != [] {
      var n := |ts|;
      var init, last := ts[..n - 1], ts[n - 1];
      AssembleLabelNames(init);
      AddTokenContents(Assemble(init), last);
      LabelNamesLast(ts);
    }
  }

  /** Label indices never decrease and never exceed the number of operators. */
  predicate LabelsOrdered(c: Compiled)
  {
    (forall k :: 0 <= k < |c.labels| ==> c.labels[k].operator <= |c.operators|) &&
    (forall j, k :: 0 <= j < k < |c.labels| ==> c.labels[j].operator <= c.labels[k].operator)
  }

  lemma {:induction false} AssembleLabelsOrdered(ts: seq<Token>)
    ensures LabelsOrdered(Assemble(ts))
  {
    if ts != [] {
      AssembleLabelsOrdered(ts[..|ts| - 1]);
    }
  }

  /** Assembling more tokens only appends operators and labels. */
  lemma {:induction false} AssembleExtends(a: seq<Token>, b: seq<Token>)
    ensures |Assemble(a).operators| <= |Assemble(a + b).operators|
    ensures |Assemble(a).labels| <= |Assemble(a + b).labels|
    ensures Assemble(a + b).operators[..|Assemble(a).operators|] == Assemble(a).operators
    ensures Assemble(a + b).labels[..|Assemble(a).labels|] == Assemble(a).labels
    decreases |b|
  {
    if b == [] {
      assert a + b == a;
    } else {
      var n := |b|;
      assert a + b == (a + b[..n - 1]) + [b[n - 1]];
      AssembleExtends(a, b[..n - 1]);
    }
  }

  /** A token ending in a colon is a label. */
  lemma ClassifyLabel(name: string)
    ensures Classified([name + ":"]) == [LabelToken(name)]
  {
    var token := name + ":";
    ClassifySpec(token);
    assert token[..|token| - 1] == name;
  }

  /** A label token names the operator assembled next: its index is the number of operators before it. */
  lemma AssembleLabelIndex(before: seq<Token>, name: string, after: seq<Token>)
    ensures var c := Assemble(before + [LabelToken(name)] + after);
      var k := |Assemble(before).labels|;
      k < |c.labels| && c.labels[k] == Label(name, |Assemble(before).operators|)
  {
    var upto := before + [LabelToken(name)];
    assert upto[..|before|] == before;
    AssembleExtends(upto, after);
  }

  /**
   * A label token names the operator compiled from the tokens after it:
   * its index is the number of operators before it.
   */
  lemma LabelIndex(before: seq<string>, name: string, after: seq<string>)
    ensures var c := Compile(before + [name + ":"] + after);
      var k := |Compile(before).labels|;
      k < |c.labels| && c.labels[k] == Label(name, |Compile(before).operators|)
  {
    var token := name + ":";
    ClassifyLabel(name);
    ClassifiedAppend(before, [token]);
    ClassifiedAppend(before + [token], after);
    AssembleLabelIndex(Classified(before), name, Classified(after));
  }
}
