/**
 * The linear memory of the evaluator, addressable per word, and its compact
 * `Debug` rendering.
 */
module Memories {

  import opened Int32
  import opened Values
  import opened Wrappers
  import opened Decimal
  import Effects

  /** The words of a memory rendered as `Debug` does, separated by `", "`. */
  function Join(vs: seq<Value>): (s: string)
    ensures vs == [] <==> s == []
    ensures vs != [] ==> IsDigit(s[|s| - 1])
  {
    if |vs| == 0 then ""
    else if |vs| == 1 then Debug(vs[0])
    else Join(vs[..|vs| - 1]) + ", " + Debug(vs[|vs| - 1])
  }

  /** The words up to and including the one at `i`, joined. */
  lemma JoinStep(vs: seq<Value>, i: nat)
    requires i < |vs|
    ensures Join(vs[..i + 1]) == (if i == 0 then "" else Join(vs[..i]) + ", ") + Debug(vs[i])
  {
    assert vs[..i + 1][..i] == vs[..i];
  }

  /** Writing one more rendered word after the separator extends the joined words by it. */
  lemma AppendItem(joined: string, d: string, first: bool)
    requires first ==> joined == ""
    ensures "[" + joined + (if first then "" else ", ") + d == "[" + ((if first then "" else joined + ", ") + d)
  {
    if first {
      assert "[" + joined + "" == "[";
    }
  }

  /** The whole `Debug` output: the joined words in square brackets. */
  function DebugList(vs: seq<Value>): string
  {
    "[" + Join(vs) + "]"
  }

  /** The number of decimal digits at the end of `t`. */
  function TrailingDigits(t: string): (k: nat)
    ensures k <= |t|
    ensures forall i :: |t| - k <= i < |t| ==> IsDigit(t[i])
    ensures k < |t| ==> !IsDigit(t[|t| - k - 1])
  {
    if t == [] || !IsDigit(t[|t| - 1]) then 0
    else TrailingDigits(t[..|t| - 1]) + 1
  }

  /** Reads back a list of numbers written as `Join` writes them. */
  function ParseItems(t: string): Option<seq<nat>>
    decreases |t|
  {
    if t == [] then Some([])
    else
      var k := TrailingDigits(t);
      if k == 0 then None
      else
        var item := ValueOf(t[|t| - k..]);
        var rest := t[..|t| - k];
        if rest == [] then Some([item])
        else if |rest| >= 3 && rest[|rest| - 2..] == ", " then
          match ParseItems(rest[..|rest| - 2])
          case None => None
          case Some(items) => Some(items + [item])
        else None
  }

  /** Reads back the `Debug` output of a memory: the numbers between the brackets. */
  function ParseList(t: string): Option<seq<nat>>
  {
    if |t| >= 2 && t[0] == '[' && t[|t| - 1] == ']' then ParseItems(t[1..|t| - 1]) else None
  }

  /** The stored numbers of a sequence of words. */
  function Numbers(vs: seq<Value>): (r: seq<nat>)
    ensures |r| == |vs|
  {
    seq(|vs|, i requires 0 <= i < |vs| => vs[i].ToU32() as nat)
  }

  lemma NumbersLast(vs: seq<Value>)
    requires vs != []
    ensures Numbers(vs) == Numbers(vs[..|vs| - 1]) + [vs[|vs| - 1].ToU32() as nat]
  {
  }

  /** Digits after a non-digit are exactly the trailing digits. */
  lemma {:induction false} TrailingDigitsAfter(prefix: string, digits: string)
    requires AllDigits(digits)
    requires prefix != [] ==> !IsDigit(prefix[|prefix| - 1])
    ensures TrailingDigits(prefix + digits) == |digits|
  {
    if digits != [] {
      var init := digits[..|digits| - 1];
      assert (prefix + digits)[..|prefix + digits| - 1] == prefix + init;
      TrailingDigitsAfter(prefix, init);
    }
  }

  /** A single number is read back as itself. */
  lemma ParseItemsSingle(d: string)
    requires d != [] && AllDigits(d)
    ensures ParseItems(d) == Some([ValueOf(d)])
  {
    TrailingDigitsAfter("", d);
    assert "" + d == d;
    assert d[|d| - |d|..] == d;
  }

  /** One more item after `", "` is read back after the items before it. */
  lemma ParseItemsSnoc(j: string, d: string, items: seq<nat>)
    requires ParseItems(j) == Some(items)
    requires j != [] && IsDigit(j[|j| - 1])
    requires d != [] && AllDigits(d)
    ensures ParseItems(j + ", " + d) == Some(items + [ValueOf(d)])
  {
    var rest := j + ", ";
    var t := rest + d;
    TrailingDigitsAfter(rest, d);
    assert t[|t| - |d|..] == d;
    assert t[..|t| - |d|] == rest;
    assert rest[|rest| - 2..] == ", ";
    assert rest[..|rest| - 2] == j;
  }

  /** Parsing the joined rendering gives back the numbers. */
  lemma {:induction false} ParseItemsJoin(vs: seq<Value>)
    ensures ParseItems(Join(vs)) == Some(Numbers(vs))
  {
    if |vs| == 1 {
      ParseItemsSingle(Debug(vs[0]));
      assert Numbers(vs) == [vs[0].ToU32() as nat];
    } else if |vs| >= 2 {
      var init := vs[..|vs| - 1];
      ParseItemsJoin(init);
      ParseItemsSnoc(Join(init), Debug(vs[|vs| - 1]), Numbers(init));
      NumbersLast(vs);
    }
  }

  /** The `Debug` output of a memory determines its contents: parsing it gives them back. */
  lemma ParseDebugList(vs: seq<Value>)
    ensures ParseList(DebugList(vs)) == Some(Numbers(vs))
  {
    var t := DebugList(vs);
    assert t[1..|t| - 1] == Join(vs);
    ParseItemsJoin(vs);
  }

  class Memory {

    /** The words of the memory; address `a` is `values[a]`. */
    const values: array<Value>

    /** A memory of `size` words, all zero. */
    constructor (size: nat)
      ensures fresh(values)
      ensures values.Length == size
      ensures forall a :: 0 <= a < size ==> values[a] == Value(0)
    {
      values := new Value[size](_ => Value(0));
    }

    /** `to_u32_slice`: the words read as unsigned integers, in address order. */
    function ToU32Slice(): (r: seq<U32>)
      reads values
      ensures |r| == values.Length
      ensures forall a :: 0 <= a < values.Length ==> r[a] == values[a].ToU32()
    {
      seq(values.Length, a requires 0 <= a < values.Length reads values => values[a].ToU32())
    }

    /** `read`: the word at an address, or `InvalidAddress` if it lies outside the memory. */
    method Read(address: U32) returns (r: Result<Value, Effects.Effect>)
      ensures address < values.Length ==> r == Ok(values[address])
      ensures address >= values.Length ==> r == Err(Effects.InvalidAddress)
    {
      if address < values.Length {
        r := Ok(values[address]);
      } else {
        r := Err(Effects.InvalidAddress);
      }
    }

    /** `write`: stores a word at an address, or `InvalidAddress` without any change. */
    method Write(address: U32, value: Value) returns (r: Result<(), Effects.Effect>)
      modifies values
      ensures address < values.Length ==> r == Ok(()) && values[..] == old(values[..])[address := value]
      ensures address >= values.Length ==> r == Err(Effects.InvalidAddress) && values[..] == old(values[..])
    {
      if address < values.Length {
        values[address] := value;
        r := Ok(());
      } else {
        r := Err(Effects.InvalidAddress);
      }
    }

    /**
     * `Debug::fmt`: an opening bracket, each word in decimal followed by
     * `", "` while another one follows, and a closing bracket.
     */
    method Fmt() returns (out: string)
      ensures out == DebugList(values[..])
    {
      ghost var vs := values[..];
      ghost var joined := "";
      out := "[";
      var i := 0;
      while i < values.Length
        invariant 0 <= i <= values.Length
        invariant joined == Join(vs[..i])
        invariant out == "[" + joined + (if 0 < i < values.Length then ", " else "")
      {
        JoinStep(vs, i);
        var d := Debug(values[i]);
        AppendItem(joined, d, i == 0);
        out := out + d;
        joined := (if i == 0 then "" else joined + ", ") + d;
        if i + 1 < values.Length {
          out := out + ", ";
        }
        i := i + 1;
      }
      out := out + "]";
      assert vs[..values.Length] == vs;
    }
  }
}
