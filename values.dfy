/**
 * `Value`, the 32-bit word that every slot of the operand stack and of the
 * memory holds. It has no sign of its own; operators read it as `u32` or as
 * `i32` as they need.
 *
 * The legacy interpreter defines the same type twice (its own value module
 * and a copy next to its stack); all three definitions are this module.
 */
module Values {

  import opened Int32
  import Decimal
  import Wrappers

  datatype Value = Value(inner: U32)
  {
    /** `to_i32`: the stored bits read as a two's-complement integer. */
    function ToI32(): (r: I32)
      ensures Unsigned(r) == inner
    {
      Signed(inner)
    }

    /** `to_u32`: the stored bits, unchanged. */
    function ToU32(): (r: U32)
    {
      inner
    }

    /**
     * `to_usize` on a target whose `usize` has at least 32 bits: the same
     * number as `to_u32`.
     */
    function ToUsize(): (r: nat)
      ensures r == ToU32()
    {
      inner
    }

    /** A condition: any non-zero word is true. */
    function ToBool(): (b: bool)
      ensures b <==> ToU32() != 0
    {
      inner != 0
    }
  }

  /** `Value::from(i32)`: the bits of the signed integer. */
  function FromI32(x: I32): (v: Value)
    ensures v.ToI32() == x
  {
    SignedUnsigned(x);
    Value(Unsigned(x))
  }

  /** `Value::from(u32)`. */
  function FromU32(x: U32): (v: Value)
    ensures v.ToU32() == x
  {
    Value(x)
  }

  /** `Value::from(bool)`: one for true, zero for false. */
  function FromBool(b: bool): (v: Value)
    ensures v.ToBool() == b
    ensures v.ToU32() == if b then 1 else 0
  {
    Value(if b then 1 else 0)
  }

  /** `Debug`: the stored `u32` in decimal. */
  function Debug(v: Value): (s: string)
    ensures Decimal.IsCanonical(s)
    ensures Decimal.ValueOf(s) == v.ToU32()
  {
    Decimal.ValueOfFormat(v.inner);
    Decimal.Format(v.inner)
  }

  /** The signed reading is the unsigned one below 2^31, and 2^32 less from there on. */
  lemma SignedReading(v: Value)
    ensures v.ToU32() < HALF ==> v.ToI32() == v.ToU32()
    ensures v.ToU32() >= HALF ==> v.ToI32() == v.ToU32() - WORD
  {
  }

  /** Reading a word as `i32` and converting back loses nothing. */
  lemma FromToI32(v: Value)
    ensures FromI32(v.ToI32()) == v
  {
  }

  /** Reading a word as `u32` and converting back loses nothing. */
  lemma FromToU32(v: Value)
    ensures FromU32(v.ToU32()) == v
  {
  }

  /** A signed and an unsigned integer give the same word exactly when they have the same bits. */
  lemma SameWord(x: I32, y: U32)
    ensures FromI32(x) == FromU32(y) <==> Unsigned(x) == y
  {
  }

  /** Two words are equal exactly when their signed readings are. */
  lemma EqualAsI32(v: Value, w: Value)
    ensures v.ToI32() == w.ToI32() <==> v == w
  {
    UnsignedSigned(v.inner);
    UnsignedSigned(w.inner);
  }

  /** The printed form reads back as the word. */
  lemma DebugParse(v: Value)
    ensures Decimal.Parse(Debug(v)) == Wrappers.Some(v.ToU32())
  {
  }

  /**
   * Removing the word at `k` keeps the words below it, moves the words
   * above it down by one, and takes exactly that one word away.
   */
  lemma RemoveAt(vs: seq<Value>, k: nat)
    requires k < |vs|
    ensures var r := vs[..k] + vs[k + 1..];
      |r| == |vs| - 1 &&
      (forall j :: 0 <= j < k ==> r[j] == vs[j]) &&
      (forall j :: k <= j < |r| ==> r[j] == vs[j + 1]) &&
      multiset(r) + multiset{vs[k]} == multiset(vs)
  {
    assert vs == vs[..k] + [vs[k]] + vs[k + 1..];
  }
}
