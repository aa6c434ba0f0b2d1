/**
 * The operand stack of the evaluator: the values operators take their
 * inputs from and push their outputs to. The top is the last element.
 */
module OperandStacks {

  import opened Int32
  import opened Values
  import opened Wrappers
  import Effects

  /** The error `pop` returns when the stack is empty. */
  datatype OperandStackUnderflow = OperandStackUnderflow

  /** The conversion of an underflow into the effect of the same name. */
  function UnderflowEffect(u: OperandStackUnderflow): (e: Effects.Effect)
    ensures e == Effects.OperandStackUnderflow
  {
    Effects.OperandStackUnderflow
  }

  /** The signed reading of each value, in stack order. */
  function I32s(vs: seq<Value>): (r: seq<I32>)
    ensures |r| == |vs|
    ensures forall i :: 0 <= i < |vs| ==> Unsigned(r[i]) == vs[i].ToU32()
  {
    seq(|vs|, i requires 0 <= i < |vs| => vs[i].ToI32())
  }

  /** The unsigned reading of each value, in stack order. */
  function U32s(vs: seq<Value>): (r: seq<U32>)
    ensures |r| == |vs|
    ensures forall i :: 0 <= i < |vs| ==> r[i] == vs[i].inner
  {
    seq(|vs|, i requires 0 <= i < |vs| => vs[i].ToU32())
  }

  /** The two readings of a sequence of values hold the same bits, element by element. */
  lemma I32sU32s(vs: seq<Value>)
    ensures forall i :: 0 <= i < |vs| ==> Unsigned(I32s(vs)[i]) == U32s(vs)[i]
  {
  }

  class OperandStack {

    /** The values on the stack, bottom first. */
    var values: seq<Value>

    /** The empty stack an evaluation starts with. */
    constructor ()
      ensures values == []
    {
      values := [];
    }

    /** `push`: the value becomes the new top. */
    method Push(value: Value)
      modifies this
      ensures values == old(values) + [value]
    {
      values := values + [value];
    }

    /**
     * `pop`: the top value, removed from the stack; on an empty stack,
     * `OperandStackUnderflow` and the stack stays empty.
     */
    method Pop() returns (r: Result<Value, OperandStackUnderflow>)
      modifies this
      ensures old(values) == [] ==> r == Err(OperandStackUnderflow) && values == []
      ensures old(values) != [] ==> r == Ok(old(values)[|old(values)| - 1])
      ensures old(values) != [] ==> values == old(values)[..|old(values)| - 1]
    {
      if values == [] {
        r := Err(OperandStackUnderflow);
      } else {
        r := Ok(values[|values| - 1]);
        values := values[..|values| - 1];
      }
    }

    /** `to_i32_slice`: the stack read as signed integers, bottom first. */
    function ToI32Slice(): (r: seq<I32>)
      reads this
      ensures |r| == |values|
      ensures forall i :: 0 <= i < |values| ==> Unsigned(r[i]) == values[i].ToU32()
    {
      I32s(values)
    }

    /** `to_u32_slice`: the stack read as unsigned integers, bottom first. */
    function ToU32Slice(): (r: seq<U32>)
      reads this
      ensures |r| == |values|
      ensures forall i :: 0 <= i < |values| ==> r[i] == values[i].ToU32()
    {
      U32s(values)
    }
  }

  /** Pushing and then popping gives back the pushed value and the stack as it was. */
  method PushPop(s: OperandStack, v: Value) returns (r: Result<Value, OperandStackUnderflow>)
    modifies s
    ensures r == Ok(v) && s.values == old(s.values)
  {
    s.Push(v);
    r := s.Pop();
    assert s.values == old(s.values);
  }
}
