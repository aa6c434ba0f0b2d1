/**
 * The stack of the single-file interpreter (`Stack`): the values operators
 * take their inputs from, top last, addressed from the top by `copy` and
 * `drop`.
 */
module LegacyStacks {

  import opened Int32
  import opened Values
  import opened Wrappers
  import LegacyEffects

  /** The error `pop` returns when the stack is empty. */
  datatype StackUnderflow = StackUnderflow

  /** The error `get` and `remove` return for an index at or beyond the stack's height. */
  datatype InvalidStackIndex = InvalidStackIndex

  function UnderflowEffect(u: StackUnderflow): (e: LegacyEffects.Effect)
    ensures e == LegacyEffects.StackUnderflow
  {
    LegacyEffects.StackUnderflow
  }

  function IndexEffect(i: InvalidStackIndex): (e: LegacyEffects.Effect)
    ensures e == LegacyEffects.InvalidStackIndex
  {
    LegacyEffects.InvalidStackIndex
  }

  /** The position, counted from the bottom, of the value `index_from_top` places below the top. */
  function FromBottom(len: nat, index_from_top: nat): (r: Result<nat, InvalidStackIndex>)
    ensures r.Ok? <==> index_from_top < len
    ensures r.Ok? ==> r.value == len - 1 - index_from_top
  {
    if index_from_top < len then Ok(len - 1 - index_from_top) else Err(InvalidStackIndex)
  }

  class Stack {

    /** The values on the stack, bottom first. */
    var values: seq<Value>

    constructor ()
      ensures values == []
    {
      values := [];
    }

    /** `push`: the value becomes the new top. */
    method Push(value: Value)
      modifies this
      ensures values == old(values) + [value]
    {
      values := values + [value];
    }

    /** `pop`: the top value, removed; on an empty stack `StackUnderflow`, and no change. */
    method Pop() returns (r: Result<Value, StackUnderflow>)
      modifies this
      ensures old(values) == [] ==> r == Err(StackUnderflow) && values == old(values)
      ensures old(values) != [] ==> r == Ok(old(values)[|old(values)| - 1])
      ensures old(values) != [] ==> values == old(values)[..|old(values)| - 1]
    {
      if values == [] {
        r := Err(StackUnderflow);
      } else {
        r := Ok(values[|values| - 1]);
        values := values[..|values| - 1];
      }
    }

    /** `get`: the value `index_from_top` places below the top, or `InvalidStackIndex`. */
    function Get(index_from_top: nat): (r: Result<Value, InvalidStackIndex>)
      reads this
      ensures r.Ok? <==> index_from_top < |values|
      ensures r.Ok? ==> r.value == values[|values| - 1 - index_from_top]
    {
      match FromBottom(|values|, index_from_top)
      case Err(e) => Err(e)
      case Ok(k) => Ok(values[k])
    }

    /**
     * `remove`: deletes the value `index_from_top` places below the top,
     * the others keeping their order; `InvalidStackIndex` and no change if
     * there is no such value.
     */
    method Remove(index_from_top: nat) returns (r: Result<(), InvalidStackIndex>)
      modifies this
      ensures r.Ok? <==> index_from_top < |old(values)|
      ensures r.Err? ==> values == old(values)
      ensures r.Ok? ==>
        var k := |old(values)| - 1 - index_from_top;
        values == old(values)[..k] + old(values)[k + 1..]
    {
      var k := FromBottom(|values|, index_from_top);
      if k.Err? {
        return Err(k.error);
      }
      values := values[..k.value] + values[k.value + 1..];
      r := Ok(());
    }

    /** `to_u32_slice`: the stack read as unsigned integers, bottom first. */
    function ToU32Slice(): (r: seq<U32>)
      reads this
      ensures |r| == |values|
      ensures forall i :: 0 <= i < |values| ==> r[i] == values[i].ToU32()
    {
      seq(|values|, i requires 0 <= i < |values| reads this => values[i].ToU32())
    }
  }

  /** Removing the value `copy` would duplicate, after duplicating it, gives back the stack as it was. */
  method CopyThenRemove(s: Stack, index_from_top: nat) returns (r: Result<(), InvalidStackIndex>)
    requires index_from_top < |s.values|
    modifies s
    ensures r.Ok? && s.values == old(s.values)
  {
    var v := s.Get(index_from_top);
    s.Push(v.value);
    assert s.values[..|s.values| - 1] == old(s.values);
    r := s.Remove(0);
  }
}
