/**
 * The compiled form of a script: its operators, in order, and its labels.
 * The evaluator addresses operators by their 32-bit index.
 */
module Scripts {

  import opened Int32
  import opened Wrappers
  import opened Effects

  /** A unit of evaluation. */
  datatype Operator =
    | Identifier(text: string)
    | Integer(value: I32)
    | Reference(name: string)

  /** `Operator::integer_u32`: an integer literal given by its unsigned bits. */
  function IntegerU32(value: U32): (op: Operator)
    ensures op.Integer? && Unsigned(op.value) == value
  {
    UnsignedSigned(value);
    Integer(Signed(value))
  }

  /** A name for the operator at index `operator`, the one that follows the label. */
  datatype Label = Label(name: string, operator: nat)

  /** The index of the first label called `name`, if there is one. */
  function FirstLabel(labels: seq<Label>, name: string): (r: Option<nat>)
    ensures r.Some? ==> r.value < |labels| && labels[r.value].name == name
    ensures r.Some? ==> forall j :: 0 <= j < r.value ==> labels[j].name != name
    ensures r.None? <==> forall j :: 0 <= j < |labels| ==> labels[j].name != name
  {
    if labels == [] then None
    else if labels[0].name == name then Some(0)
    else match FirstLabel(labels[1..], name)
      case None => None
      case Some(k) => Some(k + 1)
  }

  datatype Script = Script(operators: seq<Operator>, labels: seq<Label>)
  {
    /**
     * Every operator has a 32-bit index, and every label names an operator
     * or the end of the script.
     */
    predicate Valid()
    {
      |operators| < WORD && forall j :: 0 <= j < |labels| ==> labels[j].operator <= |operators|
    }

    /** `get_operator`: the operator at an index, or `OutOfOperators` past the end. */
    function GetOperator(index: U32): (r: Result<Operator, Effect>)
      ensures r.Ok? <==> index < |operators|
      ensures r.Ok? ==> r.value == operators[index]
      ensures r.Err? ==> r.error == OutOfOperators
    {
      if index < |operators| then Ok(operators[index]) else Err(OutOfOperators)
    }

    /**
     * `resolve_reference`: the index of the operator named by the first
     * label called `name`, or `InvalidReference` if no label is.
     */
    function ResolveReference(name: string): (r: Result<U32, Effect>)
      requires Valid()
      ensures r.Err? <==> forall j :: 0 <= j < |labels| ==> labels[j].name != name
      ensures r.Err? ==> r.error == InvalidReference
      ensures r.Ok? ==> exists k :: 0 <= k < |labels| && labels[k].name == name &&
                                    r.value == labels[k].operator &&
                                    (forall j :: 0 <= j < k ==> labels[j].name != name)
    {
      match FirstLabel(labels, name)
      case None => Err(InvalidReference)
      case Some(k) => Ok(labels[k].operator)
    }
  }
}
