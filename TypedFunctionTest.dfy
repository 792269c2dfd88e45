/** The `function(P1, P2, …) as R` sequence-type test: parameter types, return type and type name. */
module TypedFunctionTest {
  import opened Wrappers
  import opened Text

  datatype TokenKind = KFunction | KAs | ParenthesisOpen | ParenthesisClose | Comma | OtherToken

  /** A child of a typed function test: a token, the parameter type list, or a sequence type. */
  datatype Child =
    | Token(kind: TokenKind)
    | TypeList(types: seq<string>)
    | SequenceType(typeName: string)

  /** The specifications a typed function test needs: XQuery 3.0 (REC 2014-04-08) or MarkLogic 6.0. */
  datatype Version = XQuery30Rec20140408 | MarkLogic60
  const RequiresConformance: seq<Version> := [XQuery30Rec20140408, MarkLogic60]

  /** Both occurrence bounds of a function test: it matches exactly one item. */
  const LowerBound: int := 1
  const UpperBound: int := 1

  /** No child before the `i`-th is a type list. */
  predicate NoTypeListBefore(children: seq<Child>, i: nat)
    requires i <= |children|
  {
    forall j :: 0 <= j < i ==> !children[j].TypeList?
  }

  /** `paramTypes`: the types of the first type-list child, or none when there is no list. */
  function ParamTypes(children: seq<Child>): (r: seq<string>)
    ensures NoTypeListBefore(children, |children|) ==> r == []
    ensures forall i :: 0 <= i < |children| && children[i].TypeList? && NoTypeListBefore(children, i) ==> r == children[i].types
  {
    if |children| == 0 then []
    else if children[0].TypeList? then children[0].types
    else
      assert forall i :: 0 < i < |children| ==> children[i] == children[1..][i - 1];
      ParamTypes(children[1..])
  }

  /** The index of the last sequence-type child, if any. */
  function LastSequenceType(children: seq<Child>): (r: Option<nat>)
    ensures r.None? <==> forall i :: 0 <= i < |children| ==> !children[i].SequenceType?
    ensures r.Some? ==> r.value < |children| && children[r.value].SequenceType?
    ensures r.Some? ==> forall j :: r.value < j < |children| ==> !children[j].SequenceType?
  {
    if |children| == 0 then None
    else if children[|children| - 1].SequenceType? then Some(|children| - 1)
    else LastSequenceType(children[..|children| - 1])
  }

  /** `returnType`: the last sequence-type child, provided an `as` keyword is among its preceding siblings. */
  function ReturnType(children: seq<Child>): (r: Option<string>)
    ensures r.Some? <==>
              exists k, j :: 0 <= j < k < |children| && children[j] == Token(KAs) && LastSequenceType(children) == Some(k)
    ensures r.Some? ==> exists k :: 0 <= k < |children| && children[k] == SequenceType(r.value)
  {
    match LastSequenceType(children)
    case None => None
    case Some(k) =>
      if Token(KAs) in children[..k] then
        ghost var j :| 0 <= j < k && children[..k][j] == Token(KAs);
        assert children[j] == Token(KAs);
        Some(children[k].typeName)
      else
        assert forall j :: 0 <= j < k ==> children[..k][j] == children[j];
        None
  }

  /** `typeName`: `function(P1, P2, …) as R`, with `item()*` standing for a missing return type. */
  function TypeNameOf(children: seq<Child>): (r: string)
    ensures ReturnType(children).None? ==>
      r == "function(" + JoinWith(", ", ParamTypes(children)) + ") as item()*"
    ensures ReturnType(children).Some? ==>
      r == "function(" + JoinWith(", ", ParamTypes(children)) + ") as " + ReturnType(children).value
  {
    var ret := if ReturnType(children).Some? then ReturnType(children).value else "item()*";
    "function(" + JoinWith(", ", ParamTypes(children)) + ") as " + ret
  }

  /** `conformanceElement`: the first child, the `function` keyword in a parsed test. */
  function ConformanceElement(children: seq<Child>): (r: Option<Child>)
    ensures |children| > 0 <==> r.Some?
    ensures r.Some? ==> r.value == children[0]
  {
    if |children| == 0 then None else Some(children[0])
  }

  /** The children of a complete `function(P…) as R` test. */
  function Complete(params: seq<string>, ret: string): seq<Child> {
    [Token(KFunction), Token(ParenthesisOpen), TypeList(params), Token(ParenthesisClose), Token(KAs), SequenceType(ret)]
  }

  /** A complete test reads back its parameter and return types, and renders from them. */
  lemma CompleteTest(params: seq<string>, ret: string)
    ensures ParamTypes(Complete(params, ret)) == params
    ensures ReturnType(Complete(params, ret)) == Some(ret)
    ensures TypeNameOf(Complete(params, ret)) == "function(" + JoinWith(", ", params) + ") as " + ret
    ensures ConformanceElement(Complete(params, ret)) == Some(Token(KFunction))
  {
    var c := Complete(params, ret);
    assert c[1..][1..][0] == TypeList(params);
    assert LastSequenceType(c) == Some(5);
    assert c[4] == Token(KAs);
  }

  /** A test cut short before `as` has no return type, even if a sequence type follows the list. */
  lemma {:induction false} NoAsNoReturnType(children: seq<Child>)
    requires Token(KAs) !in children
    ensures ReturnType(children) == None
    ensures TypeNameOf(children) == "function(" + JoinWith(", ", ParamTypes(children)) + ") as item()*"
  {
  }
}
