/** The `element(N, T)` sequence-type test: its node name, node type and rendered type name. */
module ElementTest {
  import opened Wrappers

  /**
   * A child of an element test: a wildcard name such as `*:test` (which is
   * a QName value too), a QName, a type name, or a token (the bare `*` of
   * `element(*, T)` among them). Both kinds of name carry their
   * `op:qname-presentation` rendering.
   */
  datatype Child =
    | Wildcard(presentation: string)
    | QName(presentation: string)
      /** An `XPathTypeName`: the type's local name (None when it is missing) and its rendering. */
    | TypeName(localName: Option<string>, typeName: string)
    | Token(text: string)

  /** Both occurrence bounds of an element test: it matches exactly one item. */
  const LowerBound: int := 1
  const UpperBound: int := 1

  /** A child that is an `XsQNameValue`: a QName or a wildcard name. */
  predicate IsQNameValue(c: Child) {
    c.QName? || c.Wildcard?
  }

  /** `nodeName`: the rendering of the first QName value child, if any. */
  function NodeName(children: seq<Child>): (r: Option<string>)
    ensures r.None? <==> forall i :: 0 <= i < |children| ==> !IsQNameValue(children[i])
    ensures r.Some? ==>
      exists i :: 0 <= i < |children| && IsQNameValue(children[i]) && children[i].presentation == r.value &&
        forall j :: 0 <= j < i ==> !IsQNameValue(children[j])
  {
    if |children| == 0 then None
    else if IsQNameValue(children[0]) then Some(children[0].presentation)
    else
      var r := NodeName(children[1..]);
      assert forall i :: 0 < i < |children| ==> children[i] == children[1..][i - 1];
      if r.Some? then
        ghost var i :| 0 <= i < |children| - 1 && IsQNameValue(children[1..][i]) && children[1..][i].presentation == r.value &&
          forall j :: 0 <= j < i ==> !IsQNameValue(children[1..][j]);
        assert children[i + 1] == children[1..][i];
        r
      else r
  }

  /** The first wildcard name child, if any. */
  function FirstWildcard(children: seq<Child>): (r: Option<Child>)
    ensures r.None? <==> forall i :: 0 <= i < |children| ==> !children[i].Wildcard?
    ensures r.Some? ==> r.value.Wildcard?
    ensures r.Some? ==>
      exists i :: 0 <= i < |children| && children[i] == r.value &&
        forall j :: 0 <= j < i ==> !children[j].Wildcard?
  {
    if |children| == 0 then None
    else if children[0].Wildcard? then Some(children[0])
    else
      var r := FirstWildcard(children[1..]);
      assert forall i :: 0 < i < |children| ==> children[i] == children[1..][i - 1];
      if r.Some? then
        ghost var i :| 0 <= i < |children| - 1 && children[1..][i] == r.value &&
          forall j :: 0 <= j < i ==> !children[1..][j].Wildcard?;
        assert children[i + 1] == r.value;
        r
      else r
  }

  /** The first sequence-type (type name) child, if any. */
  function FirstTypeName(children: seq<Child>): (r: Option<Child>)
    ensures r.None? <==> forall i :: 0 <= i < |children| ==> !children[i].TypeName?
    ensures r.Some? ==> r.value.TypeName? && r.value in children
    ensures r.Some? ==> exists i :: 0 <= i < |children| && children[i] == r.value && forall j :: 0 <= j < i ==> !children[j].TypeName?
  {
    if |children| == 0 then None
    else if children[0].TypeName? then Some(children[0])
    else
      var r := FirstTypeName(children[1..]);
      assert forall i :: 0 < i < |children| ==> children[i] == children[1..][i - 1];
      if r.Some? then
        ghost var i :| 0 <= i < |children| - 1 && children[1..][i] == r.value &&
          forall j :: 0 <= j < i ==> !children[1..][j].TypeName?;
        assert children[i + 1] == r.value;
        r
      else r
  }

  /** `nodeType`: the first type-name child's rendering, or null when there is none or it has no local name. */
  function NodeType(children: seq<Child>): (r: Option<string>)
    ensures r.Some? <==> FirstTypeName(children).Some? && FirstTypeName(children).value.localName.Some?
  {
    match FirstTypeName(children)
    case None => None
    case Some(t) => if t.localName.None? then None else Some(t.typeName)
  }

  /** The rendering of an element test from its optional name and type. */
  function Render(name: Option<string>, typ: Option<string>): (r: string)
    ensures |r| >= |"element()"| && r[..|"element("|] == "element(" && r[|r| - 1] == ')'
  {
    match (name, typ)
    case (None, None) => "element()"
    case (None, Some(t)) => "element(*," + t + ")"
    case (Some(n), None) => "element(" + n + ")"
    case (Some(n), Some(t)) => "element(" + n + "," + t + ")"
  }

  /** `typeName`: `element()`, `element(*,T)`, `element(N)` or `element(N,T)` from the node name and node type. */
  function TypeNameOf(children: seq<Child>): (r: string)
    ensures NodeName(children).None? && NodeType(children).None? ==> r == "element()"
    ensures NodeName(children).None? && NodeType(children).Some? ==> r == "element(*," + NodeType(children).value + ")"
    ensures NodeName(children).Some? && NodeType(children).None? ==> r == "element(" + NodeName(children).value + ")"
    ensures NodeName(children).Some? && NodeType(children).Some? ==>
      r == "element(" + NodeName(children).value + "," + NodeType(children).value + ")"
  {
    Render(NodeName(children), NodeType(children))
  }

  /** Index of the first `,` in `s`, or |s| when there is none. */
  function CommaAt(s: string): (k: nat)
    ensures k <= |s| && ',' !in s[..k] && (k < |s| ==> s[k] == ',')
  {
    if |s| == 0 || s[0] == ',' then 0
    else
      var k := CommaAt(s[1..]);
      assert s[..k + 1] == [s[0]] + s[1..][..k];
      k + 1
  }

  /** Reads the name and type back from a rendered element test. */
  function Decode(s: string): (Option<string>, Option<string>)
    requires |s| >= |"element()"|
  {
    var inner := s[|"element("|..|s| - 1];
    var k := CommaAt(inner);
    if k == |inner| then (if inner == "" then (None, None) else (Some(inner), None))
    else if inner[..k] == "*" then (None, Some(inner[k + 1..]))
    else (Some(inner[..k]), Some(inner[k + 1..]))
  }

  lemma CommaAtPrefix(n: string, rest: string)
    requires ',' !in n
    ensures |rest| > 0 && rest[0] == ',' ==> CommaAt(n + rest) == |n|
    ensures rest == "" ==> CommaAt(n + rest) == |n|
  {
    var k := CommaAt(n + rest);
    assert (n + rest)[..|n|] == n;
  }

  /**
   * The rendered type name determines the node name and node type, as long as
   * the name is non-empty, is not `*` and has no comma (QNames never do).
   */
  lemma {:induction false} DecodeRender(name: Option<string>, typ: Option<string>)
    requires name.Some? ==> name.value != "" && name.value != "*" && ',' !in name.value
    ensures Decode(Render(name, typ)) == (name, typ)
  {
    var r := Render(name, typ);
    var inner := r[|"element("|..|r| - 1];
    match (name, typ)
    case (None, None) =>
    case (None, Some(t)) =>
      assert inner == "*" + ("," + t);
      CommaAtPrefix("*", "," + t);
      assert inner[..1] == "*";
    case (Some(n), None) =>
      assert inner == n + "";
      CommaAtPrefix(n, "");
    case (Some(n), Some(t)) =>
      assert inner == n + ("," + t);
      CommaAtPrefix(n, "," + t);
  }

  /** `conformanceElement`: the first wildcard name child if there is one, otherwise the first child. */
  function ConformanceElement(children: seq<Child>): (r: Option<Child>)
    ensures r.None? <==> |children| == 0
    ensures r.Some? && r.value.Wildcard? ==> r == FirstWildcard(children)
    ensures FirstWildcard(children).Some? ==> r == FirstWildcard(children)
    ensures FirstWildcard(children).None? && |children| > 0 ==> r == Some(children[0])
  {
    match FirstWildcard(children)
    case Some(w) => Some(w)
    case None => if |children| == 0 then None else Some(children[0])
  }

  /** The name inside `element(…)`: none, the bare `*`, a QName, or a wildcard name such as `*:test`. */
  datatype TestName = NoName | AnyName | Named(name: string) | WildcardNamed(name: string)

  /** The children naming the elements a test matches. */
  function NameChildren(name: TestName): seq<Child> {
    match name
    case NoName => []
    case AnyName => [Token("*")]
    case Named(n) => [QName(n)]
    case WildcardNamed(n) => [Wildcard(n)]
  }

  /** The children after the name: the type given by its local name (if any) and its rendering, then `)`. */
  function TypeChildren(typ: Option<(Option<string>, string)>): seq<Child> {
    if typ.None? then [Token(")")] else [Token(","), TypeName(typ.value.0, typ.value.1), Token(")")]
  }

  /** The children of a complete `element(N, T)` test. */
  function Complete(name: TestName, typ: Option<(Option<string>, string)>): seq<Child> {
    [Token("element")] + ([Token("(")] + (NameChildren(name) + TypeChildren(typ)))
  }

  /** The name a complete test reports. */
  function NameOf(name: TestName): Option<string> {
    match name
    case Named(n) => Some(n)
    case WildcardNamed(n) => Some(n)
    case _ => None
  }

  /** A leading token changes none of the child searches. */
  lemma TokenFirst(t: string, rest: seq<Child>)
    ensures NodeName([Token(t)] + rest) == NodeName(rest)
    ensures FirstWildcard([Token(t)] + rest) == FirstWildcard(rest)
    ensures FirstTypeName([Token(t)] + rest) == FirstTypeName(rest)
  {
    assert ([Token(t)] + rest)[1..] == rest;
  }

  /** The children after the name hold no name, and the type name when a type is given. */
  lemma TypeTail(typ: Option<(Option<string>, string)>)
    ensures NodeName(TypeChildren(typ)).None? && FirstWildcard(TypeChildren(typ)).None?
    ensures FirstTypeName(TypeChildren(typ)) == if typ.None? then None else Some(TypeName(typ.value.0, typ.value.1))
  {
    var z := TypeChildren(typ);
    if typ.Some? {
      assert z[1..][0] == TypeName(typ.value.0, typ.value.1);
    }
  }

  /** The name children decide the name and the wildcard; the type name is found after them. */
  lemma NameTail(name: TestName, z: seq<Child>)
    requires NodeName(z).None? && FirstWildcard(z).None?
    ensures NodeName(NameChildren(name) + z) == NameOf(name)
    ensures FirstWildcard(NameChildren(name) + z) == if name.WildcardNamed? then Some(Wildcard(name.name)) else None
    ensures FirstTypeName(NameChildren(name) + z) == FirstTypeName(z)
  {
    var c := NameChildren(name) + z;
    match name
    case NoName => assert c == z;
    case AnyName => TokenFirst("*", z);
    case Named(n) => assert c[1..] == z;
    case WildcardNamed(n) => assert c[1..] == z;
  }

  /**
   * A complete test: its conformance element is the wildcard name when it
   * has one and the `element` keyword otherwise; it reports the name it was
   * written with and the type when that has a local name, and renders from
   * them.
   */
  lemma CompleteTest(name: TestName, typ: Option<(Option<string>, string)>)
    ensures ConformanceElement(Complete(name, typ)) ==
      (if name.WildcardNamed? then Some(Wildcard(name.name)) else Some(Token("element")))
    ensures NodeName(Complete(name, typ)) == NameOf(name)
    ensures NodeType(Complete(name, typ)) == (if typ.Some? && typ.value.0.Some? then Some(typ.value.1) else None)
    ensures TypeNameOf(Complete(name, typ)) ==
      Render(NameOf(name), if typ.Some? && typ.value.0.Some? then Some(typ.value.1) else None)
  {
    var tail := NameChildren(name) + TypeChildren(typ);
    TypeTail(typ);
    NameTail(name, TypeChildren(typ));
    TokenFirst("(", tail);
    TokenFirst("element", [Token("(")] + tail);
  }
}
