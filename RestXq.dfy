/** The RESTXQ annotations of a function: the path template and the HTTP methods it serves. */
module RestXq {
  import opened Wrappers

  /** An annotation value: a string literal, or any other literal. */
  datatype AnnotationValue = StringValue(data: string) | OtherValue

  /** `%prefix:local(values…)`; `localName` is None when the annotation's name has no local part. */
  datatype Annotation = Annotation(localName: Option<string>, values: seq<AnnotationValue>)

  /** The HTTP 1.1 methods RESTXQ accepts (sections 9.2 to 9.7 of RFC 2616); TRACE and CONNECT are not among them. */
  const Methods: set<string> := {"OPTIONS", "GET", "HEAD", "POST", "PUT", "DELETE"}

  /** `annotation(name)`: the first annotation with that local name, whatever its prefix. */
  function Find(annotations: seq<Annotation>, name: string): (r: Option<Annotation>)
    ensures r.None? <==> forall i :: 0 <= i < |annotations| ==> annotations[i].localName != Some(name)
    ensures r.Some? ==> r.value.localName == Some(name)
    ensures r.Some? ==>
      exists i :: 0 <= i < |annotations| && annotations[i] == r.value &&
        forall j :: 0 <= j < i ==> annotations[j].localName != Some(name)
  {
    if |annotations| == 0 then None
    else if annotations[0].localName == Some(name) then Some(annotations[0])
    else
      var r := Find(annotations[1..], name);
      if r.Some? then
        ghost var i :| 0 <= i < |annotations[1..]| && annotations[1..][i] == r.value &&
          r.value.localName == Some(name) &&
          forall j :: 0 <= j < i ==> annotations[1..][j].localName != Some(name);
        assert annotations[i + 1] == r.value;
        r
      else r
  }

  /** The first string value among an annotation's values. */
  function FirstString(values: seq<AnnotationValue>): (r: Option<string>)
    ensures r.None? <==> forall i :: 0 <= i < |values| ==> !values[i].StringValue?
    ensures r.Some? ==>
      exists i :: 0 <= i < |values| && values[i] == StringValue(r.value) &&
        forall j :: 0 <= j < i ==> !values[j].StringValue?
  {
    if |values| == 0 then None
    else if values[0].StringValue? then Some(values[0].data)
    else
      var r := FirstString(values[1..]);
      if r.Some? then
        ghost var i :| 0 <= i < |values[1..]| && values[1..][i] == StringValue(r.value) &&
          forall j :: 0 <= j < i ==> !values[1..][j].StringValue?;
        assert values[i + 1] == StringValue(r.value);
        r
      else r
  }

  /** Annotation `i` is the first one named `path`. */
  predicate IsFirstPath(annotations: seq<Annotation>, i: int) {
    0 <= i < |annotations| && annotations[i].localName == Some("path") &&
    forall j :: 0 <= j < i ==> annotations[j].localName != Some("path")
  }

  /** `path`: the first string value of the first `path` annotation, or null. */
  function Path(annotations: seq<Annotation>): (r: Option<string>)
    ensures (forall i :: 0 <= i < |annotations| ==> annotations[i].localName != Some("path")) ==> r.None?
    ensures forall i :: IsFirstPath(annotations, i) ==> r == FirstString(annotations[i].values)
  {
    var a := Find(annotations, "path");
    if a.Some? then
      ghost var k :| 0 <= k < |annotations| && annotations[k] == a.value &&
        forall j :: 0 <= j < k ==> annotations[j].localName != Some("path");
      assert forall i :: IsFirstPath(annotations, i) ==> i == k;
      FirstString(a.value.values)
    else None
  }

  /** `methods`: the annotation local names, in order, that are HTTP methods. */
  function MethodNames(annotations: seq<Annotation>): (r: seq<string>)
    ensures forall m :: m in r ==> m in Methods
    ensures forall m :: m in r <==> m in Methods && exists i :: 0 <= i < |annotations| && annotations[i].localName == Some(m)
  {
    if |annotations| == 0 then []
    else
      var rest := MethodNames(annotations[1..]);
      assert forall i :: 0 < i < |annotations| ==> annotations[i] == annotations[1..][i - 1];
      var n := annotations[0].localName;
      if n.Some? && n.value in Methods then [n.value] + rest else rest
  }

  /** The method list of a concatenation is the concatenation of the method lists: order is kept. */
  lemma {:induction false} MethodNamesAppend(a: seq<Annotation>, b: seq<Annotation>)
    ensures MethodNames(a + b) == MethodNames(a) + MethodNames(b)
  {
    if |a| > 0 {
      assert (a + b)[1..] == a[1..] + b;
      MethodNamesAppend(a[1..], b);
    } else {
      assert a + b == b;
    }
  }

  /** A `path` annotation placed before every other annotation decides the path. */
  lemma PathFromFirst(a: Annotation, rest: seq<Annotation>)
    requires a.localName == Some("path")
    ensures Path([a] + rest) == FirstString(a.values)
  {
  }

  /** TRACE and CONNECT are never reported, whatever the annotations say. */
  lemma NoTraceOrConnect(annotations: seq<Annotation>)
    ensures "TRACE" !in MethodNames(annotations) && "CONNECT" !in MethodNames(annotations)
  {
  }
}
