/**
 * The XQST0118 inspection: a direct element constructor whose closing tag
 * does not repeat the opening tag's QName is reported on the closing tag.
 */
module Xqst0118 {
  import opened Wrappers
  import PsiTree

  /** A QName as written: its prefix and local name, each possibly missing. */
  datatype QName = QName(prefix: Option<string>, localName: Option<string>)

  /** The opening and closing tag names of a direct element constructor; `closeAt` is the closing tag's node. */
  datatype ElementTags = ElementTags(open: Option<QName>, close: Option<QName>, closeAt: nat)

  /** A mismatched-tag problem: the closing tag it is reported on, and the two names for the message. */
  datatype Problem = Problem(at: nat, closeTag: QName, openTag: QName)

  /** Both tags have a local name, so the element is checked. */
  predicate Checked(e: ElementTags) {
    e.open.Some? && e.open.value.localName.Some? && e.close.Some? && e.close.value.localName.Some?
  }

  /** A checked element whose tags differ in prefix or in local name. */
  predicate Mismatched(e: ElementTags) {
    Checked(e) && (e.open.value.prefix != e.close.value.prefix || e.open.value.localName != e.close.value.localName)
  }

  /** The problems for a sequence of elements, in order: one for each mismatched element. */
  function Problems(elements: seq<ElementTags>): (r: seq<Problem>)
    ensures |r| <= |elements|
  {
    if |elements| == 0 then []
    else
      Report(elements[0]) + Problems(elements[1..])
  }

  /** The element constructors among the walked nodes, in walk order (`filterIsInstance<XdmElementNode>`). */
  function ElementsOf(walk: seq<nat>, elements: map<nat, ElementTags>): seq<ElementTags> {
    if |walk| == 0 then []
    else (if walk[0] in elements then [elements[walk[0]]] else []) + ElementsOf(walk[1..], elements)
  }

  /** One pass of the loop of `checkFile`: the problem for the walked node, when it is a mismatched element. */
  method CheckNode(node: nat, elements: map<nat, ElementTags>) returns (found: seq<Problem>)
    ensures found == if node in elements then Report(elements[node]) else []
  {
    found := [];
    if node in elements {
      var elem := elements[node];
      if elem.open.Some? && elem.open.value.localName.Some? && elem.close.Some? && elem.close.value.localName.Some? {
        var openTag, closeTag := elem.open.value, elem.close.value;
        if openTag.prefix != closeTag.prefix || openTag.localName != closeTag.localName {
          found := [Problem(elem.closeAt, closeTag, openTag)];
        }
      }
    }
  }

  /** Nothing is reported past the end of the walk. */
  lemma WalkEnd(walk: seq<nat>, elements: map<nat, ElementTags>)
    ensures Problems(ElementsOf(walk[|walk|..], elements)) == []
  {
  }

  /**
   * `checkFile`: null for a file that is not an XQuery module; otherwise the
   * problems for the element constructors met while walking the file.
   */
  method CheckFile(isXQueryModule: bool, tree: PsiTree.Tree, file: nat, elements: map<nat, ElementTags>)
    returns (r: Option<seq<Problem>>)
    requires PsiTree.Ordered(tree) && file < |tree|
    ensures !isXQueryModule <==> r.None?
    ensures r.Some? ==> r.value == Problems(ElementsOf(PsiTree.Walk(tree, file), elements))
  {
    if !isXQueryModule {
      return None;
    }
    var walk := PsiTree.WalkTree(tree, file);
    hide Problems, ElementsOf;
    assert walk[0..] == walk;
    var descriptors: seq<Problem> := [];
    var i := 0;
    while i < |walk|
      invariant 0 <= i <= |walk|
      invariant descriptors + Problems(ElementsOf(walk[i..], elements)) == Problems(ElementsOf(walk, elements))
    {
      var found := CheckNode(walk[i], elements);
      WalkStep(walk, i, elements);
      AppendAssociative(descriptors, found, Problems(ElementsOf(walk[i + 1..], elements)));
      descriptors := descriptors + found;
      i := i + 1;
    }
    WalkEnd(walk, elements);
    return Some(descriptors);
  }

  /** What one element contributes to the problems. */
  function Report(e: ElementTags): seq<Problem> {
    if Mismatched(e) then [Problem(e.closeAt, e.close.value, e.open.value)] else []
  }

  /** One walked node contributes its element's report, if it is an element. */
  lemma WalkStep(walk: seq<nat>, i: nat, elements: map<nat, ElementTags>)
    requires i < |walk|
    ensures Problems(ElementsOf(walk[i..], elements)) ==
      (if walk[i] in elements then Report(elements[walk[i]]) else []) + Problems(ElementsOf(walk[i + 1..], elements))
  {
    assert walk[i..][1..] == walk[i + 1..];
    if walk[i] in elements {
      ProblemsCons(elements[walk[i]], ElementsOf(walk[i + 1..], elements));
    } else {
      assert ElementsOf(walk[i..], elements) == [] + ElementsOf(walk[i + 1..], elements);
      assert [] + ElementsOf(walk[i + 1..], elements) == ElementsOf(walk[i + 1..], elements);
    }
  }

  lemma AppendAssociative(a: seq<Problem>, b: seq<Problem>, c: seq<Problem>)
    ensures a + (b + c) == (a + b) + c
  {
  }

  lemma ProblemsCons(e: ElementTags, rest: seq<ElementTags>)
    ensures Problems([e] + rest) == Report(e) + Problems(rest)
  {
    assert ([e] + rest)[1..] == rest;
  }

  lemma {:induction false} ProblemsAppend(a: seq<ElementTags>, b: seq<ElementTags>)
    ensures Problems(a + b) == Problems(a) + Problems(b)
  {
    if |a| > 0 {
      assert (a + b)[1..] == a[1..] + b;
      ProblemsAppend(a[1..], b);
    } else {
      assert a + b == b;
    }
  }

  /**
   * Exactly the mismatched elements are reported, each once and on its
   * closing tag: an element with matching tags, or one whose open or close tag
   * lacks a local name, adds nothing.
   */
  lemma {:induction false} ReportedIffMismatched(elements: seq<ElementTags>, k: nat)
    requires k < |elements|
    ensures var before := Problems(elements[..k]);
      var here := Problems(elements[..k + 1]);
      (Mismatched(elements[k]) ==> here == before + [Problem(elements[k].closeAt, elements[k].close.value, elements[k].open.value)]) &&
      (!Mismatched(elements[k]) ==> here == before)
  {
    assert elements[..k + 1] == elements[..k] + [elements[k]];
    ProblemsAppend(elements[..k], [elements[k]]);
    ProblemsCons(elements[k], []);
    assert [elements[k]] + [] == [elements[k]];
  }

  /** Every reported problem sits on the closing tag of a mismatched element. */
  lemma {:induction false} ProblemsAreOnClosingTags(elements: seq<ElementTags>)
    ensures forall p :: p in Problems(elements) ==>
      exists e :: e in elements && Mismatched(e) && p == Problem(e.closeAt, e.close.value, e.open.value)
  {
    if |elements| > 0 {
      ProblemsAreOnClosingTags(elements[1..]);
      assert forall e :: e in elements[1..] ==> e in elements;
    }
  }
}
