/**
 * What the XQuery parser promises about the trees it builds: which errors
 * each rule can report and where, that string literals are always closed,
 * that QName errors are kept apart, and how the prolog's state machine
 * moves. Every lemma is about the specification functions of XQuerySyntax
 * and XQueryRules, which the parser's methods are proved to follow.
 */
module XQueryProperties {
  import opened Wrappers
  import opened TreeBuilder
  import opened XQuerySyntax
  import opened XQueryRules

  /** The messages two lists of markers report are those each reports. */
  lemma {:induction false} MessagesAppend(a: seq<NodeMarker>, b: seq<NodeMarker>)
    ensures Messages(a + b) == Messages(a) + Messages(b)
  {
    if a != [] {
      assert (a + b)[1..] == a[1..] + b;
      MessagesAppend(a[1..], b);
    } else {
      assert a + b == b;
    }
  }

  // White space and comments.

  /** `skipWhiteSpaceAndCommentTokens` reports only a comment left open, a stray `:)` or a misplaced entity. */
  lemma {:induction false} TriviaMessagesOnly(ts: seq<Token>, p: nat)
    requires p <= |ts|
    ensures Messages(Syntax(TriviaRule, ts, p).nodes) <= TriviaMessages
    decreases |ts| - p
  {
    var t := TriviaItem(ts, p);
    if t.result {
      TriviaStep(ts, p);
      TriviaMessagesOnly(ts, t.end);
      MessagesAppend(t.nodes, Syntax(TriviaRule, ts, t.end).nodes);
    }
  }

  // String literals.

  /** The tokens that end the loop of `parseStringLiteral` without being part of the literal. */
  predicate StopsString(t: Option<Token>) {
    !IsStringPart(t) && t !in {Some(StringLiteralEnd), Some(PartialEntityReference), Some(EmptyEntityReference)}
  }

  /**
   * The loop of `parseStringLiteral` ends either just after the end
   * delimiter, having reported no incomplete string, or at the first
   * token that cannot continue a literal, with "incomplete-string"
   * reported there last; and it reports nothing but entity and string
   * errors.
   */
  lemma {:induction false} StringContentsEnd(ts: seq<Token>, q: nat)
    requires q <= |ts|
    ensures var r := Syntax(StringContentsRule, ts, q);
      Messages(r.nodes) <= StringLiteralMessages &&
      (r.result ==> q < r.end && ts[r.end - 1] == StringLiteralEnd && IncompleteString !in Messages(r.nodes)) &&
      (!r.result ==> |r.nodes| > 0 && r.nodes[|r.nodes| - 1] == Marker(r.end, Failed(r.end, IncompleteString)) && StopsString(Kind(ts, r.end)))
    decreases |ts| - q
  {
    StringLiteralStep(ts, q);
    if IsStringPart(Kind(ts, q)) || Kind(ts, q) in {Some(PartialEntityReference), Some(EmptyEntityReference)} {
      var rest := Syntax(StringContentsRule, ts, q + 1);
      StringContentsEnd(ts, q + 1);
      var part := StringPartNodes(ts, q);
      MessagesAppend(part, rest.nodes);
      if !rest.result {
        assert (part + rest.nodes)[|part + rest.nodes| - 1] == rest.nodes[|rest.nodes| - 1];
      }
    }
  }

  /**
   * A string literal marker is always closed: it spans from the start
   * delimiter to the end delimiter, or else to the token the literal
   * stopped at, where "incomplete-string" is reported.
   */
  lemma StringLiteralClosed(kind: Node, ts: seq<Token>, p: nat)
    requires p < |ts| && ts[p] == StringLiteralStart
    ensures var r := Syntax(StringLiteralRule(kind), ts, p);
      r.result && |r.nodes| > 0 && r.nodes[0] == Marker(p, Completed(r.end, kind)) &&
      Messages(r.nodes) <= StringLiteralMessages &&
      ((p + 1 < r.end && ts[r.end - 1] == StringLiteralEnd && IncompleteString !in Messages(r.nodes)) ||
       (StopsString(Kind(ts, r.end)) && r.nodes[|r.nodes| - 1] == Marker(r.end, Failed(r.end, IncompleteString))))
  {
    StringLiteralStarts(kind, ts, p);
    var body := Syntax(StringContentsRule, ts, p + 1);
    StringContentsEnd(ts, p + 1);
    var head := [Marker(p, Completed(body.end, kind))];
    MessagesAppend(head, body.nodes);
    if !body.result {
      assert (head + body.nodes)[|head + body.nodes| - 1] == body.nodes[|body.nodes| - 1];
    }
  }

  // QNames.

  /** The local part after a `:` reports white space before it, and a missing local name, exactly when the tokens hold them. */
  lemma LocalPartMessages(ts: seq<Token>, q: nat)
    requires q <= |ts|
    ensures var r := Syntax(LocalPartRule, ts, q);
      var after := Syntax(TriviaRule, ts, q);
      Messages(r.nodes) <= TriviaMessages + {WhitespaceAfterLocalPart, MissingLocalName} &&
      (WhitespaceAfterLocalPart in Messages(r.nodes) <==> after.result) &&
      (MissingLocalName in Messages(r.nodes) <==> !IsName(Kind(ts, after.end)))
  {
    LocalPartStep(ts, q);
    var after := Syntax(TriviaRule, ts, q);
    var s := after.end;
    TriviaMessagesOnly(ts, q);
    var afterMarker := [Marker(q, if after.result then Failed(s, WhitespaceAfterLocalPart) else Dropped)];
    var missing :=
      if Kind(ts, s) == Some(StringLiteralStart) then [Marker(s, Failed(s, MissingLocalName))]
      else if IsName(Kind(ts, s)) then []
      else [Marker(s, Failed(Advance(ts, s), MissingLocalName))];
    assert Syntax(LocalPartRule, ts, q).nodes == afterMarker + after.nodes + missing;
    MessagesAppend(afterMarker, after.nodes);
    MessagesAppend(afterMarker + after.nodes, missing);
  }

  /** Without a `:` after the white space, the rest of a QName reports only what the white space does. */
  lemma AfterPrefixNoColon(kind: Node, ts: seq<Token>, q: nat)
    requires q <= |ts| && Kind(ts, Syntax(TriviaRule, ts, q).end) != Some(QNameSeparator)
    ensures var r := Syntax(AfterPrefixRule(kind), ts, q);
      !r.result && Messages(r.nodes) <= TriviaMessages
  {
    AfterPrefixStep(kind, ts, q);
    var before := Syntax(TriviaRule, ts, q);
    TriviaMessagesOnly(ts, q);
    MessagesAppend([Marker(q, Dropped)], before.nodes);
  }

  /** With a `:`, the rest of a QName reports the white space before it, an NCName asked for, and what the local part reports. */
  lemma AfterPrefixColon(kind: Node, ts: seq<Token>, q: nat)
    requires q <= |ts| && Kind(ts, Syntax(TriviaRule, ts, q).end) == Some(QNameSeparator)
    ensures var r := Syntax(AfterPrefixRule(kind), ts, q);
      var before := Syntax(TriviaRule, ts, q);
      r.result &&
      Messages(r.nodes) ==
        (if before.result then {WhitespaceBeforeLocalPart} else {}) + Messages(before.nodes) +
        (if kind == NCNameNode then {ExpectedNCNameNotQName} else {}) +
        Messages(Syntax(LocalPartRule, ts, before.end + 1).nodes)
  {
    AfterPrefixStep(kind, ts, q);
    var before := Syntax(TriviaRule, ts, q);
    var c := before.end;
    var beforeMarker := [Marker(q, if before.result then Failed(c, WhitespaceBeforeLocalPart) else Dropped)];
    var colonNodes := if kind == NCNameNode then [Marker(c, Failed(c + 1, ExpectedNCNameNotQName))] else [];
    var local := Syntax(LocalPartRule, ts, c + 1);
    MessagesAppend(beforeMarker, before.nodes);
    MessagesAppend(beforeMarker + before.nodes, colonNodes);
    MessagesAppend(beforeMarker + before.nodes + colonNodes, local.nodes);
  }

  /** The messages of the rest of a QName with a `:`, and those of its parts, each of which reports only its own kinds. */
  lemma AfterPrefixColonParts(kind: Node, ts: seq<Token>, q: nat) returns (B: set<Message>, L: set<Message>)
    requires q <= |ts| && Kind(ts, Syntax(TriviaRule, ts, q).end) == Some(QNameSeparator)
    ensures var r := Syntax(AfterPrefixRule(kind), ts, q);
      var before := Syntax(TriviaRule, ts, q);
      r.result &&
      Messages(r.nodes) == (if before.result then {WhitespaceBeforeLocalPart} else {}) + B +
        (if kind == NCNameNode then {ExpectedNCNameNotQName} else {}) + L
    ensures forall m :: m in B ==> m.IncompleteComment? || m.EndOfCommentWithoutStart? || m.MisplacedEntity?
    ensures forall m :: m in L ==> m.IncompleteComment? || m.EndOfCommentWithoutStart? || m.MisplacedEntity? || m.WhitespaceAfterLocalPart? || m.MissingLocalName?
    ensures var after := Syntax(TriviaRule, ts, Syntax(TriviaRule, ts, q).end + 1);
      (WhitespaceAfterLocalPart in L <==> after.result) && (MissingLocalName in L <==> !IsName(Kind(ts, after.end)))
  {
    hide Syntax, Messages;
    var before := Syntax(TriviaRule, ts, q);
    B := Messages(before.nodes);
    TriviaMessagesOnly(ts, q);
    AfterPrefixColon(kind, ts, q);
    L := Messages(Syntax(LocalPartRule, ts, before.end + 1).nodes);
    LocalPartMessages(ts, before.end + 1);
  }

  /** After a name and a `:`, each QName error is reported exactly when the tokens hold it. */
  lemma AfterPrefixColonMessages(kind: Node, ts: seq<Token>, q: nat)
    requires q <= |ts| && Kind(ts, Syntax(TriviaRule, ts, q).end) == Some(QNameSeparator)
    ensures var r := Syntax(AfterPrefixRule(kind), ts, q);
      var before := Syntax(TriviaRule, ts, q);
      var after := Syntax(TriviaRule, ts, before.end + 1);
      r.result &&
      Messages(r.nodes) <= QNameMessages &&
      (WhitespaceBeforeLocalPart in Messages(r.nodes) <==> before.result) &&
      (ExpectedNCNameNotQName in Messages(r.nodes) <==> kind == NCNameNode) &&
      (WhitespaceAfterLocalPart in Messages(r.nodes) <==> after.result) &&
      (MissingLocalName in Messages(r.nodes) <==> !IsName(Kind(ts, after.end))) &&
      MissingPrefix !in Messages(r.nodes)
  {
    var B, L := AfterPrefixColonParts(kind, ts, q);
    hide Syntax, Messages;
  }

  /** After a name with no `:`, the rest of a QName reports none of the QName errors of its own. */
  lemma AfterPrefixNoColonMessages(kind: Node, ts: seq<Token>, q: nat)
    requires q <= |ts| && Kind(ts, Syntax(TriviaRule, ts, q).end) != Some(QNameSeparator)
    ensures var r := Syntax(AfterPrefixRule(kind), ts, q);
      !r.result && Messages(r.nodes) <= QNameMessages &&
      WhitespaceBeforeLocalPart !in Messages(r.nodes) && ExpectedNCNameNotQName !in Messages(r.nodes) &&
      WhitespaceAfterLocalPart !in Messages(r.nodes) && MissingLocalName !in Messages(r.nodes) &&
      MissingPrefix !in Messages(r.nodes)
  {
    hide Syntax, Messages;
    AfterPrefixNoColon(kind, ts, q);
    var M := Messages(Syntax(AfterPrefixRule(kind), ts, q).nodes);
    assert forall m :: m in M ==> m.IncompleteComment? || m.EndOfCommentWithoutStart? || m.MisplacedEntity?;
  }

  /** What `parseQName` reports after a name, from the token `q` after it. */
  lemma AfterPrefixMessages(kind: Node, ts: seq<Token>, q: nat)
    requires q <= |ts|
    ensures var r := Syntax(AfterPrefixRule(kind), ts, q);
      var before := Syntax(TriviaRule, ts, q);
      var colon := Kind(ts, before.end) == Some(QNameSeparator);
      (r.result <==> colon) &&
      Messages(r.nodes) <= QNameMessages &&
      (WhitespaceBeforeLocalPart in Messages(r.nodes) <==> before.result && colon) &&
      (ExpectedNCNameNotQName in Messages(r.nodes) <==> colon && kind == NCNameNode) &&
      (WhitespaceAfterLocalPart in Messages(r.nodes) <==> colon && Syntax(TriviaRule, ts, before.end + 1).result) &&
      (MissingLocalName in Messages(r.nodes) <==> colon && !IsName(Kind(ts, Syntax(TriviaRule, ts, before.end + 1).end))) &&
      MissingPrefix !in Messages(r.nodes)
  {
    if Kind(ts, Syntax(TriviaRule, ts, q).end) == Some(QNameSeparator) {
      AfterPrefixColonMessages(kind, ts, q);
    } else {
      AfterPrefixNoColonMessages(kind, ts, q);
    }
  }

  /**
   * The errors of a QName that starts with a name are kept apart: white
   * space before the `:`, an NCName asked for, white space after the
   * `:`, and a missing local name are each reported exactly when that is
   * what the tokens hold, and a missing prefix never is. The node is a
   * QName when the `:` is there.
   */
  lemma QNameAfterName(kind: Node, ts: seq<Token>, p: nat)
    requires p < |ts| && IsName(Kind(ts, p))
    ensures var r := Syntax(QNameRule(kind), ts, p);
      var before := Syntax(TriviaRule, ts, p + 1);
      var colon := Kind(ts, before.end) == Some(QNameSeparator);
      r.result && |r.nodes| > 0 &&
      r.nodes[0] == Marker(p, Completed(r.end, if colon then PrefixedKind(kind) else UnprefixedKind(kind))) &&
      Messages(r.nodes) <= QNameMessages &&
      (WhitespaceBeforeLocalPart in Messages(r.nodes) <==> before.result && colon) &&
      (ExpectedNCNameNotQName in Messages(r.nodes) <==> colon && kind == NCNameNode) &&
      (WhitespaceAfterLocalPart in Messages(r.nodes) <==> colon && Syntax(TriviaRule, ts, before.end + 1).result) &&
      (MissingLocalName in Messages(r.nodes) <==> colon && !IsName(Kind(ts, Syntax(TriviaRule, ts, before.end + 1).end))) &&
      MissingPrefix !in Messages(r.nodes)
  {
    QNamePrefixed(kind, ts, p);
    var rest := Syntax(AfterPrefixRule(kind), ts, p + 1);
    AfterPrefixMessages(kind, ts, p + 1);
    MessagesAppend([Marker(p, Completed(rest.end, if rest.result then PrefixedKind(kind) else UnprefixedKind(kind)))], rest.nodes);
  }

  /** A QName that starts with a `:` is one error node: a missing prefix, or an NCName asked for. */
  lemma QNameLeadingColon(kind: Node, ts: seq<Token>, p: nat)
    requires p < |ts| && ts[p] == QNameSeparator
    ensures var r := Syntax(QNameRule(kind), ts, p);
      r.result && |r.nodes| > 0 && r.nodes[0].start == p &&
      r.nodes[0].state == Failed(r.end, if kind == NCNameNode then ExpectedNCNameNotQName else MissingPrefix) &&
      Messages(r.nodes) <= QNameMessages
  {
    QNameMissingPrefix(kind, ts, p);
    TriviaMessagesOnly(ts, p + 1);
    var t := Syntax(TriviaRule, ts, p + 1);
    var e := if IsName(Kind(ts, t.end)) then t.end + 1 else t.end;
    MessagesAppend([Marker(p, Failed(e, if kind == NCNameNode then ExpectedNCNameNotQName else MissingPrefix))], t.nodes);
  }
}
