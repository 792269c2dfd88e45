/**
 * What the XQuery parser promises about declarations and the prolog:
 * which errors a declaration reports, that a declaration missing its `;`
 * is still a node and reports the `;` only when nothing went wrong
 * before, the version gate on `xquery encoding`, the prolog's state
 * machine, and the recovery of unknown declarations.
 */
module XQueryDeclProperties {
  import opened Wrappers
  import opened TreeBuilder
  import opened XQuerySyntax
  import opened XQueryRules
  import opened XQueryProperties

  /** The messages the parts of a declaration can report themselves. */
  const PartMessages: set<Message> := QNameMessages + StringLiteralMessages

  /** Trivia errors are among the errors of the parts. */
  lemma TriviaWithinParts()
    ensures TriviaMessages <= PartMessages
  {
  }

  /** A QName reports only QName and trivia errors. */
  lemma QNameMessagesOnly(kind: Node, ts: seq<Token>, p: nat)
    requires p <= |ts|
    ensures Messages(Syntax(QNameRule(kind), ts, p).nodes) <= QNameMessages
  {
    if IsName(Kind(ts, p)) {
      QNameAfterName(kind, ts, p);
    } else if Kind(ts, p) == Some(QNameSeparator) {
      QNameLeadingColon(kind, ts, p);
    } else {
      QNameAbsent(kind, ts, p);
    }
  }

  /** A string literal reports only entity and string errors. */
  lemma StringLiteralMessagesOnly(kind: Node, ts: seq<Token>, p: nat)
    requires p <= |ts|
    ensures Messages(Syntax(StringLiteralRule(kind), ts, p).nodes) <= StringLiteralMessages
  {
    if Kind(ts, p) == Some(StringLiteralStart) {
      StringLiteralClosed(kind, ts, p);
    } else {
      StringLiteralAbsent(kind, ts, p);
    }
  }

  /** A part of a declaration reports only what a QName or a string literal can. */
  lemma PartMessagesOnly(part: Part, g: Grammar, ts: seq<Token>, q: nat)
    requires ValidGrammar(g) && q <= |ts|
    ensures Messages(PartOf(part, g, ts, q).nodes) <= PartMessages
  {
    match part
    case QNamePart(kind) => QNameMessagesOnly(kind, ts, q);
    case LiteralPart(kind) => StringLiteralMessagesOnly(kind, ts, q);
    case _ =>
  }

  /**
   * A required part reports its own message when it is missing and
   * nothing was reported before, and `haveErrors` afterwards says
   * whether the message was reported now or before.
   */
  lemma RequireMessages(haveErrors: bool, part: Part, message: Message, g: Grammar, ts: seq<Token>, q: nat)
    requires ValidGrammar(g) && q <= |ts| && message !in PartMessages
    ensures var r := Basic(RequireRule(haveErrors, part, message), g, ts, q);
      var x := PartOf(part, g, ts, Syntax(TriviaRule, ts, q).end);
      Messages(r.nodes) <= PartMessages + {message} &&
      (message in Messages(r.nodes) <==> !haveErrors && !x.result) &&
      (r.result <==> haveErrors || message in Messages(r.nodes))
  {
    var t := Syntax(TriviaRule, ts, q);
    var x := PartOf(part, g, ts, t.end);
    TriviaMessagesOnly(ts, q);
    PartMessagesOnly(part, g, ts, t.end);
    var error := if !x.result && !haveErrors then [Marker(x.end, Failed(x.end, message))] else [];
    assert Basic(RequireRule(haveErrors, part, message), g, ts, q).nodes == t.nodes + (x.nodes + error);
    MessagesAppend(t.nodes, x.nodes + error);
    MessagesAppend(x.nodes, error);
  }

  /** A string literal and the trivia after it reports only what they can. */
  lemma TriviaAppendMessages(a: seq<NodeMarker>, ts: seq<Token>, q: nat)
    requires q <= |ts|
    ensures Messages(a + Syntax(TriviaRule, ts, q).nodes) <= Messages(a) + TriviaMessages
    ensures Messages(a) <= Messages(a + Syntax(TriviaRule, ts, q).nodes)
  {
    TriviaMessagesOnly(ts, q);
    MessagesAppend(a, Syntax(TriviaRule, ts, q).nodes);
  }

  /** A message of its own reported by one of four parts is reported by them together. */
  lemma ReportedOne<T>(parts: set<T>, m1: set<T>, m2: set<T>, m3: set<T>, m4: set<T>, t: set<T>,
                    a: T, b: T, c: T, d: T)
    requires a in m1 || b in m2 || c in m3 || d in m4
    ensures !(m1 + m2 + m3 + m4 + t !! {a, b, c, d})
  {
    var all := m1 + m2 + m3 + m4 + t;
    var m := if a in m1 then a else if b in m2 then b else if c in m3 then c else d;
    assert m in all && m in {a, b, c, d};
  }

  /** A message of their own reported by four parts together was reported by the part it belongs to. */
  lemma ReportedBy<T>(parts: set<T>, m1: set<T>, m2: set<T>, m3: set<T>, m4: set<T>, t: set<T>,
                   a: T, b: T, c: T, d: T)
    requires a !in parts && b !in parts && c !in parts && d !in parts
    requires a != b && a != c && a != d && b != c && b != d && c != d
    requires m1 <= parts + {a} && m2 <= parts + {b} && m3 <= parts + {c} && m4 <= parts + {d} && t <= parts
    requires !(m1 + m2 + m3 + m4 + t !! {a, b, c, d})
    ensures a in m1 || b in m2 || c in m3 || d in m4
  {
    var m :| m in m1 + m2 + m3 + m4 + t && m in {a, b, c, d};
    assert m !in parts && m !in t;
    if m == a {
      assert a !in m2 && a !in m3 && a !in m4;
    } else if m == b {
      assert b !in m1 && b !in m3 && b !in m4;
    } else if m == c {
      assert c !in m1 && c !in m2 && c !in m4;
    } else {
      assert d !in m1 && d !in m2 && d !in m3;
    }
  }

  /** A message of its own reported by one of three parts is reported by them together, and only then. */
  lemma ReportedThree<T>(all: set<T>, own: set<T>, parts: set<T>, m1: set<T>, m2: set<T>, m3: set<T>, a: T, b: T, c: T)
    requires all == m1 + m2 + m3 && own == {a, b, c}
    requires a !in parts && b !in parts && c !in parts && a != b && a != c && b != c
    requires m1 <= parts + {a} && m2 <= parts + {b} && m3 <= parts + {c}
    ensures all <= parts + own
    ensures !(all !! own) <==> a in m1 || b in m2 || c in m3
  {
    if a in m1 || b in m2 || c in m3 {
      var m := if a in m1 then a else if b in m2 then b else c;
      assert m in all && m in own;
    }
    if !(all !! own) {
      var m :| m in all && m in own;
      assert m !in parts;
      if m == a {
        assert a !in m2 && a !in m3;
      } else if m == b {
        assert b !in m1 && b !in m3;
      } else {
        assert c !in m1 && c !in m2;
      }
    }
  }

  /**
   * Four parts, each reporting its own message besides what the parts of
   * a declaration report, and trivia: one of the four messages is
   * reported exactly when one part reported its own.
   */
  lemma ReportedFour<T>(all: set<T>, own: set<T>, parts: set<T>, m1: set<T>, m2: set<T>, m3: set<T>, m4: set<T>, t: set<T>,
                     a: T, b: T, c: T, d: T)
    requires all == m1 + m2 + m3 + m4 + t && own == {a, b, c, d}
    requires a !in parts && b !in parts && c !in parts && d !in parts
    requires a != b && a != c && a != d && b != c && b != d && c != d
    requires m1 <= parts + {a} && m2 <= parts + {b} && m3 <= parts + {c} && m4 <= parts + {d} && t <= parts
    ensures all <= parts + own
    ensures !(all !! own) <==> a in m1 || b in m2 || c in m3 || d in m4
  {
    if a in m1 || b in m2 || c in m3 || d in m4 {
      ReportedOne(parts, m1, m2, m3, m4, t, a, b, c, d);
    }
    if !(m1 + m2 + m3 + m4 + t !! {a, b, c, d}) {
      ReportedBy(parts, m1, m2, m3, m4, t, a, b, c, d);
    }
  }

  // The version and module declarations.

  /** The errors `parseVersionDecl` sets `haveErrors` for. */
  const VersionDeclMessages: set<Message> := {ExpectedKeyword([KVersion]), ExpectedVersionString, ExpectedEncodingString}

  /** The errors `parseModuleDecl` sets `haveErrors` for. */
  const ModuleDeclMessages: set<Message> := {ExpectedKeyword([KNamespace]), ExpectedNCName, Expected(Equal), ExpectedUriString}

  /** The errors of a module declaration are apart from those of its parts. */
  lemma ModuleDeclMessagesApart()
    ensures ModuleDeclMessages == {ExpectedKeyword([KNamespace]), ExpectedNCName, Expected(Equal), ExpectedUriString}
    ensures ExpectedKeyword([KNamespace]) !in PartMessages && ExpectedNCName !in PartMessages
    ensures Expected(Equal) !in PartMessages && ExpectedUriString !in PartMessages
  {
  }

  /** "expected ;" is none of the errors of a declaration's parts, nor of a version or module declaration's own. */
  lemma SeparatorApart(own: set<Message>)
    requires own == ModuleDeclMessages || own == VersionDeclMessages + {VersionDecl30}
    ensures Expected(Separator) !in PartMessages + own
  {
  }

  /** The parts of a module declaration after `module`. */
  lemma ModuleDeclBodyStep(g: Grammar, ts: seq<Token>, q: nat)
    requires ValidGrammar(g) && q <= |ts|
    ensures var namespace := Basic(RequireRule(false, TokenPart(Keyword(KNamespace)), ExpectedKeyword([KNamespace])), g, ts, q);
      var prefix := Basic(RequireRule(namespace.result, QNamePart(NCNameNode), ExpectedNCName), g, ts, namespace.end);
      var equal := Basic(RequireRule(prefix.result, TokenPart(Equal), Expected(Equal)), g, ts, prefix.end);
      var uri := Basic(RequireRule(equal.result, LiteralPart(UriLiteralNode), ExpectedUriString), g, ts, equal.end);
      var t := Syntax(TriviaRule, ts, uri.end);
      Head(ModuleDeclBodyRule, g, ts, q) == Outcome(uri.result, t.end, namespace.nodes + prefix.nodes + equal.nodes + uri.nodes + t.nodes)
  {
  }

  /**
   * After `module`, `haveErrors` is true exactly when one of the
   * declaration's own errors was reported, and nothing but those and the
   * errors of its parts is.
   */
  lemma ModuleDeclBodyReports(g: Grammar, ts: seq<Token>, q: nat)
    requires ValidGrammar(g) && q <= |ts|
    ensures var r := Head(ModuleDeclBodyRule, g, ts, q);
      Messages(r.nodes) <= PartMessages + ModuleDeclMessages &&
      (r.result <==> !(Messages(r.nodes) !! ModuleDeclMessages))
  {
    var namespace := Basic(RequireRule(false, TokenPart(Keyword(KNamespace)), ExpectedKeyword([KNamespace])), g, ts, q);
    var prefix := Basic(RequireRule(namespace.result, QNamePart(NCNameNode), ExpectedNCName), g, ts, namespace.end);
    var equal := Basic(RequireRule(prefix.result, TokenPart(Equal), Expected(Equal)), g, ts, prefix.end);
    var uri := Basic(RequireRule(equal.result, LiteralPart(UriLiteralNode), ExpectedUriString), g, ts, equal.end);
    var t := Syntax(TriviaRule, ts, uri.end);
    ModuleDeclBodyStep(g, ts, q);
    ModuleDeclMessagesApart();
    hide *;
    RequireMessages(false, TokenPart(Keyword(KNamespace)), ExpectedKeyword([KNamespace]), g, ts, q);
    RequireMessages(namespace.result, QNamePart(NCNameNode), ExpectedNCName, g, ts, namespace.end);
    RequireMessages(prefix.result, TokenPart(Equal), Expected(Equal), g, ts, prefix.end);
    RequireMessages(equal.result, LiteralPart(UriLiteralNode), ExpectedUriString, g, ts, equal.end);
    TriviaMessagesOnly(ts, uri.end);
    MessagesAppend(namespace.nodes, prefix.nodes);
    MessagesAppend(namespace.nodes + prefix.nodes, equal.nodes);
    MessagesAppend(namespace.nodes + prefix.nodes + equal.nodes, uri.nodes);
    MessagesAppend(namespace.nodes + prefix.nodes + equal.nodes + uri.nodes, t.nodes);
    ReportedFour(Messages(Head(ModuleDeclBodyRule, g, ts, q).nodes), ModuleDeclMessages, PartMessages, Messages(namespace.nodes), Messages(prefix.nodes), Messages(equal.nodes), Messages(uri.nodes), Messages(t.nodes),
      ExpectedKeyword([KNamespace]), ExpectedNCName, Expected(Equal), ExpectedUriString);
  }

  /**
   * A version or module declaration is completed as a node whether or not
   * its `;` is there, and the missing `;` is reported exactly when the
   * declaration's `haveErrors` is false.
   */
  lemma TerminatedReports(kind: Node, p: nat, ts: seq<Token>, body: Outcome<bool>, reported: set<Message>)
    requires p < body.end <= |ts| && Messages(body.nodes) <= reported && Expected(Separator) !in reported
    ensures var r := Terminated(kind, p, ts, body);
      var semicolon := Kind(ts, body.end) == Some(Separator);
      r.result && |r.nodes| >= 1 + |body.nodes| &&
      r.nodes[0] == Marker(p, Completed(if semicolon then body.end + 1 else body.end, kind)) &&
      r.nodes[1..1 + |body.nodes|] == body.nodes &&
      Messages(r.nodes) == Messages(body.nodes) + (if !semicolon && !body.result then {Expected(Separator)} else {}) &&
      Messages(r.nodes) <= reported + {Expected(Separator)} &&
      (Expected(Separator) in Messages(r.nodes) <==> !semicolon && !body.result)
  {
    var s := body.end;
    var head := [Marker(p, Completed(if Kind(ts, s) == Some(Separator) then s + 1 else s, kind))];
    var error := if Kind(ts, s) != Some(Separator) && !body.result then [Marker(s, Failed(s, Expected(Separator)))] else [];
    assert Terminated(kind, p, ts, body).nodes == head + body.nodes + error;
    MessagesAppend(head, body.nodes);
    MessagesAppend(head + body.nodes, error);
  }

  /**
   * `parseModuleDecl`: the MODULE_DECL node is completed with or without
   * its `;`, and "expected ;" is reported exactly when the `;` is missing
   * and no earlier error of the declaration was reported.
   */
  lemma ModuleDeclTerminated(g: Grammar, ts: seq<Token>, p: nat)
    requires ValidGrammar(g) && p < |ts| && ts[p] == Keyword(KModule)
    ensures var r := Head(ModuleDeclRule, g, ts, p);
      var body := Head(ModuleDeclBodyRule, g, ts, p + 1);
      var semicolon := Kind(ts, body.end) == Some(Separator);
      r.result && |r.nodes| >= 1 + |body.nodes| &&
      r.nodes[0] == Marker(p, Completed(if semicolon then body.end + 1 else body.end, ModuleDeclNode)) &&
      Messages(r.nodes) <= PartMessages + ModuleDeclMessages + {Expected(Separator)} &&
      (Expected(Separator) in Messages(r.nodes) <==> !semicolon && Messages(body.nodes) !! ModuleDeclMessages)
  {
    var body := Head(ModuleDeclBodyRule, g, ts, p + 1);
    ModuleDeclStep(g, ts, p);
    hide Syntax, Basic, Head, Required, Match, Terminated;
    assert Messages(body.nodes) <= PartMessages + ModuleDeclMessages &&
      (body.result <==> !(Messages(body.nodes) !! ModuleDeclMessages)) by { ModuleDeclBodyReports(g, ts, p + 1); }
    assert Expected(Separator) !in PartMessages + ModuleDeclMessages by { SeparatorApart(ModuleDeclMessages); }
    hide Messages;
    TerminatedReports(ModuleDeclNode, p, ts, body, PartMessages + ModuleDeclMessages);
  }

  /** The errors of a version declaration are apart from each other and from those of its parts. */
  lemma VersionDeclMessagesApart()
    ensures VersionDeclMessages == {ExpectedKeyword([KVersion]), ExpectedVersionString, ExpectedEncodingString}
    ensures ExpectedKeyword([KVersion]) !in PartMessages && ExpectedVersionString !in PartMessages
    ensures ExpectedEncodingString !in PartMessages && VersionDecl30 !in PartMessages + VersionDeclMessages
  {
  }

  /** The encoding string: `haveErrors` afterwards says whether "expected-encoding-string" was reported now or before. */
  lemma EncodingStringReports(haveErrors: bool, g: Grammar, ts: seq<Token>, q: nat)
    requires ValidGrammar(g) && q <= |ts|
    ensures var r := Head(EncodingStringRule(haveErrors), g, ts, q);
      Messages(r.nodes) <= PartMessages + {ExpectedEncodingString} &&
      (r.result <==> haveErrors || ExpectedEncodingString in Messages(r.nodes))
  {
    var literal := Basic(RequireRule(haveErrors, LiteralPart(StringLiteralNode), ExpectedEncodingString), g, ts, q);
    var t := Syntax(TriviaRule, ts, literal.end);
    assert Head(EncodingStringRule(haveErrors), g, ts, q) == Outcome(literal.result, t.end, literal.nodes + t.nodes);
    VersionDeclMessagesApart();
    RequireMessages(haveErrors, LiteralPart(StringLiteralNode), ExpectedEncodingString, g, ts, q);
    TriviaAppendMessages(literal.nodes, ts, literal.end);
  }

  /** The parts of `version S (encoding S)?`. */
  lemma VersionEncodingStep(g: Grammar, ts: seq<Token>, q: nat)
    requires ValidGrammar(g) && q <= |ts|
    ensures var version := Required(false, Match(Keyword(KVersion), ts, q), ExpectedKeyword([KVersion]));
      var literal := Basic(RequireRule(version.result, LiteralPart(StringLiteralNode), ExpectedVersionString), g, ts, version.end);
      var t := Syntax(TriviaRule, ts, literal.end);
      var encoding :=
        if Kind(ts, t.end) == Some(Keyword(KEncoding)) then Head(EncodingStringRule(literal.result), g, ts, t.end + 1)
        else Outcome(literal.result, t.end, []);
      Head(VersionEncodingRule, g, ts, q) == Outcome(encoding.result, encoding.end, version.nodes + (literal.nodes + t.nodes) + encoding.nodes)
  {
    var version := Required(false, Match(Keyword(KVersion), ts, q), ExpectedKeyword([KVersion]));
    var literal := Basic(RequireRule(version.result, LiteralPart(StringLiteralNode), ExpectedVersionString), g, ts, version.end);
    var t := Syntax(TriviaRule, ts, literal.end);
    assert version.nodes + literal.nodes + t.nodes == version.nodes + (literal.nodes + t.nodes);
  }

  /** The optional `encoding S` after the version string, from the token `q` after the trivia. */
  lemma OptionalEncodingReports(haveErrors: bool, g: Grammar, ts: seq<Token>, q: nat)
    requires ValidGrammar(g) && q <= |ts|
    ensures var encoding :=
        if Kind(ts, q) == Some(Keyword(KEncoding)) then Head(EncodingStringRule(haveErrors), g, ts, q + 1)
        else Outcome(haveErrors, q, []);
      Messages(encoding.nodes) <= PartMessages + {ExpectedEncodingString} &&
      (encoding.result <==> haveErrors || ExpectedEncodingString in Messages(encoding.nodes))
  {
    if Kind(ts, q) == Some(Keyword(KEncoding)) {
      EncodingStringReports(haveErrors, g, ts, q + 1);
    }
  }

  /** `version S` reports "expected version" or "expected-version-string" as `haveErrors` says. */
  lemma VersionStringReports(g: Grammar, ts: seq<Token>, q: nat)
    requires ValidGrammar(g) && q <= |ts|
    ensures var version := Required(false, Match(Keyword(KVersion), ts, q), ExpectedKeyword([KVersion]));
      var literal := Basic(RequireRule(version.result, LiteralPart(StringLiteralNode), ExpectedVersionString), g, ts, version.end);
      var t := Syntax(TriviaRule, ts, literal.end);
      version.end <= literal.end <= t.end <= |ts| &&
      Messages(version.nodes) <= PartMessages + {ExpectedKeyword([KVersion])} &&
      Messages(literal.nodes + t.nodes) <= PartMessages + {ExpectedVersionString} &&
      (literal.result <==> ExpectedKeyword([KVersion]) in Messages(version.nodes) || ExpectedVersionString in Messages(literal.nodes + t.nodes))
  {
    var version := Required(false, Match(Keyword(KVersion), ts, q), ExpectedKeyword([KVersion]));
    var literal := Basic(RequireRule(version.result, LiteralPart(StringLiteralNode), ExpectedVersionString), g, ts, version.end);
    VersionDeclMessagesApart();
    RequireMessages(version.result, LiteralPart(StringLiteralNode), ExpectedVersionString, g, ts, version.end);
    TriviaAppendMessages(literal.nodes, ts, literal.end);
  }

  /** Three parts in a row, each with its own error, of which `haveErrors` records the first. */
  lemma CombineThree(r: Outcome<bool>, first: Outcome<bool>, second: Outcome<bool>, third: Outcome<bool>,
                     own: set<Message>, a: Message, b: Message, c: Message)
    requires r.result == third.result && r.nodes == first.nodes + second.nodes + third.nodes
    requires own == {a, b, c} && a !in PartMessages && b !in PartMessages && c !in PartMessages && a != b && a != c && b != c
    requires Messages(first.nodes) <= PartMessages + {a} && Messages(second.nodes) <= PartMessages + {b}
    requires Messages(third.nodes) <= PartMessages + {c}
    requires third.result <==> a in Messages(first.nodes) || b in Messages(second.nodes) || c in Messages(third.nodes)
    ensures Messages(r.nodes) <= PartMessages + own && (r.result <==> !(Messages(r.nodes) !! own))
  {
    MessagesAppend(first.nodes, second.nodes);
    MessagesAppend(first.nodes + second.nodes, third.nodes);
    ReportedThree(Messages(r.nodes), own, PartMessages, Messages(first.nodes), Messages(second.nodes), Messages(third.nodes), a, b, c);
  }

  /** The three parts of `version S (encoding S)?`, each with what it reports. */
  lemma VersionEncodingParts(g: Grammar, ts: seq<Token>, q: nat) returns (version: Outcome<bool>, literal: Outcome<bool>, encoding: Outcome<bool>)
    requires ValidGrammar(g) && q <= |ts|
    ensures var r := Head(VersionEncodingRule, g, ts, q);
      r.result == encoding.result && r.nodes == version.nodes + literal.nodes + encoding.nodes
    ensures Messages(version.nodes) <= PartMessages + {ExpectedKeyword([KVersion])}
    ensures Messages(literal.nodes) <= PartMessages + {ExpectedVersionString}
    ensures Messages(encoding.nodes) <= PartMessages + {ExpectedEncodingString}
    ensures encoding.result <==>
      ExpectedKeyword([KVersion]) in Messages(version.nodes) || ExpectedVersionString in Messages(literal.nodes) ||
      ExpectedEncodingString in Messages(encoding.nodes)
  {
    hide Syntax, Basic, Head, Messages, Required, Match;
    version := Required(false, Match(Keyword(KVersion), ts, q), ExpectedKeyword([KVersion]));
    assert version.end <= |ts| by { VersionStringReports(g, ts, q); }
    var l := Basic(RequireRule(version.result, LiteralPart(StringLiteralNode), ExpectedVersionString), g, ts, version.end);
    assert l.end <= |ts| by { VersionStringReports(g, ts, q); }
    var t := Syntax(TriviaRule, ts, l.end);
    assert t.end <= |ts| by { VersionStringReports(g, ts, q); }
    literal := Outcome(l.result, l.end, l.nodes + t.nodes);
    if Kind(ts, t.end) == Some(Keyword(KEncoding)) {
      encoding := Head(EncodingStringRule(l.result), g, ts, t.end + 1);
    } else {
      encoding := Outcome(l.result, t.end, []);
    }
    assert Head(VersionEncodingRule, g, ts, q) == Outcome(encoding.result, encoding.end, version.nodes + literal.nodes + encoding.nodes) by {
      VersionEncodingStep(g, ts, q);
    }
    assert Messages(version.nodes) <= PartMessages + {ExpectedKeyword([KVersion])} &&
      Messages(literal.nodes) <= PartMessages + {ExpectedVersionString} &&
      (l.result <==> ExpectedKeyword([KVersion]) in Messages(version.nodes) || ExpectedVersionString in Messages(literal.nodes)) by {
      VersionStringReports(g, ts, q);
    }
    assert Messages(encoding.nodes) <= PartMessages + {ExpectedEncodingString} &&
      (encoding.result <==> l.result || ExpectedEncodingString in Messages(encoding.nodes)) by {
      OptionalEncodingReports(l.result, g, ts, t.end);
    }
  }

  /** `version S (encoding S)?`: `haveErrors` is true exactly when one of its own errors was reported. */
  lemma VersionEncodingReports(g: Grammar, ts: seq<Token>, q: nat)
    requires ValidGrammar(g) && q <= |ts|
    ensures var r := Head(VersionEncodingRule, g, ts, q);
      Messages(r.nodes) <= PartMessages + VersionDeclMessages &&
      (r.result <==> !(Messages(r.nodes) !! VersionDeclMessages))
  {
    hide *;
    var version, literal, encoding := VersionEncodingParts(g, ts, q);
    VersionDeclMessagesApart();
    CombineThree(Head(VersionEncodingRule, g, ts, q), version, literal, encoding,
      VersionDeclMessages, ExpectedKeyword([KVersion]), ExpectedVersionString, ExpectedEncodingString);
  }

  /** The short form `encoding S`: the version gate's marker, then the encoding string. */
  lemma EncodingOnlyReports(g: Grammar, ts: seq<Token>, q: nat)
    requires ValidGrammar(g) && q <= |ts| && Kind(ts, q) == Some(Keyword(KEncoding))
    ensures var r := Head(VersionBodyRule, g, ts, q);
      var gate := Marker(q, if IsXQuery30OrLater(g.version) then Dropped else Failed(q + 1, VersionDecl30));
      |r.nodes| > 0 && r.nodes[0] == gate &&
      Messages(r.nodes) <= PartMessages + VersionDeclMessages + {VersionDecl30} &&
      (r.result <==> !(Messages(r.nodes) !! VersionDeclMessages)) &&
      (VersionDecl30 in Messages(r.nodes) <==> !IsXQuery30OrLater(g.version))
  {
    var s := Head(EncodingStringRule(false), g, ts, q + 1);
    var gate := Marker(q, if IsXQuery30OrLater(g.version) then Dropped else Failed(q + 1, VersionDecl30));
    assert Head(VersionBodyRule, g, ts, q) == Outcome(s.result, s.end, [gate] + s.nodes);
    EncodingStringReports(false, g, ts, q + 1);
    VersionDeclMessagesApart();
    assert Messages([gate]) == if IsXQuery30OrLater(g.version) then {} else {VersionDecl30};
    hide *;
    MessagesAppend([gate], s.nodes);
  }

  /** The body of a version declaration reports the version gate exactly for the short form before XQuery 3.0. */
  lemma VersionBodyReports(g: Grammar, ts: seq<Token>, q: nat)
    requires ValidGrammar(g) && q <= |ts|
    ensures var r := Head(VersionBodyRule, g, ts, q);
      Messages(r.nodes) <= PartMessages + VersionDeclMessages + {VersionDecl30} &&
      (r.result <==> !(Messages(r.nodes) !! VersionDeclMessages)) &&
      (VersionDecl30 in Messages(r.nodes) <==> Kind(ts, q) == Some(Keyword(KEncoding)) && !IsXQuery30OrLater(g.version))
  {
    if Kind(ts, q) == Some(Keyword(KEncoding)) {
      EncodingOnlyReports(g, ts, q);
    } else {
      var rest := Head(VersionEncodingRule, g, ts, q);
      assert Head(VersionBodyRule, g, ts, q) == Outcome(rest.result, rest.end, [Marker(q, Dropped)] + rest.nodes);
      VersionEncodingReports(g, ts, q);
      VersionDeclMessagesApart();
      assert Messages([Marker(q, Dropped)]) == {};
      hide *;
      MessagesAppend([Marker(q, Dropped)], rest.nodes);
    }
  }

  /** The body of a version declaration after `xquery` and the trivia after it. */
  lemma VersionDeclStep(g: Grammar, ts: seq<Token>, p: nat)
    requires ValidGrammar(g) && p < |ts| && ts[p] == Keyword(KXQuery)
    ensures var t := Syntax(TriviaRule, ts, p + 1);
      var body := Head(VersionBodyRule, g, ts, t.end);
      p < body.end <= |ts| && Head(VersionDeclRule, g, ts, p) == Terminated(VersionDeclNode, p, ts, Outcome(body.result, body.end, t.nodes + body.nodes))
  {
  }

  /** A module declaration is its body closed by an optional `;`. */
  lemma ModuleDeclStep(g: Grammar, ts: seq<Token>, p: nat)
    requires ValidGrammar(g) && p < |ts| && ts[p] == Keyword(KModule)
    ensures var body := Head(ModuleDeclBodyRule, g, ts, p + 1);
      p < body.end <= |ts| && Head(ModuleDeclRule, g, ts, p) == Terminated(ModuleDeclNode, p, ts, body)
  {
  }

  /**
   * `parseVersionDecl`: the VERSION_DECL node is completed with or
   * without its `;`, and "expected ;" is reported exactly when the `;`
   * is missing and no earlier error of the declaration was reported.
   */
  lemma VersionDeclTerminated(g: Grammar, ts: seq<Token>, p: nat)
    requires ValidGrammar(g) && p < |ts| && ts[p] == Keyword(KXQuery)
    ensures var r := Head(VersionDeclRule, g, ts, p);
      var t := Syntax(TriviaRule, ts, p + 1);
      var body := Head(VersionBodyRule, g, ts, t.end);
      var semicolon := Kind(ts, body.end) == Some(Separator);
      r.result && |r.nodes| >= 1 + |body.nodes| &&
      r.nodes[0] == Marker(p, Completed(if semicolon then body.end + 1 else body.end, VersionDeclNode)) &&
      Messages(r.nodes) <= PartMessages + VersionDeclMessages + {VersionDecl30, Expected(Separator)} &&
      (Expected(Separator) in Messages(r.nodes) <==> !semicolon && Messages(body.nodes) !! VersionDeclMessages)
  {
    var t := Syntax(TriviaRule, ts, p + 1);
    var body := Head(VersionBodyRule, g, ts, t.end);
    VersionDeclStep(g, ts, p);
    hide Syntax, Basic, Head, Required, Match, Terminated;
    var own := VersionDeclMessages + {VersionDecl30};
    assert Messages(body.nodes) <= PartMessages + own &&
      (body.result <==> !(Messages(body.nodes) !! VersionDeclMessages)) by { VersionBodyReports(g, ts, t.end); }
    assert Messages(t.nodes + body.nodes) <= PartMessages + own by {
      TriviaMessagesOnly(ts, p + 1);
      MessagesAppend(t.nodes, body.nodes);
    }
    assert Expected(Separator) !in PartMessages + own by { SeparatorApart(own); }
    hide Messages;
    TerminatedReports(VersionDeclNode, p, ts, Outcome(body.result, body.end, t.nodes + body.nodes), PartMessages + own);
  }

  /**
   * The short form `xquery encoding S` is still a VERSION_DECL, and its
   * `encoding` is an error node, "version-decl.3.0", unless the version
   * is XQuery 3.0 or later.
   */
  lemma VersionDeclShortForm(g: Grammar, ts: seq<Token>, p: nat)
    requires ValidGrammar(g) && p < |ts| && ts[p] == Keyword(KXQuery)
    requires Kind(ts, Syntax(TriviaRule, ts, p + 1).end) == Some(Keyword(KEncoding))
    ensures var r := Head(VersionDeclRule, g, ts, p);
      var t := Syntax(TriviaRule, ts, p + 1);
      r.result && |r.nodes| > 1 + |t.nodes| && r.nodes[0].start == p && r.nodes[0].state.Completed? &&
      r.nodes[0].state.kind == VersionDeclNode &&
      r.nodes[1 + |t.nodes|] == Marker(t.end, if IsXQuery30OrLater(g.version) then Dropped else Failed(t.end + 1, VersionDecl30)) &&
      (VersionDecl30 in Messages(r.nodes) <==> !IsXQuery30OrLater(g.version))
  {
    TriviaWithinParts();
    hide Head, Syntax, Basic, Messages, Terminated, PartMessages, VersionDeclMessages, QNameMessages, TriviaMessages, StringLiteralMessages;
    var t := Syntax(TriviaRule, ts, p + 1);
    var body := Head(VersionBodyRule, g, ts, t.end);
    VersionDeclStep(g, ts, p);
    EncodingOnlyReports(g, ts, t.end);
    TriviaMessagesOnly(ts, p + 1);
    SeparatorApart(VersionDeclMessages + {VersionDecl30});
    VersionDeclMessagesApart();
    MessagesAppend(t.nodes, body.nodes);
    var whole := Outcome(body.result, body.end, t.nodes + body.nodes);
    TerminatedReports(VersionDeclNode, p, ts, whole, PartMessages + VersionDeclMessages + {VersionDecl30});
    var r := Head(VersionDeclRule, g, ts, p);
    assert |body.nodes| > 0;
    assert r == Terminated(VersionDeclNode, p, ts, whole);
    assert r.nodes[1..1 + |whole.nodes|] == whole.nodes;
    assert |whole.nodes| == |t.nodes| + |body.nodes|;
    assert r.nodes[1 + |t.nodes|] == r.nodes[1..1 + |whole.nodes|][|t.nodes|] == whole.nodes[|t.nodes|] == body.nodes[0];
  }
}
