/**
 * The XQuery parser: a class over the tree builder whose methods follow
 * the grammar rules one by one, advancing the builder's cursor and
 * opening, completing and dropping its markers. Each method is proved
 * to leave the builder exactly as the rule's specification function in
 * XQuerySyntax or XQueryRules says.
 */
module XQueryParser {
  import opened Wrappers
  import opened TreeBuilder
  import opened XQuerySyntax
  import opened XQueryRules
  import opened XQueryPaths

  class Parser {
    const builder: Builder<Token, Node, Message>
    const grammar: Grammar

    /** The builder is consistent and the item parsers stay within the tokens. */
    ghost predicate Ready()
      reads builder
    {
      builder.Valid() && ValidGrammar(grammar)
    }

    /**
     * The builder is where a rule with outcome `o` leaves it, after it
     * returned `r`, from the markers `markers0`: the cursor is at the
     * outcome's end, the rule's markers were appended, and the markers
     * open before it, `open0`, are the ones open after it.
     */
    ghost predicate Steps<R>(o: Outcome<R>, r: R, markers0: seq<NodeMarker>, open0: Stack)
      reads builder
    {
      builder.Valid() && builder.open == open0 && Reached(o, r, builder.pos, builder.markers, markers0)
    }

    constructor(tokens: seq<Token>, grammar: Grammar)
      requires ValidGrammar(grammar)
      ensures Ready() && fresh(builder) && builder.open == Bottom
      ensures builder.tokens == tokens && builder.pos == 0 && builder.markers == [] && this.grammar == grammar
    {
      builder := new Builder(tokens);
      this.grammar := grammar;
    }

    /** One pass of the loop of `skipWhiteSpaceAndCommentTokens`. */
    method SkipItem() returns (r: bool)
      requires builder.Valid()
      modifies builder
      ensures Steps(TriviaItem(builder.tokens, old(builder.pos)), r, old(builder.markers), old(builder.open))
    {
      ghost var p := builder.pos;
      ghost var m0 := builder.markers;
      if builder.TokenType() == Some(WhiteSpace) {
        builder.AdvanceLexer();
        return true;
      } else if builder.TokenType() == Some(CommentStartTag) {
        var commentMarker := builder.Mark();
        builder.AdvanceLexer();
        if builder.TokenType() == Some(CommentEndTag) {
          builder.AdvanceLexer();
          builder.Done(commentMarker, CommentNode, m0, p, []);
        } else {
          builder.AdvanceLexer();
          builder.Done(commentMarker, CommentNode, m0, p, []);
          ghost var comment := Marker(p, Completed(builder.pos, CommentNode));
          builder.Error(IncompleteComment);
          Appended(m0, [comment], [Marker(builder.pos, Failed(builder.pos, IncompleteComment))]);
        }
        return true;
      } else if builder.TokenType() == Some(CommentEndTag) {
        var errorMarker := builder.Mark();
        builder.AdvanceLexer();
        builder.MarkerError(errorMarker, EndOfCommentWithoutStart, m0, p, []);
        return true;
      }
      r := builder.ErrorOnTokenType(EntityReferenceNotInString, MisplacedEntity);
    }

    /** `skipWhiteSpaceAndCommentTokens`. */
    method Skip() returns (r: bool)
      requires builder.Valid()
      modifies builder
      ensures Steps(Syntax(TriviaRule, builder.tokens, old(builder.pos)), r, old(builder.markers), old(builder.open))
    {
      ghost var ts := builder.tokens;
      ghost var p0 := builder.pos;
      ghost var m0 := builder.markers;
      ghost var acc: seq<NodeMarker> := [];
      r := false;
      while true
        invariant builder.Valid() && p0 <= builder.pos <= |ts|
        invariant builder.markers == m0 + acc && builder.open == old(builder.open)
        invariant r <==> p0 < builder.pos
        invariant Syntax(TriviaRule, ts, p0).end == Syntax(TriviaRule, ts, builder.pos).end
        invariant Syntax(TriviaRule, ts, p0).nodes == acc + Syntax(TriviaRule, ts, builder.pos).nodes
        decreases |ts| - builder.pos
      {
        ghost var p := builder.pos;
        var skipped := SkipItem();
        if !skipped {
          return;
        }
        r := true;
        ghost var item := TriviaItem(ts, p).nodes;
        TriviaStep(ts, p);
        Appended(acc, item, Syntax(TriviaRule, ts, builder.pos).nodes);
        Appended(m0, acc, item);
        acc := acc + item;
      }
    }

    /**
     * The tokens `parseStringLiteral` takes and goes on after: string
     * contents, entity and character references and escaped characters,
     * and the two entity errors. The end delimiter, tested between them in
     * the loop, is a different token kind, so testing it afterwards is the
     * same.
     */
    method ParseStringPart() returns (r: bool)
      requires builder.Valid()
      modifies builder
      ensures builder.Valid() && builder.open == old(builder.open)
      ensures r <==> (IsStringPart(Kind(builder.tokens, old(builder.pos))) || Kind(builder.tokens, old(builder.pos)) in {Some(PartialEntityReference), Some(EmptyEntityReference)})
      ensures r ==> builder.pos == old(builder.pos) + 1 && builder.markers == old(builder.markers) + StringPartNodes(builder.tokens, old(builder.pos))
      ensures !r ==> builder.pos == old(builder.pos) && builder.markers == old(builder.markers)
    {
      if IsStringPart(builder.TokenType()) {
        builder.AdvanceLexer();
        return true;
      }
      r := builder.MatchTokenType(PartialEntityReference);
      if r {
        builder.Error(IncompleteEntity);
        return;
      }
      r := builder.ErrorOnTokenType(EmptyEntityReference, EmptyEntity);
    }

    /** The end of `parseStringLiteral`: the end delimiter, or else the error for a literal left incomplete. */
    method CloseStringLiteral(kind: Node, m: nat, ghost m0: seq<NodeMarker>, ghost p: nat, ghost acc: seq<NodeMarker>)
      requires builder.Valid() && builder.markers == m0 + [Marker(p, Open)] + acc && m == |m0| && builder.open.Push? && builder.open.top == m
      modifies builder
      ensures var q := old(builder.pos); var end := Kind(builder.tokens, q) == Some(StringLiteralEnd);
        builder.Valid() && builder.open == old(builder.open).below && builder.pos == (if end then q + 1 else q) &&
        builder.markers == m0 + ([Marker(p, Completed(builder.pos, kind))] + acc) + (if end then [] else [Marker(q, Failed(q, IncompleteString))])
    {
      var end := builder.MatchTokenType(StringLiteralEnd);
      builder.Done(m, kind, m0, p, acc);
      if !end {
        builder.Error(IncompleteString);
      } else {
        assert builder.markers == builder.markers + [];
      }
    }

    /** `parseStringLiteral`. */
    method ParseStringLiteral(kind: Node) returns (r: bool)
      requires builder.Valid()
      modifies builder
      ensures Steps(Syntax(StringLiteralRule(kind), builder.tokens, old(builder.pos)), r, old(builder.markers), old(builder.open))
    {
      ghost var ts := builder.tokens;
      ghost var p := builder.pos;
      ghost var m0 := builder.markers;
      hide Syntax;
      var stringMarker := builder.MatchTokenTypeWithMarker(StringLiteralStart);
      if stringMarker.None? {
        StringLiteralAbsent(kind, ts, p);
        return false;
      }
      var m := stringMarker.value;
      ghost var first := Marker(p, Open);
      ghost var body := Syntax(StringContentsRule, ts, p + 1);
      StringLiteralStarts(kind, ts, p);
      ghost var acc: seq<NodeMarker> := [];
      while true
        invariant builder.Valid() && p < builder.pos <= |ts|
        invariant builder.markers == m0 + [first] + acc && builder.open == Push(old(builder.open), m)
        invariant body.result == Syntax(StringContentsRule, ts, builder.pos).result
        invariant body.end == Syntax(StringContentsRule, ts, builder.pos).end
        invariant body.nodes == acc + Syntax(StringContentsRule, ts, builder.pos).nodes
        decreases |ts| - builder.pos
      {
        ghost var q := builder.pos;
        StringLiteralStep(ts, q);
        var continued := ParseStringPart();
        if !continued {
          CloseStringLiteral(kind, m, m0, p, acc);
          ghost var closed := Marker(p, Completed(builder.pos, kind));
          ghost var rest := Syntax(StringContentsRule, ts, q).nodes;
          Appended(m0, [closed] + acc, rest);
          Appended([closed], acc, rest);
          return true;
        }
        ghost var error := StringPartNodes(ts, q);
        Appended(acc, error, Syntax(StringContentsRule, ts, q + 1).nodes);
        Appended(m0 + [first], acc, error);
        acc := acc + error;
      }
    }

    /** Reports `message` at the cursor when a required part was not `found` and nothing was reported before. */
    method Report(haveErrors: bool, found: bool, message: Message) returns (h: bool)
      requires builder.Valid()
      modifies builder
      ensures builder.Valid() && builder.pos == old(builder.pos) && builder.open == old(builder.open)
      ensures h <==> haveErrors || !found
      ensures builder.markers == old(builder.markers) +
        if !found && !haveErrors then [Marker(builder.pos, Failed(builder.pos, message))] else []
    {
      if !found && !haveErrors {
        builder.Error(message);
      }
      h := haveErrors || !found;
    }

    /** A construct found by the item parser `f`, as one node of kind `kind`. */
    method ParseItem(f: ItemParser, kind: Node) returns (r: bool)
      requires builder.Valid() && ValidItem(f)
      modifies builder
      ensures Steps(Item(f, kind, builder.tokens, old(builder.pos)), r, old(builder.markers), old(builder.open))
    {
      var e := f(builder.tokens, builder.pos);
      if e == builder.pos {
        return false;
      }
      var m := builder.Mark();
      while builder.pos < e
        invariant builder.Valid() && old(builder.pos) <= builder.pos <= e
        invariant builder.markers == old(builder.markers) + [Marker(old(builder.pos), Open)]
        invariant builder.open == Push(old(builder.open), m)
        decreases e - builder.pos
      {
        builder.AdvanceLexer();
      }
      builder.Done(m, kind, old(builder.markers), old(builder.pos), []);
      return true;
    }

    /** The local part of `parseQName`, after the `:`. */
    method ParseLocalPart() returns (r: bool)
      requires builder.Valid()
      modifies builder
      ensures Steps(Syntax(LocalPartRule, builder.tokens, old(builder.pos)), r, old(builder.markers), old(builder.open))
    {
      ghost var ts := builder.tokens;
      ghost var q := builder.pos;
      ghost var m0 := builder.markers;
      var afterMarker := builder.Mark();
      var skipped := Skip();
      ghost var after := Syntax(TriviaRule, ts, q);
      ghost var s := after.end;
      if skipped {
        builder.MarkerError(afterMarker, WhitespaceAfterLocalPart, m0, q, after.nodes);
      } else {
        builder.Drop(afterMarker, m0, q, after.nodes);
      }
      ghost var closed := Marker(q, if skipped then Failed(s, WhitespaceAfterLocalPart) else Dropped);
      ghost var head := [closed] + after.nodes;
      ghost var m1 := builder.markers;
      if builder.TokenType() == Some(StringLiteralStart) {
        builder.Error(MissingLocalName);
        Appended(m0, head, [Marker(s, Failed(s, MissingLocalName))]);
      } else if IsName(builder.TokenType()) {
        builder.AdvanceLexer();
      } else {
        var errorMarker := builder.Mark();
        builder.AdvanceLexer();
        builder.MarkerError(errorMarker, MissingLocalName, m1, s, []);
        ghost var error := Marker(s, Failed(builder.pos, MissingLocalName));
        Appended(m0, head, [error]);
      }
      return true;
    }

    /** A marker completed as an error node carrying `message` when `failed`, dropped otherwise; placed as for `Done`. */
    method ErrorOrDrop(m: nat, failed: bool, message: Message, ghost below: seq<NodeMarker>, ghost start: nat, ghost inner: seq<NodeMarker>)
      requires builder.Valid() && builder.markers == below + [Marker(start, Open)] + inner && m == |below| && builder.open.Push? && builder.open.top == m
      modifies builder
      ensures builder.Valid() && builder.pos == old(builder.pos) && builder.open == old(builder.open).below
      ensures builder.markers == below + ([Marker(start, if failed then Failed(builder.pos, message) else Dropped)] + inner)
    {
      if failed {
        builder.MarkerError(m, message, below, start, inner);
      } else {
        builder.Drop(m, below, start, inner);
      }
    }

    /** The `:` of a QName: an error node when only an NCName is allowed. */
    method ParseSeparator(kind: Node)
      requires builder.Valid() && builder.TokenType() == Some(QNameSeparator)
      modifies builder
      ensures builder.Valid() && builder.pos == old(builder.pos) + 1 && builder.open == old(builder.open)
      ensures builder.markers == old(builder.markers) + if kind == NCNameNode then [Marker(old(builder.pos), Failed(builder.pos, ExpectedNCNameNotQName))] else []
    {
      if kind == NCNameNode {
        var _ := builder.ErrorOnTokenType(QNameSeparator, ExpectedNCNameNotQName);
      } else {
        builder.AdvanceLexer();
      }
    }

    /** `parseQName` after a name: the white space, then an optional `:` and local part. */
    method ParseAfterPrefix(kind: Node) returns (r: bool)
      requires builder.Valid()
      modifies builder
      ensures Steps(Syntax(AfterPrefixRule(kind), builder.tokens, old(builder.pos)), r, old(builder.markers), old(builder.open))
    {
      ghost var ts := builder.tokens;
      ghost var q := builder.pos;
      ghost var m0 := builder.markers;
      hide Syntax;
      AfterPrefixStep(kind, ts, q);
      var beforeMarker := builder.Mark();
      var skipped := Skip();
      ghost var before := Syntax(TriviaRule, ts, q);
      ghost var c := before.end;
      var separator := builder.TokenType() == Some(QNameSeparator);
      ErrorOrDrop(beforeMarker, skipped && separator, WhitespaceBeforeLocalPart, m0, q, before.nodes);
      ghost var closed := Marker(q, if skipped && separator then Failed(c, WhitespaceBeforeLocalPart) else Dropped);
      ghost var head := [closed] + before.nodes;
      if separator {
        ParseSeparator(kind);
        ghost var colon := if kind == NCNameNode then [Marker(c, Failed(c + 1, ExpectedNCNameNotQName))] else [];
        Appended(m0, head, colon);
        var _ := ParseLocalPart();
        Appended(m0, head + colon, Syntax(LocalPartRule, ts, c + 1).nodes);
        return true;
      }
      return false;
    }

    /** `parseQName` after its marker was opened at the name at `p`: the rest of the name, completed as one node. */
    method ParsePrefixedQName(kind: Node, qnameMarker: nat, ghost m0: seq<NodeMarker>, ghost p: nat)
      requires builder.Valid() && builder.pos == p && IsName(builder.TokenType())
      requires builder.markers == m0 + [Marker(p, Open)] && qnameMarker == |m0| && builder.open.Push? && builder.open.top == qnameMarker
      modifies builder
      ensures var rest := Syntax(AfterPrefixRule(kind), builder.tokens, p + 1);
        builder.Valid() && builder.pos == rest.end && builder.open == old(builder.open).below &&
        builder.markers == m0 + ([Marker(p, Completed(rest.end, if rest.result then PrefixedKind(kind) else UnprefixedKind(kind)))] + rest.nodes)
    {
      hide Syntax;
      builder.AdvanceLexer();
      var prefixed := ParseAfterPrefix(kind);
      ghost var rest := Syntax(AfterPrefixRule(kind), builder.tokens, p + 1);
      builder.Done(qnameMarker, if prefixed then PrefixedKind(kind) else UnprefixedKind(kind), m0, p, rest.nodes);
    }

    /** `parseQName` after a `:` at `p` with no prefix: the white space and the local name, as an error node. */
    method ParseMissingPrefix(kind: Node, qnameMarker: nat, ghost m0: seq<NodeMarker>, ghost p: nat)
      requires builder.Valid() && builder.pos == p + 1
      requires builder.markers == m0 + [Marker(p, Open)] && qnameMarker == |m0| && builder.open.Push? && builder.open.top == qnameMarker
      modifies builder
      ensures var t := Syntax(TriviaRule, builder.tokens, p + 1);
        var e := if IsName(Kind(builder.tokens, t.end)) then t.end + 1 else t.end;
        builder.Valid() && builder.pos == e && builder.open == old(builder.open).below &&
        builder.markers == m0 + ([Marker(p, Failed(e, if kind == NCNameNode then ExpectedNCNameNotQName else MissingPrefix))] + t.nodes)
    {
      hide Syntax;
      var _ := Skip();
      if IsName(builder.TokenType()) {
        builder.AdvanceLexer();
      }
      var message := if kind == NCNameNode then ExpectedNCNameNotQName else MissingPrefix;
      builder.MarkerError(qnameMarker, message, m0, p, Syntax(TriviaRule, builder.tokens, p + 1).nodes);
    }

    /** `parseQName`: the node is QNAME or NCNAME as found, whichever of the two `kind` asks for. */
    method ParseQName(kind: Node) returns (r: bool)
      requires builder.Valid()
      modifies builder
      ensures Steps(Syntax(QNameRule(kind), builder.tokens, old(builder.pos)), r, old(builder.markers), old(builder.open))
    {
      ghost var ts := builder.tokens;
      ghost var p := builder.pos;
      ghost var m0 := builder.markers;
      hide Syntax;
      var qnameMarker := builder.Mark();
      if IsName(builder.TokenType()) {
        ParsePrefixedQName(kind, qnameMarker, m0, p);
        QNamePrefixed(kind, ts, p);
        return true;
      }
      var separator := builder.MatchTokenType(QNameSeparator);
      if separator {
        ParseMissingPrefix(kind, qnameMarker, m0, p);
        QNameMissingPrefix(kind, ts, p);
        return true;
      }
      builder.Drop(qnameMarker, m0, p, []);
      QNameAbsent(kind, ts, p);
      return false;
    }

    /** The keyword of a header declaration, flagged when the prolog is past its header. */
    method ParseHeaderKeyword(state: PrologDeclState, k: KeywordKind) returns (r: bool)
      requires Ready()
      modifies builder
      ensures Steps(Basic(HeaderKeywordRule(state, k), grammar, builder.tokens, old(builder.pos)), r, old(builder.markers), old(builder.open))
    {
      ghost var p := builder.pos;
      ghost var m0 := builder.markers;
      var errorMarker := builder.Mark();
      r := builder.MatchTokenType(Keyword(k));
      if r {
        if state == HeaderStatement {
          builder.Drop(errorMarker, m0, p, []);
        } else {
          builder.MarkerError(errorMarker, ExpectedPrologBody, m0, p, []);
        }
      } else {
        builder.Drop(errorMarker, m0, p, []);
      }
    }

    /** The part `part`, matched or parsed at the cursor. */
    method ParsePart(part: Part) returns (r: bool)
      requires Ready()
      modifies builder
      ensures Steps(PartOf(part, grammar, builder.tokens, old(builder.pos)), r, old(builder.markers), old(builder.open))
    {
      match part
      case TokenPart(t) =>
        r := builder.MatchTokenType(t);
      case EitherPart(a, b) =>
        r := builder.MatchTokenType(a);
        if !r {
          r := builder.MatchTokenType(b);
        }
      case QNamePart(kind) =>
        r := ParseQName(kind);
      case LiteralPart(kind) =>
        r := ParseStringLiteral(kind);
      case ExprSinglePart =>
        r := ParseItem(grammar.exprSingle, ExprSingleNode);
      case TypeDeclarationPart =>
        r := ParseItem(grammar.typeDeclaration, TypeDeclarationNode);
      case SequenceTypePart =>
        r := ParseItem(grammar.sequenceType, SequenceTypeNode);
    }

    /** `skipWhiteSpaceAndCommentTokens` and a required part, reported when missing unless `haveErrors`. */
    method ParseRequired(haveErrors: bool, part: Part, message: Message) returns (r: bool)
      requires Ready()
      modifies builder
      ensures Steps(Basic(RequireRule(haveErrors, part, message), grammar, builder.tokens, old(builder.pos)), r, old(builder.markers), old(builder.open))
    {
      ghost var ts := builder.tokens;
      ghost var m0 := builder.markers;
      ghost var t := Syntax(TriviaRule, ts, builder.pos);
      var _ := Skip();
      var found := ParsePart(part);
      ghost var x := PartOf(part, grammar, ts, t.end);
      r := Report(haveErrors, found, message);
      ghost var error := if !found && !haveErrors then [Marker(x.end, Failed(x.end, message))] else [];
      Appended(m0, t.nodes, x.nodes);
      Appended(m0, t.nodes + x.nodes, error);
      Appended(t.nodes, x.nodes, error);
    }

    /** `skipWhiteSpaceAndCommentTokens` and a part that may be missing. */
    method ParseOptional(part: Part) returns (r: bool)
      requires Ready()
      modifies builder
      ensures Steps(Basic(OptionalRule(part), grammar, builder.tokens, old(builder.pos)), r, old(builder.markers), old(builder.open))
    {
      ghost var ts := builder.tokens;
      ghost var m0 := builder.markers;
      ghost var t := Syntax(TriviaRule, ts, builder.pos);
      var _ := Skip();
      r := ParsePart(part);
      Appended(m0, t.nodes, PartOf(part, grammar, ts, t.end).nodes);
    }

    /** The body of the loop of `parseExpr`, after its `,`: an ExprSingle, reported when missing, and the white space after it. */
    method ParseExprAfterComma(haveErrors: bool) returns (r: bool)
      requires Ready()
      modifies builder
      ensures var e := Basic(RequireRule(haveErrors, ExprSinglePart, ExpectedExpression), grammar, builder.tokens, old(builder.pos));
        var t := Syntax(TriviaRule, builder.tokens, e.end);
        builder.Valid() && builder.open == old(builder.open) && r == e.result && builder.pos == t.end &&
        builder.markers == old(builder.markers) + (e.nodes + t.nodes)
    {
      ghost var ts := builder.tokens;
      ghost var m0 := builder.markers;
      hide Basic, Syntax;
      ghost var e := Basic(RequireRule(haveErrors, ExprSinglePart, ExpectedExpression), grammar, ts, builder.pos);
      r := ParseRequired(haveErrors, ExprSinglePart, ExpectedExpression);
      var _ := Skip();
      Appended(m0, e.nodes, Syntax(TriviaRule, ts, e.end).nodes);
    }

    /** One pass of the loop of `parseExpr` after its `,`, kept as the rest of the loop still to go. */
    method ResumeAfterComma(r0: bool, ghost tail: Outcome<bool>, ghost done: seq<NodeMarker>, ghost m0: seq<NodeMarker>, ghost q: nat) returns (r: bool, ghost done2: seq<NodeMarker>)
      requires Ready() && builder.pos == q + 1 && q < |builder.tokens| && builder.tokens[q] == Comma
      requires builder.markers == m0 + done && Resumes(tail, Basic(ExprTailRule(r0), grammar, builder.tokens, q), done)
      modifies builder
      ensures builder.Valid() && builder.open == old(builder.open) && builder.pos > q
      ensures builder.markers == m0 + done2 && Resumes(tail, Basic(ExprTailRule(r), grammar, builder.tokens, builder.pos), done2)
    {
      ghost var ts := builder.tokens;
      hide Basic, Syntax, Resumes;
      ExprTailComma(r0, grammar, ts, q);
      ghost var e := Basic(RequireRule(r0, ExprSinglePart, ExpectedExpression), grammar, ts, q + 1);
      ghost var t := Syntax(TriviaRule, ts, e.end);
      r := ParseExprAfterComma(r0);
      ResumeStep(tail, Basic(ExprTailRule(r0), grammar, ts, q), done, e.nodes + t.nodes, Basic(ExprTailRule(r), grammar, ts, builder.pos));
      Appended(m0, done, e.nodes + t.nodes);
      done2 := done + (e.nodes + t.nodes);
    }

    /** The loop of `parseExpr`: `, ExprSingle` repeated, each with the white space after it. */
    method ParseExprTail(haveErrors: bool) returns (r: bool)
      requires Ready()
      modifies builder
      ensures Steps(Basic(ExprTailRule(haveErrors), grammar, builder.tokens, old(builder.pos)), r, old(builder.markers), old(builder.open))
    {
      ghost var ts := builder.tokens;
      ghost var m0 := builder.markers;
      hide Basic, Syntax, Resumes;
      ghost var tail := Basic(ExprTailRule(haveErrors), grammar, ts, builder.pos);
      ghost var done: seq<NodeMarker> := [];
      r := haveErrors;
      ResumeStart(tail);
      while true
        invariant builder.Valid() && builder.open == old(builder.open) && builder.markers == m0 + done
        invariant Resumes(tail, Basic(ExprTailRule(r), grammar, ts, builder.pos), done)
        decreases |ts| - builder.pos
      {
        ghost var q := builder.pos;
        var comma := builder.MatchTokenType(Comma);
        if !comma {
          ExprTailStop(r, grammar, ts, q);
          ResumeEnd(tail, Basic(ExprTailRule(r), grammar, ts, q), done);
          return;
        }
        r, done := ResumeAfterComma(r, tail, done, m0, q);
      }
    }

    /** `parseExpr`: an ExprSingle, then the loop over `, ExprSingle`, as one node of kind `kind`. */
    method ParseExpr(kind: Node) returns (r: bool)
      requires Ready()
      modifies builder
      ensures Steps(Basic(ExprRule(kind), grammar, builder.tokens, old(builder.pos)), r, old(builder.markers), old(builder.open))
    {
      ghost var ts := builder.tokens;
      ghost var p := builder.pos;
      ghost var m0 := builder.markers;
      ghost var first := Marker(p, Open);
      var exprMarker := builder.Mark();
      var found := ParseItem(grammar.exprSingle, ExprSingleNode);
      if !found {
        builder.Drop(exprMarker, m0, p, []);
        ExprAbsent(kind, grammar, ts, p);
        return false;
      }
      ghost var x := Item(grammar.exprSingle, ExprSingleNode, ts, p);
      var _ := Skip();
      ghost var t := Syntax(TriviaRule, ts, x.end);
      var _ := ParseExprTail(false);
      ghost var tail := Basic(ExprTailRule(false), grammar, ts, t.end);
      Appended(m0 + [first], x.nodes, t.nodes);
      Appended(m0 + [first], x.nodes + t.nodes, tail.nodes);
      builder.Done(exprMarker, kind, m0, p, x.nodes + t.nodes + tail.nodes);
      ExprFound(kind, grammar, ts, p);
      return true;
    }

    /** The expression of `parseEnclosedExpr` after the white space before it, reported when missing. */
    method ParseEnclosedBody() returns (r: bool)
      requires Ready()
      modifies builder
      ensures var t := Syntax(TriviaRule, builder.tokens, old(builder.pos));
        var e := Required(false, Basic(ExprRule(ExprNode), grammar, builder.tokens, t.end), ExpectedExpression);
        builder.Valid() && builder.open == old(builder.open) && r == e.result && builder.pos == e.end &&
        builder.markers == old(builder.markers) + (t.nodes + e.nodes)
    {
      ghost var ts := builder.tokens;
      ghost var m0 := builder.markers;
      hide Basic, Syntax;
      ghost var t := Syntax(TriviaRule, ts, builder.pos);
      var _ := Skip();
      var found := ParseExpr(ExprNode);
      ghost var x := Basic(ExprRule(ExprNode), grammar, ts, t.end);
      r := Report(false, found, ExpectedExpression);
      ghost var error := if !found then [Marker(x.end, Failed(x.end, ExpectedExpression))] else [];
      Appended(m0, t.nodes, x.nodes);
      Appended(m0, t.nodes + x.nodes, error);
      Appended(t.nodes, x.nodes, error);
    }

    /** `parseEnclosedExpr`: `{`, an expression and `}`, as one node. */
    method ParseEnclosedExpr() returns (r: bool)
      requires Ready()
      modifies builder
      ensures Steps(Basic(EnclosedExprRule, grammar, builder.tokens, old(builder.pos)), r, old(builder.markers), old(builder.open))
    {
      ghost var ts := builder.tokens;
      ghost var p := builder.pos;
      ghost var m0 := builder.markers;
      hide Basic, Syntax;
      var enclosedExprMarker := builder.Mark();
      var open := builder.MatchTokenType(BlockOpen);
      if !open {
        builder.Drop(enclosedExprMarker, m0, p, []);
        EnclosedExprAbsent(grammar, ts, p);
        return false;
      }
      EnclosedExprFound(grammar, ts, p);
      ghost var t := Syntax(TriviaRule, ts, p + 1);
      ghost var e := Required(false, Basic(ExprRule(ExprNode), grammar, ts, t.end), ExpectedExpression);
      var haveErrors := ParseEnclosedBody();
      var _ := ParseRequired(haveErrors, TokenPart(BlockClose), Expected(BlockClose));
      ghost var close := Basic(RequireRule(e.result, TokenPart(BlockClose), Expected(BlockClose)), grammar, ts, e.end);
      Appended(m0 + [Marker(p, Open)], t.nodes + e.nodes, close.nodes);
      builder.Done(enclosedExprMarker, EnclosedExprNode, m0, p, t.nodes + e.nodes + close.nodes);
      return true;
    }

    /** One pass of the `do … while` loop over location hints, from the hint at the cursor. */
    method ResumeHint(r0: bool, ghost tail: Outcome<bool>, ghost done: seq<NodeMarker>, ghost m0: seq<NodeMarker>) returns (r: bool, more: bool, ghost done2: seq<NodeMarker>)
      requires Ready() && builder.markers == m0 + done && Resumes(tail, Basic(LocationHintsRule(r0), grammar, builder.tokens, builder.pos), done)
      modifies builder
      ensures builder.Valid() && builder.open == old(builder.open) && builder.markers == m0 + done2
      ensures old(builder.pos) <= builder.pos && (more ==> old(builder.pos) < builder.pos)
      ensures more ==> Resumes(tail, Basic(LocationHintsRule(r), grammar, builder.tokens, builder.pos), done2)
      ensures !more ==> tail == Outcome(r, builder.pos, done2)
    {
      ghost var ts := builder.tokens;
      ghost var q := builder.pos;
      hide Basic, Syntax, Resumes;
      LocationHintsStep(r0, grammar, ts, q);
      ghost var uri := Basic(RequireRule(r0, LiteralPart(UriLiteralNode), ExpectedUriString), grammar, ts, q);
      ghost var t := Syntax(TriviaRule, ts, uri.end);
      r := ParseRequired(r0, LiteralPart(UriLiteralNode), ExpectedUriString);
      var _ := Skip();
      ghost var o := Basic(LocationHintsRule(r0), grammar, ts, q);
      Appended(m0 + done, uri.nodes, t.nodes);
      Appended(m0, done, uri.nodes + t.nodes);
      done2 := done + (uri.nodes + t.nodes);
      more := builder.MatchTokenType(Comma);
      if more {
        ResumeStep(tail, o, done, uri.nodes + t.nodes, Basic(LocationHintsRule(r), grammar, ts, builder.pos));
      } else {
        ResumeStep(tail, o, done, uri.nodes + t.nodes, Outcome(r, builder.pos, []));
        ResumeEnd(tail, Outcome(r, builder.pos, []), done2);
      }
    }

    /** The location hints after `at`: URI literals separated by `,`, each reported when missing unless `haveErrors`. */
    method ParseLocationHints(haveErrors: bool) returns (r: bool)
      requires Ready()
      modifies builder
      ensures Steps(Basic(LocationHintsRule(haveErrors), grammar, builder.tokens, old(builder.pos)), r, old(builder.markers), old(builder.open))
    {
      ghost var ts := builder.tokens;
      ghost var m0 := builder.markers;
      hide Basic, Syntax, Resumes;
      ghost var tail := Basic(LocationHintsRule(haveErrors), grammar, ts, builder.pos);
      ghost var done: seq<NodeMarker> := [];
      r := haveErrors;
      ResumeStart(tail);
      var more := true;
      while more
        invariant builder.Valid() && builder.open == old(builder.open) && builder.markers == m0 + done
        invariant more ==> Resumes(tail, Basic(LocationHintsRule(r), grammar, ts, builder.pos), done)
        invariant !more ==> tail == Outcome(r, builder.pos, done)
        decreases |ts| - builder.pos + if more then 1 else 0
      {
        r, more, done := ResumeHint(r, tail, done, m0);
      }
    }

    /** An optional `at` and the location hints after it. */
    method ParseAtClause(haveErrors: bool) returns (r: bool)
      requires Ready()
      modifies builder
      ensures Steps(Basic(AtClauseRule(haveErrors), grammar, builder.tokens, old(builder.pos)), r, old(builder.markers), old(builder.open))
    {
      ghost var ts := builder.tokens;
      ghost var m0 := builder.markers;
      hide Basic;
      AtClauseStep(haveErrors, grammar, ts, builder.pos);
      var at := builder.MatchTokenType(Keyword(KAt));
      if at {
        r := ParseLocationHints(haveErrors);
      } else {
        r := haveErrors;
        assert m0 + [] == m0;
      }
    }
  }
}
