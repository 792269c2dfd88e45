/**
 * The XSLT schema-types parser: the text of an XSLT attribute whose schema
 * type is a value template, a list of name tests, a list of EQNames or
 * hashed keywords, or a sequence type, parsed with the tree builder.
 *
 * The XPath rules it calls (EQName, name test, sequence type and enclosed
 * expression) are given as item parsers: functions from the tokens and the
 * cursor to the end of the item there, the cursor itself when there is
 * none. A matched item becomes one node.
 *
 * Every parse function is specified by a function on the tokens giving
 * its outcome: None when it returns false (the builder is unchanged), or
 * the token it stops at and the markers it appends.
 */
module SchemaTypesParser {
  import opened Wrappers
  import opened TreeBuilder

  datatype XPathToken =
    | WhiteSpace | CommentStartTag | CommentText | CommentEndTag
    | FunctionRefOperator | NCName | Keyword(name: string)
    | ValueContents | EscapedCharacter | BlockOpen | BlockClose
    | OtherToken(name: string)

  datatype Node = CommentNode | QNameNode | NameTestNode | SequenceTypeNode | EnclosedExprNode | HashedKeywordNode

  datatype SchemaLanguage = ValueTemplate | NameTests | EQNamesOrHashedKeywords | SequenceType | OtherSchema

  type ItemParser = (seq<XPathToken>, nat) -> nat

  /** The schema language and the XPath rules the parser calls. */
  datatype Grammar = Grammar(
    schema: SchemaLanguage,
    eqName: ItemParser,
    nameTest: ItemParser,
    sequenceType: ItemParser,
    enclosedExpr: ItemParser)

  const CommentInSchemaType := "parser.error.comment-in-schema-type"
  const MismatchedEnclosedExpr := "parser.error.mismatched-exclosed-expr"
  const IncompleteComment := "parser.error.incomplete-comment"
  const EndOfCommentWithoutStart := "parser.error.end-of-comment-without-start"

  /** An item parser stays between the cursor and the end of the tokens. */
  ghost predicate ValidItem(f: ItemParser) {
    forall ts: seq<XPathToken>, p: nat :: p <= |ts| ==> p <= f(ts, p) <= |ts|
  }

  ghost predicate ValidGrammar(g: Grammar) {
    ValidItem(g.eqName) && ValidItem(g.nameTest) && ValidItem(g.sequenceType) && ValidItem(g.enclosedExpr)
  }

  /** `INCNameType`: NCName tokens and the keywords, which are NCNames too. */
  predicate IsNCName(t: XPathToken) {
    t.NCName? || t.Keyword?
  }

  /** The markers this parser appends: error nodes carry their message key. */
  type NodeMarker = Marker<Node, string>

  /** Where a parse function stops and the markers it appends. */
  datatype Outcome = Outcome(end: nat, nodes: seq<NodeMarker>)

  /** The outcome stays within the tokens from `p` and leaves no marker open. */
  predicate Within(ts: seq<XPathToken>, p: nat, o: Outcome) {
    p <= o.end <= |ts| && ClosedFrom(o.nodes, 0)
  }

  /** As `Within`, and at least one token is consumed. */
  predicate Consumes(ts: seq<XPathToken>, p: nat, o: Outcome) {
    Within(ts, p, o) && p < o.end
  }

  /** One outcome followed by another. */
  function Then(a: Outcome, b: Outcome): Outcome {
    Outcome(b.end, a.nodes + b.nodes)
  }

  /** The builder's cursor and markers after a parse function with outcome `o` returned `r`. */
  ghost predicate Reached(r: bool, o: Option<Outcome>, pos: nat, markers: seq<NodeMarker>, pos0: nat, markers0: seq<NodeMarker>) {
    (r <==> o.Some?) &&
    (if o.Some? then pos == o.value.end && markers == markers0 + o.value.nodes
     else pos == pos0 && markers == markers0)
  }

  function Kind(ts: seq<XPathToken>, p: nat): Option<XPathToken> {
    if p < |ts| then Some(ts[p]) else None
  }

  /** The cursor after `advanceLexer`. */
  function Advance(ts: seq<XPathToken>, p: nat): nat {
    if p < |ts| then p + 1 else p
  }

  /** The end of the comment text from `p`. */
  function CommentContentsEnd(ts: seq<XPathToken>, p: nat): (r: nat)
    requires p <= |ts|
    ensures p <= r <= |ts| && Kind(ts, r) != Some(CommentText)
    decreases |ts| - p
  {
    if Kind(ts, p) == Some(CommentText) then CommentContentsEnd(ts, p + 1) else p
  }

  /**
   * `parseSchemaComment`: a comment, or a stray `:)`, is an error node;
   * the token after the comment text is consumed whatever it is.
   */
  function SchemaComment(ts: seq<XPathToken>, p: nat): (r: Option<Outcome>)
    requires p <= |ts|
    ensures r.Some? <==> Kind(ts, p) in {Some(CommentStartTag), Some(CommentEndTag)}
    ensures r.Some? ==> Consumes(ts, p, r.value) && r.value.nodes == [Marker(p, Failed(r.value.end, CommentInSchemaType))]
  {
    if Kind(ts, p) == Some(CommentStartTag) then
      var e := Advance(ts, CommentContentsEnd(ts, p + 1));
      Some(Outcome(e, [Marker(p, Failed(e, CommentInSchemaType))]))
    else if Kind(ts, p) == Some(CommentEndTag) then
      Some(Outcome(p + 1, [Marker(p, Failed(p + 1, CommentInSchemaType))]))
    else
      None
  }

  /**
   * The XPath comment rule, used in value templates and sequence types: a
   * COMMENT node, with an error after it when the comment is not closed;
   * a stray `:)` is an error node.
   */
  function XPathComment(ts: seq<XPathToken>, p: nat): (r: Option<Outcome>)
    requires p <= |ts|
    ensures r.Some? <==> Kind(ts, p) in {Some(CommentStartTag), Some(CommentEndTag)}
    ensures r.Some? ==> Consumes(ts, p, r.value)
  {
    if Kind(ts, p) == Some(CommentStartTag) then
      var c := CommentContentsEnd(ts, p + 1);
      if Kind(ts, c) == Some(CommentEndTag) then
        Some(Outcome(c + 1, [Marker(p, Completed(c + 1, CommentNode))]))
      else
        var e := Advance(ts, c);
        Some(Outcome(e, [Marker(p, Completed(e, CommentNode)), Marker(e, Failed(e, IncompleteComment))]))
    else if Kind(ts, p) == Some(CommentEndTag) then
      Some(Outcome(p + 1, [Marker(p, Failed(p + 1, EndOfCommentWithoutStart))]))
    else
      None
  }

  /** `parseComment`: the XPath rule in value templates and sequence types, the schema rule elsewhere. */
  function Comment(g: Grammar, ts: seq<XPathToken>, p: nat): (r: Option<Outcome>)
    requires p <= |ts|
    ensures r.Some? <==> Kind(ts, p) in {Some(CommentStartTag), Some(CommentEndTag)}
    ensures r.Some? ==> Consumes(ts, p, r.value)
  {
    if g.schema == ValueTemplate || g.schema == SequenceType then XPathComment(ts, p) else SchemaComment(ts, p)
  }

  /** `parseWhiteSpaceAndCommentTokens`: white space and comments, as long as there are any. */
  function Trivia(g: Grammar, ts: seq<XPathToken>, p: nat): (r: Outcome)
    requires p <= |ts|
    ensures Within(ts, p, r)
    decreases |ts| - p
  {
    if Kind(ts, p) == Some(WhiteSpace) then Trivia(g, ts, p + 1)
    else match Comment(g, ts, p) {
      case None => Outcome(p, [])
      case Some(c) => Then(c, Trivia(g, ts, c.end))
    }
  }

  /** One item of kind `kind`, or None when the item parser finds none. */
  function Item(f: ItemParser, kind: Node, ts: seq<XPathToken>, p: nat): (r: Option<Outcome>)
    requires ValidItem(f) && p <= |ts|
    ensures r.Some? ==> Consumes(ts, p, r.value) && r.value.nodes == [Marker(p, Completed(r.value.end, kind))]
  {
    var e := f(ts, p);
    if e == p then None else Some(Outcome(e, [Marker(p, Completed(e, kind))]))
  }

  /** `parseHashedKeyword`, with the marker given back when no NCName follows the `#`. */
  function HashedKeyword(ts: seq<XPathToken>, p: nat): (r: Option<Outcome>)
    requires p <= |ts|
    ensures r.Some? <==> p + 1 < |ts| && ts[p] == FunctionRefOperator && IsNCName(ts[p + 1])
    ensures r.Some? ==> r.value == Outcome(p + 2, [Marker(p, Completed(p + 2, HashedKeywordNode))])
  {
    if Kind(ts, p) == Some(FunctionRefOperator) && p + 1 < |ts| && IsNCName(ts[p + 1]) then
      Some(Outcome(p + 2, [Marker(p, Completed(p + 2, HashedKeywordNode))]))
    else
      None
  }

  /**
   * `parseHashedKeyword` as written: when the `#` is not followed by an
   * NCName it returns false with the `#` consumed and its marker still open.
   */
  function HashedKeywordAsWritten(ts: seq<XPathToken>, p: nat): (r: (bool, Outcome))
    requires p <= |ts|
    ensures r.0 <==> HashedKeyword(ts, p).Some?
    ensures r.0 ==> r.1 == HashedKeyword(ts, p).value
  {
    if Kind(ts, p) == Some(FunctionRefOperator) then
      if p + 1 < |ts| && IsNCName(ts[p + 1]) then
        (true, Outcome(p + 2, [Marker(p, Completed(p + 2, HashedKeywordNode))]))
      else
        (false, Outcome(p + 1, [Marker(p, Open)]))
    else
      (false, Outcome(p, []))
  }

  /** `parseEQNameOrHashedKeyword`: an EQName is tried first. */
  function EQNameOrHashedKeyword(g: Grammar, ts: seq<XPathToken>, p: nat): (r: Option<Outcome>)
    requires ValidGrammar(g) && p <= |ts|
    ensures r.Some? ==> Consumes(ts, p, r.value)
  {
    var q := Item(g.eqName, QNameNode, ts, p);
    if q.Some? then q else HashedKeyword(ts, p)
  }

  predicate IsList(s: SchemaLanguage) {
    s == NameTests || s == EQNamesOrHashedKeywords
  }

  /** The item of a list schema: a name test, or an EQName or hashed keyword. */
  function ListItem(g: Grammar, ts: seq<XPathToken>, p: nat): (r: Option<Outcome>)
    requires ValidGrammar(g) && IsList(g.schema) && p <= |ts|
    ensures r.Some? ==> Consumes(ts, p, r.value)
  {
    if g.schema == NameTests then Item(g.nameTest, NameTestNode, ts, p) else EQNameOrHashedKeyword(g, ts, p)
  }

  /** The loop of `parseSchemaList` from `p`: items, each followed by its trivia. */
  function ListFrom(g: Grammar, ts: seq<XPathToken>, p: nat): (r: Outcome)
    requires ValidGrammar(g) && IsList(g.schema) && p <= |ts|
    ensures Within(ts, p, r)
    decreases |ts| - p
  {
    match ListItem(g, ts, p) {
      case None => Outcome(p, [])
      case Some(o) =>
        var t := Trivia(g, ts, o.end);
        Then(Then(o, t), ListFrom(g, ts, t.end))
    }
  }

  /** `parseSchemaList`: true when at least one item matched. */
  function SchemaList(g: Grammar, ts: seq<XPathToken>, p: nat): (r: Option<Outcome>)
    requires ValidGrammar(g) && IsList(g.schema) && p <= |ts|
    ensures r.Some? <==> ListItem(g, ts, p).Some?
    ensures r.Some? ==> Consumes(ts, p, r.value)
  {
    if ListItem(g, ts, p).None? then None else Some(ListFrom(g, ts, p))
  }

  /**
   * One pass of the `parseValueTemplate` condition: value contents, an
   * escaped brace, a stray `}` flagged as mismatched, or an enclosed
   * expression.
   */
  function ValueTemplatePart(g: Grammar, ts: seq<XPathToken>, p: nat): (r: Option<Outcome>)
    requires ValidGrammar(g) && p <= |ts|
    ensures r.Some? ==> Consumes(ts, p, r.value)
  {
    if Kind(ts, p) == Some(ValueContents) || Kind(ts, p) == Some(EscapedCharacter) then Some(Outcome(p + 1, []))
    else if Kind(ts, p) == Some(BlockClose) then Some(Outcome(p + 1, [Marker(p, Failed(p + 1, MismatchedEnclosedExpr))]))
    else Item(g.enclosedExpr, EnclosedExprNode, ts, p)
  }

  function ValueTemplateFrom(g: Grammar, ts: seq<XPathToken>, p: nat): (r: Outcome)
    requires ValidGrammar(g) && p <= |ts|
    ensures Within(ts, p, r)
    decreases |ts| - p
  {
    match ValueTemplatePart(g, ts, p) {
      case None => Outcome(p, [])
      case Some(o) => Then(o, ValueTemplateFrom(g, ts, o.end))
    }
  }

  /** `parseValueTemplate`: true when at least one part was consumed. */
  function ValueTemplateOf(g: Grammar, ts: seq<XPathToken>, p: nat): (r: Option<Outcome>)
    requires ValidGrammar(g) && p <= |ts|
    ensures r.Some? <==> ValueTemplatePart(g, ts, p).Some?
    ensures r.Some? ==> Consumes(ts, p, r.value)
  {
    if ValueTemplatePart(g, ts, p).None? then None else Some(ValueTemplateFrom(g, ts, p))
  }

  /** `parseSchemaType`: dispatch on the schema language; any other language parses nothing. */
  function SchemaTypeOf(g: Grammar, ts: seq<XPathToken>, p: nat): (r: Option<Outcome>)
    requires ValidGrammar(g) && p <= |ts|
    ensures g.schema == OtherSchema ==> r.None?
    ensures r.Some? ==> Consumes(ts, p, r.value)
  {
    match g.schema {
      case ValueTemplate => ValueTemplateOf(g, ts, p)
      case NameTests => SchemaList(g, ts, p)
      case EQNamesOrHashedKeywords => SchemaList(g, ts, p)
      case SequenceType => Item(g.sequenceType, SequenceTypeNode, ts, p)
      case OtherSchema => None
    }
  }

  /** `parse`: the schema type, then the white space and comments after it. */
  function ParseOf(g: Grammar, ts: seq<XPathToken>, p: nat): (r: Option<Outcome>)
    requires ValidGrammar(g) && p <= |ts|
    ensures r.Some? <==> SchemaTypeOf(g, ts, p).Some?
    ensures r.Some? ==> Consumes(ts, p, r.value)
  {
    match SchemaTypeOf(g, ts, p) {
      case None => None
      case Some(o) => Some(Then(o, Trivia(g, ts, o.end)))
    }
  }

  // The parse methods, run on the builder.

  method ParseItem(f: ItemParser, kind: Node, b: Builder<XPathToken, Node, string>) returns (r: bool)
    requires b.Valid() && ValidItem(f)
    modifies b
    ensures b.Valid() && Reached(r, Item(f, kind, b.tokens, old(b.pos)), b.pos, b.markers, old(b.pos), old(b.markers))
    ensures b.open == old(b.open)
  {
    var e := f(b.tokens, b.pos);
    if e == b.pos {
      return false;
    }
    var m := b.Mark();
    while b.pos < e
      invariant b.Valid() && old(b.pos) <= b.pos <= e
      invariant b.markers == old(b.markers) + [Marker(old(b.pos), Open)] && b.open == Push(old(b.open), m)
      decreases e - b.pos
    {
      b.AdvanceLexer();
    }
    b.Done(m, kind, old(b.markers), old(b.pos), []);
    return true;
  }

  /** `parseCommentContents`: the comment text. */
  method ParseCommentContents(b: Builder<XPathToken, Node, string>)
    requires b.Valid()
    modifies b
    ensures b.Valid() && b.pos == CommentContentsEnd(b.tokens, old(b.pos)) && b.markers == old(b.markers)
    ensures b.open == old(b.open)
  {
    while b.TokenType() == Some(CommentText)
      invariant b.Valid() && b.markers == old(b.markers) && b.open == old(b.open)
      invariant CommentContentsEnd(b.tokens, b.pos) == CommentContentsEnd(b.tokens, old(b.pos))
      decreases |b.tokens| - b.pos
    {
      b.AdvanceLexer();
    }
  }

  method ParseSchemaComment(b: Builder<XPathToken, Node, string>) returns (r: bool)
    requires b.Valid()
    modifies b
    ensures b.Valid() && Reached(r, SchemaComment(b.tokens, old(b.pos)), b.pos, b.markers, old(b.pos), old(b.markers))
    ensures b.open == old(b.open)
  {
    if b.TokenType() == Some(CommentStartTag) {
      var errorMarker := b.Mark();
      b.AdvanceLexer();
      ParseCommentContents(b);
      b.AdvanceLexer();
      b.MarkerError(errorMarker, CommentInSchemaType, old(b.markers), old(b.pos), []);
      return true;
    } else if b.TokenType() == Some(CommentEndTag) {
      var errorMarker := b.Mark();
      b.AdvanceLexer();
      b.MarkerError(errorMarker, CommentInSchemaType, old(b.markers), old(b.pos), []);
      return true;
    }
    return false;
  }

  method ParseXPathComment(b: Builder<XPathToken, Node, string>) returns (r: bool)
    requires b.Valid()
    modifies b
    ensures b.Valid() && Reached(r, XPathComment(b.tokens, old(b.pos)), b.pos, b.markers, old(b.pos), old(b.markers))
    ensures b.open == old(b.open)
  {
    if b.TokenType() == Some(CommentStartTag) {
      var commentMarker := b.Mark();
      b.AdvanceLexer();
      ParseCommentContents(b);
      if b.TokenType() == Some(CommentEndTag) {
        b.AdvanceLexer();
        b.Done(commentMarker, CommentNode, old(b.markers), old(b.pos), []);
      } else {
        b.AdvanceLexer();
        b.Done(commentMarker, CommentNode, old(b.markers), old(b.pos), []);
        b.Error(IncompleteComment);
      }
      return true;
    } else if b.TokenType() == Some(CommentEndTag) {
      var errorMarker := b.Mark();
      b.AdvanceLexer();
      b.MarkerError(errorMarker, EndOfCommentWithoutStart, old(b.markers), old(b.pos), []);
      return true;
    }
    return false;
  }

  method ParseComment(g: Grammar, b: Builder<XPathToken, Node, string>) returns (r: bool)
    requires b.Valid()
    modifies b
    ensures b.Valid() && Reached(r, Comment(g, b.tokens, old(b.pos)), b.pos, b.markers, old(b.pos), old(b.markers))
    ensures b.open == old(b.open)
  {
    if g.schema == ValueTemplate || g.schema == SequenceType {
      r := ParseXPathComment(b);
    } else {
      r := ParseSchemaComment(b);
    }
  }

  method ParseWhiteSpaceAndCommentTokens(g: Grammar, b: Builder<XPathToken, Node, string>)
    requires b.Valid()
    modifies b
    ensures b.Valid()
    ensures b.pos == Trivia(g, b.tokens, old(b.pos)).end
    ensures b.markers == old(b.markers) + Trivia(g, b.tokens, old(b.pos)).nodes
    ensures b.open == old(b.open)
  {
    ghost var acc: seq<NodeMarker> := [];
    while true
      invariant b.Valid() && old(b.pos) <= b.pos
      invariant b.markers == old(b.markers) + acc && b.open == old(b.open)
      invariant Trivia(g, b.tokens, old(b.pos)) == Outcome(Trivia(g, b.tokens, b.pos).end, acc + Trivia(g, b.tokens, b.pos).nodes)
      decreases |b.tokens| - b.pos
    {
      if b.TokenType() == Some(WhiteSpace) {
        b.AdvanceLexer();
      } else {
        ghost var p0 := b.pos;
        var comment := ParseComment(g, b);
        if !comment {
          return;
        }
        ghost var item := Comment(g, b.tokens, p0).value.nodes;
        Appended(old(b.markers), acc, item);
        Appended(acc, item, Trivia(g, b.tokens, b.pos).nodes);
        acc := acc + item;
      }
    }
  }

  method ParseHashedKeyword(b: Builder<XPathToken, Node, string>) returns (r: bool)
    requires b.Valid()
    modifies b
    ensures b.Valid() && Reached(r, HashedKeyword(b.tokens, old(b.pos)), b.pos, b.markers, old(b.pos), old(b.markers))
    ensures b.open == old(b.open)
  {
    var marker := b.MatchTokenTypeWithMarker(FunctionRefOperator);
    if marker.Some? {
      if b.TokenType().Some? && IsNCName(b.TokenType().value) {
        b.AdvanceLexer();
        b.Done(marker.value, HashedKeywordNode, old(b.markers), old(b.pos), []);
        return true;
      }
      b.RollbackTo(marker.value);
    }
    return false;
  }

  /** `parseHashedKeyword` exactly as written, leaving its marker open when no NCName follows the `#`. */
  method ParseHashedKeywordAsWritten(b: Builder<XPathToken, Node, string>) returns (r: bool)
    requires b.Valid()
    modifies b
    ensures b.Valid()
    ensures r == HashedKeywordAsWritten(b.tokens, old(b.pos)).0
    ensures b.pos == HashedKeywordAsWritten(b.tokens, old(b.pos)).1.end
    ensures b.markers == old(b.markers) + HashedKeywordAsWritten(b.tokens, old(b.pos)).1.nodes
  {
    var marker := b.MatchTokenTypeWithMarker(FunctionRefOperator);
    if marker.Some? {
      if b.TokenType().Some? && IsNCName(b.TokenType().value) {
        b.AdvanceLexer();
        b.Done(marker.value, HashedKeywordNode, old(b.markers), old(b.pos), []);
        return true;
      }
    }
    return false;
  }

  method ParseEQNameOrHashedKeyword(g: Grammar, b: Builder<XPathToken, Node, string>) returns (r: bool)
    requires b.Valid() && ValidGrammar(g)
    modifies b
    ensures b.Valid() && Reached(r, EQNameOrHashedKeyword(g, b.tokens, old(b.pos)), b.pos, b.markers, old(b.pos), old(b.markers))
    ensures b.open == old(b.open)
  {
    r := ParseItem(g.eqName, QNameNode, b);
    if !r {
      r := ParseHashedKeyword(b);
    }
  }

  method ParseListItem(g: Grammar, b: Builder<XPathToken, Node, string>) returns (r: bool)
    requires b.Valid() && ValidGrammar(g) && IsList(g.schema)
    modifies b
    ensures b.Valid() && Reached(r, ListItem(g, b.tokens, old(b.pos)), b.pos, b.markers, old(b.pos), old(b.markers))
    ensures b.open == old(b.open)
  {
    if g.schema == NameTests {
      r := ParseItem(g.nameTest, NameTestNode, b);
    } else {
      r := ParseEQNameOrHashedKeyword(g, b);
    }
  }

  method ParseSchemaList(g: Grammar, b: Builder<XPathToken, Node, string>) returns (matched: bool)
    requires b.Valid() && ValidGrammar(g) && IsList(g.schema)
    modifies b
    ensures b.Valid() && Reached(matched, SchemaList(g, b.tokens, old(b.pos)), b.pos, b.markers, old(b.pos), old(b.markers))
    ensures b.open == old(b.open)
  {
    matched := false;
    ghost var acc: seq<NodeMarker> := [];
    while true
      invariant b.Valid() && old(b.pos) <= b.pos
      invariant b.markers == old(b.markers) + acc && b.open == old(b.open)
      invariant !matched ==> b.pos == old(b.pos) && acc == []
      invariant matched ==> ListItem(g, b.tokens, old(b.pos)).Some?
      invariant ListFrom(g, b.tokens, old(b.pos)) == Outcome(ListFrom(g, b.tokens, b.pos).end, acc + ListFrom(g, b.tokens, b.pos).nodes)
      decreases |b.tokens| - b.pos
    {
      ghost var p0 := b.pos;
      var item := ParseListItem(g, b);
      if !item {
        break;
      }
      matched := true;
      ghost var p1 := b.pos;
      ParseWhiteSpaceAndCommentTokens(g, b);
      ghost var nodes := ListItem(g, b.tokens, p0).value.nodes + Trivia(g, b.tokens, p1).nodes;
      Appended(old(b.markers) + acc, ListItem(g, b.tokens, p0).value.nodes, Trivia(g, b.tokens, p1).nodes);
      Appended(old(b.markers), acc, nodes);
      Appended(acc, nodes, ListFrom(g, b.tokens, b.pos).nodes);
      acc := acc + nodes;
    }
  }

  method ParseValueTemplatePart(g: Grammar, b: Builder<XPathToken, Node, string>) returns (r: bool)
    requires b.Valid() && ValidGrammar(g)
    modifies b
    ensures b.Valid() && Reached(r, ValueTemplatePart(g, b.tokens, old(b.pos)), b.pos, b.markers, old(b.pos), old(b.markers))
    ensures b.open == old(b.open)
  {
    r := b.MatchTokenType(ValueContents);
    if !r {
      r := b.MatchTokenType(EscapedCharacter);
    }
    if !r {
      r := b.ErrorOnTokenType(BlockClose, MismatchedEnclosedExpr);
    }
    if !r {
      r := ParseItem(g.enclosedExpr, EnclosedExprNode, b);
    }
  }

  method ParseValueTemplate(g: Grammar, b: Builder<XPathToken, Node, string>) returns (matched: bool)
    requires b.Valid() && ValidGrammar(g)
    modifies b
    ensures b.Valid() && Reached(matched, ValueTemplateOf(g, b.tokens, old(b.pos)), b.pos, b.markers, old(b.pos), old(b.markers))
    ensures b.open == old(b.open)
  {
    matched := false;
    ghost var acc: seq<NodeMarker> := [];
    while true
      invariant b.Valid() && old(b.pos) <= b.pos
      invariant b.markers == old(b.markers) + acc && b.open == old(b.open)
      invariant !matched ==> b.pos == old(b.pos) && acc == []
      invariant matched ==> ValueTemplatePart(g, b.tokens, old(b.pos)).Some?
      invariant ValueTemplateFrom(g, b.tokens, old(b.pos)) ==
        Outcome(ValueTemplateFrom(g, b.tokens, b.pos).end, acc + ValueTemplateFrom(g, b.tokens, b.pos).nodes)
      decreases |b.tokens| - b.pos
    {
      ghost var p0 := b.pos;
      var part := ParseValueTemplatePart(g, b);
      if !part {
        break;
      }
      matched := true;
      ghost var item := ValueTemplatePart(g, b.tokens, p0).value.nodes;
      Appended(old(b.markers), acc, item);
      Appended(acc, item, ValueTemplateFrom(g, b.tokens, b.pos).nodes);
      acc := acc + item;
    }
  }

  method ParseSchemaType(g: Grammar, b: Builder<XPathToken, Node, string>) returns (r: bool)
    requires b.Valid() && ValidGrammar(g)
    modifies b
    ensures b.Valid() && Reached(r, SchemaTypeOf(g, b.tokens, old(b.pos)), b.pos, b.markers, old(b.pos), old(b.markers))
    ensures b.open == old(b.open)
  {
    match g.schema {
      case ValueTemplate => r := ParseValueTemplate(g, b);
      case NameTests => r := ParseSchemaList(g, b);
      case EQNamesOrHashedKeywords => r := ParseSchemaList(g, b);
      case SequenceType => r := ParseItem(g.sequenceType, SequenceTypeNode, b);
      case OtherSchema => r := false;
    }
  }

  method Parse(g: Grammar, b: Builder<XPathToken, Node, string>) returns (r: bool)
    requires b.Valid() && ValidGrammar(g)
    modifies b
    ensures b.Valid() && Reached(r, ParseOf(g, b.tokens, old(b.pos)), b.pos, b.markers, old(b.pos), old(b.markers))
    ensures b.open == old(b.open)
  {
    var schemaType := ParseSchemaType(g, b);
    if schemaType {
      ParseWhiteSpaceAndCommentTokens(g, b);
      return true;
    }
    return false;
  }

  // Properties.

  /** The trivia loop stops at a token that is neither white space nor a comment token. */
  lemma {:induction false} TriviaStops(g: Grammar, ts: seq<XPathToken>, p: nat)
    requires p <= |ts|
    ensures var e := Trivia(g, ts, p).end;
      Kind(ts, e) !in {Some(WhiteSpace), Some(CommentStartTag), Some(CommentEndTag)}
    decreases |ts| - p
  {
    if Kind(ts, p) == Some(WhiteSpace) {
      TriviaStops(g, ts, p + 1);
    } else if Comment(g, ts, p).Some? {
      TriviaStops(g, ts, Comment(g, ts, p).value.end);
    }
  }

  /** After a schema type is parsed, `parse` has consumed all the white space and comments after it. */
  lemma ParseConsumesTrailingTrivia(g: Grammar, ts: seq<XPathToken>, p: nat)
    requires ValidGrammar(g) && p <= |ts| && ParseOf(g, ts, p).Some?
    ensures var e := ParseOf(g, ts, p).value.end;
      e >= SchemaTypeOf(g, ts, p).value.end &&
      Kind(ts, e) !in {Some(WhiteSpace), Some(CommentStartTag), Some(CommentEndTag)}
  {
    TriviaStops(g, ts, SchemaTypeOf(g, ts, p).value.end);
  }

  /** The list loop stops only where no further item matches. */
  lemma {:induction false} ListFromStops(g: Grammar, ts: seq<XPathToken>, p: nat)
    requires ValidGrammar(g) && IsList(g.schema) && p <= |ts|
    ensures ListItem(g, ts, ListFrom(g, ts, p).end).None?
    decreases |ts| - p
  {
    match ListItem(g, ts, p) {
      case None =>
      case Some(o) =>
        ListFromStops(g, ts, Trivia(g, ts, o.end).end);
    }
  }

  /**
   * A schema list matches exactly when its first item does, and then runs
   * to a token where no item matches.
   */
  lemma SchemaListMaximal(g: Grammar, ts: seq<XPathToken>, p: nat)
    requires ValidGrammar(g) && IsList(g.schema) && p <= |ts| && SchemaList(g, ts, p).Some?
    ensures ListItem(g, ts, SchemaList(g, ts, p).value.end).None?
  {
    ListFromStops(g, ts, p);
  }

  /** An item of a list is followed by its trivia: the next item starts after them. */
  lemma SchemaListSkipsTrivia(g: Grammar, ts: seq<XPathToken>, p: nat)
    requires ValidGrammar(g) && IsList(g.schema) && p <= |ts| && ListItem(g, ts, p).Some?
    ensures var o := ListItem(g, ts, p).value;
      var t := Trivia(g, ts, o.end);
      SchemaList(g, ts, p).value ==
        Outcome(ListFrom(g, ts, t.end).end, o.nodes + t.nodes + ListFrom(g, ts, t.end).nodes)
  {
  }

  /** The value-template loop stops only where no part matches. */
  lemma {:induction false} ValueTemplateFromStops(g: Grammar, ts: seq<XPathToken>, p: nat)
    requires ValidGrammar(g) && p <= |ts|
    ensures ValueTemplatePart(g, ts, ValueTemplateFrom(g, ts, p).end).None?
    decreases |ts| - p
  {
    match ValueTemplatePart(g, ts, p) {
      case None =>
      case Some(o) =>
        ValueTemplateFromStops(g, ts, o.end);
    }
  }

  /**
   * A value template ends at a token that is none of value contents, an
   * escaped brace or a `}`, and where no enclosed expression starts.
   */
  lemma ValueTemplateMaximal(g: Grammar, ts: seq<XPathToken>, p: nat)
    requires ValidGrammar(g) && p <= |ts| && ValueTemplateOf(g, ts, p).Some?
    ensures var e := ValueTemplateOf(g, ts, p).value.end;
      Kind(ts, e) !in {Some(ValueContents), Some(EscapedCharacter), Some(BlockClose)} &&
      g.enclosedExpr(ts, e) == e
  {
    ValueTemplateFromStops(g, ts, p);
  }

  /** A stray `}` in a value template is consumed as a "mismatched enclosed expression" error node. */
  lemma StrayBlockCloseIsMismatched(g: Grammar, ts: seq<XPathToken>, p: nat)
    requires ValidGrammar(g) && p < |ts| && ts[p] == BlockClose
    ensures ValueTemplateOf(g, ts, p).Some?
    ensures var nodes := ValueTemplateOf(g, ts, p).value.nodes;
      |nodes| > 0 && nodes[0] == Marker(p, Failed(p + 1, MismatchedEnclosedExpr))
  {
    assert ValueTemplatePart(g, ts, p) == Some(Outcome(p + 1, [Marker(p, Failed(p + 1, MismatchedEnclosedExpr))]));
  }

  /**
   * Outside value templates and sequence types, a comment or a stray `:)`
   * is one "comment-in-schema-type" error node.
   */
  lemma CommentInSchemaIsError(g: Grammar, ts: seq<XPathToken>, p: nat)
    requires p < |ts| && (ts[p] == CommentStartTag || ts[p] == CommentEndTag)
    requires g.schema != ValueTemplate && g.schema != SequenceType
    ensures var c := Comment(g, ts, p);
      c.Some? && c.value.nodes == [Marker(p, Failed(c.value.end, CommentInSchemaType))]
  {
  }

  /** An EQName is tried before a hashed keyword: when one matches, the hashed keyword rule is not used. */
  lemma EQNameTriedFirst(g: Grammar, ts: seq<XPathToken>, p: nat)
    requires ValidGrammar(g) && p <= |ts|
    ensures g.eqName(ts, p) > p ==>
      EQNameOrHashedKeyword(g, ts, p) == Some(Outcome(g.eqName(ts, p), [Marker(p, Completed(g.eqName(ts, p), QNameNode))]))
    ensures g.eqName(ts, p) == p ==> EQNameOrHashedKeyword(g, ts, p) == HashedKeyword(ts, p)
  {
  }

  /**
   * The parse functions that return false leave the builder unchanged;
   * the one exception is `parseHashedKeyword` as written, which on a `#`
   * not followed by an NCName consumes the `#` and leaves an open marker.
   */
  lemma HashedKeywordAsWrittenLeavesMarkerOpen(ts: seq<XPathToken>, p: nat)
    requires p < |ts| && ts[p] == FunctionRefOperator && !(p + 1 < |ts| && IsNCName(ts[p + 1]))
    ensures var (r, o) := HashedKeywordAsWritten(ts, p);
      !r && o.end == p + 1 && !ClosedFrom(o.nodes, 0)
    ensures HashedKeyword(ts, p).None?
  {
    assert HashedKeywordAsWritten(ts, p).1.nodes[0].state.Open?;
  }

  /** `#` followed by white space, as in `# all`: the open marker left behind, where the corrected rule gives nothing back. */
  lemma HashFollowedBySpace()
    ensures HashedKeywordAsWritten([FunctionRefOperator, WhiteSpace, NCName], 0) ==
      (false, Outcome(1, [Marker(0, Open)]))
    ensures HashedKeyword([FunctionRefOperator, WhiteSpace, NCName], 0).None?
  {
  }

  /**
   * Markers left by the corrected parse functions are all closed, so a
   * caller's own marker around them can be completed.
   */
  lemma ParseLeavesNoOpenMarker(g: Grammar, ts: seq<XPathToken>, p: nat, before: seq<NodeMarker>)
    requires ValidGrammar(g) && p <= |ts| && ParseOf(g, ts, p).Some?
    ensures ClosedFrom(before + ParseOf(g, ts, p).value.nodes, |before|)
  {
    var nodes := ParseOf(g, ts, p).value.nodes;
    forall k | |before| <= k < |before + nodes|
      ensures !(before + nodes)[k].state.Open?
    {
      assert (before + nodes)[k] == nodes[k - |before|];
    }
  }
}
