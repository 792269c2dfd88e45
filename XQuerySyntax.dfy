/**
 * The vocabulary of the XQuery parser: its tokens, the nodes it builds,
 * its error messages, and the outcome of a parse rule, with the rules
 * every declaration is made of (white space and comments, string
 * literals, QNames) specified as functions on the tokens.
 *
 * A parse rule starting at token `p` is specified by an `Outcome`: the
 * value the rule returns, the token it stops at, and the markers it
 * appends to the builder, in the order they were opened. A dropped
 * marker stays in that list (it builds no node); a completed or failed
 * marker carries the token it ends at.
 */
module XQuerySyntax {
  import opened Wrappers
  import opened TreeBuilder

  /** The keywords the parser tests for; every keyword is also an NCName. */
  datatype KeywordKind =
    | KXQuery | KEncoding | KVersion | KModule | KNamespace | KImport | KSchema | KDeclare
    | KBaseUri | KBoundarySpace | KConstruction | KCopyNamespaces | KDefault | KFunction
    | KOption | KOrdering | KVariable | KPreserve | KStrip | KOrdered | KUnordered | KOrder
    | KEmpty | KGreatest | KLeast | KNoPreserve | KInherit | KNoInherit | KCollation
    | KElement | KAt | KExternal | KAs
    | KOther(name: string)

  /** The tokens the builder hands to the parser (comment text is hidden by the builder). */
  datatype Token =
    | WhiteSpace | CommentStartTag | CommentEndTag | EntityReferenceNotInString
    | NCName | Keyword(keyword: KeywordKind) | QNameSeparator
    | StringLiteralStart | StringLiteralContents | StringLiteralEnd
    | PredefinedEntityReference | CharacterReference | EscapedCharacter
    | PartialEntityReference | EmptyEntityReference
    | Separator | Equal | Comma | VariableIndicator | AssignEqual
    | ParenthesisOpen | ParenthesisClose | BlockOpen | BlockClose
    | OtherToken(name: string)

  /** The element types of the nodes the parser builds. */
  datatype Node =
    | CommentNode | ModuleNode | LibraryModuleNode | MainModuleNode | VersionDeclNode | ModuleDeclNode
    | PrologNode | SchemaImportNode | ModuleImportNode | ImportNode | SchemaPrefixNode
    | BaseUriDeclNode | BoundarySpaceDeclNode | ConstructionDeclNode | CopyNamespacesDeclNode
    | DefaultNamespaceDeclNode | EmptyOrderDeclNode | DefaultCollationDeclNode | FunctionDeclNode
    | NamespaceDeclNode | OptionDeclNode | OrderingModeDeclNode | VarDeclNode | UnknownDeclNode
    | ParamListNode | ParamNode | StringLiteralNode | UriLiteralNode | QNameNode | NCNameNode
    | QueryBodyNode | ExprNode | ExprSingleNode | TypeDeclarationNode | SequenceTypeNode
    | EnclosedExprNode | DirCommentNode | CDataSectionNode

  /** The XQuery version set in the project settings. */
  datatype XQueryVersion = XQuery10 | XQuery30 | XQuery31 | OtherVersion(name: string)

  predicate IsXQuery30OrLater(v: XQueryVersion) {
    v == XQuery30 || v == XQuery31
  }

  /**
   * The parser's error messages, by their message-bundle key (see `Key`).
   * `Expected(t)` carries the spelling of the token `t` as its argument,
   * `ExpectedKeyword(ks)` the spellings of the keywords `ks` separated by
   * commas.
   */
  datatype Message =
    | IncompleteComment | EndOfCommentWithoutStart | MisplacedEntity
    | IncompleteEntity | EmptyEntity | IncompleteString
    | ExpectedNCNameNotQName | WhitespaceBeforeLocalPart | WhitespaceAfterLocalPart
    | MissingLocalName | MissingPrefix
    | VersionDecl30 | ExpectedEncodingString | ExpectedVersionString | ExpectedModuleType
    | ExpectedQueryBody | ExpectedNCName | ExpectedQName | ExpectedUriString | ExpectedOptionString
    | ExpectedPrologBody | ExpectedExpression | ExpectedVariableValue
    | Expected(token: Token)
    | ExpectedKeyword(keywords: seq<KeywordKind>)
    | ExpectedEnclosedExpressionOrKeyword(keyword: KeywordKind)
      /** A sequence type was expected: a QName or one of `comment`, `empty-sequence`, `item`, `node`, `text`. */
    | ExpectedSequenceType

  /** The message-bundle key of a message. */
  function Key(m: Message): string {
    match m
    case IncompleteComment => "parser.error.incomplete-comment"
    case EndOfCommentWithoutStart => "parser.error.end-of-comment-without-start"
    case MisplacedEntity => "parser.error.misplaced-entity"
    case IncompleteEntity => "parser.error.incomplete-entity"
    case EmptyEntity => "parser.error.empty-entity"
    case IncompleteString => "parser.error.incomplete-string"
    case ExpectedNCNameNotQName => "parser.error.expected-ncname-not-qname"
    case WhitespaceBeforeLocalPart => "parser.error.qname.whitespace-before-local-part"
    case WhitespaceAfterLocalPart => "parser.error.qname.whitespace-after-local-part"
    case MissingLocalName => "parser.error.qname.missing-local-name"
    case MissingPrefix => "parser.error.qname.missing-prefix"
    case VersionDecl30 => "parser.error.version-decl.3.0"
    case ExpectedEncodingString => "parser.error.expected-encoding-string"
    case ExpectedVersionString => "parser.error.expected-version-string"
    case ExpectedModuleType => "parser.error.expected-module-type"
    case ExpectedQueryBody => "parser.error.expected-query-body"
    case ExpectedNCName => "parser.error.expected-ncname"
    case ExpectedQName => "parser.error.expected-qname"
    case ExpectedUriString => "parser.error.expected-uri-string"
    case ExpectedOptionString => "parser.error.expected-option-string"
    case ExpectedPrologBody => "parser.error.expected-prolog-body"
    case ExpectedExpression => "parser.error.expected-expression"
    case ExpectedVariableValue => "parser.error.expected-variable-value"
    case Expected(_) => "parser.error.expected"
    case ExpectedKeyword(_) => "parser.error.expected-keyword"
    case ExpectedEnclosedExpressionOrKeyword(_) => "parser.error.expected-enclosed-expression-or-keyword"
    case ExpectedSequenceType => "parser.error.expected-qname-or-keyword"
  }

  /** The markers the XQuery parser appends. */
  type NodeMarker = Marker<Node, Message>

  /** The messages white space and comment skipping can report. */
  const TriviaMessages: set<Message> := {IncompleteComment, EndOfCommentWithoutStart, MisplacedEntity}

  /** The messages a string literal can report. */
  const StringLiteralMessages: set<Message> := {IncompleteEntity, EmptyEntity, IncompleteString}

  /** The messages a QName can report, including those of the trivia inside it. */
  const QNameMessages: set<Message> :=
    TriviaMessages + {ExpectedNCNameNotQName, WhitespaceBeforeLocalPart, WhitespaceAfterLocalPart, MissingLocalName, MissingPrefix}

  /** What a parse rule returns, where it stops, and the markers it appends. */
  datatype Outcome<R> = Outcome(result: R, end: nat, nodes: seq<NodeMarker>)

  /** The outcome stays within the tokens from `p`. */
  predicate Within<R>(ts: seq<Token>, p: nat, o: Outcome<R>) {
    p <= o.end <= |ts|
  }

  /** The markers build nothing: every one of them was dropped. */
  predicate Invisible(nodes: seq<NodeMarker>) {
    forall k :: 0 <= k < |nodes| ==> nodes[k].state == Dropped
  }

  /** The messages of the error nodes among the markers. */
  function Messages(nodes: seq<NodeMarker>): set<Message> {
    if nodes == [] then {}
    else (if nodes[0].state.Failed? then {nodes[0].state.message} else {}) + Messages(nodes[1..])
  }

  /** One outcome followed by another, returning the second one's value. */
  function Then<R, S>(a: Outcome<R>, b: Outcome<S>): Outcome<S> {
    Outcome(b.result, b.end, a.nodes + b.nodes)
  }

  /** The builder's cursor and markers after a parse rule with outcome `o` returned `r`. */
  ghost predicate Reached<R>(o: Outcome<R>, r: R, pos: nat, markers: seq<NodeMarker>, markers0: seq<NodeMarker>) {
    r == o.result && pos == o.end && markers == markers0 + o.nodes
  }

  /** A loop that has produced `done` and still has `o` to go ends with `goal`. */
  ghost predicate Resumes<R>(goal: Outcome<R>, o: Outcome<R>, done: seq<NodeMarker>) {
    goal == Outcome(o.result, o.end, done + o.nodes)
  }

  lemma ResumeStart<R>(goal: Outcome<R>)
    ensures Resumes(goal, goal, [])
  {
    assert [] + goal.nodes == goal.nodes;
  }

  lemma ResumeStep<R>(goal: Outcome<R>, o: Outcome<R>, done: seq<NodeMarker>, step: seq<NodeMarker>, o2: Outcome<R>)
    requires Resumes(goal, o, done) && o == Outcome(o2.result, o2.end, step + o2.nodes)
    ensures Resumes(goal, o2, done + step)
  {
    assert done + (step + o2.nodes) == (done + step) + o2.nodes;
  }

  lemma ResumeEnd<R>(goal: Outcome<R>, o: Outcome<R>, done: seq<NodeMarker>)
    requires Resumes(goal, o, done) && o.nodes == []
    ensures goal == Outcome(o.result, o.end, done)
  {
    assert done + [] == done;
  }

  function Kind(ts: seq<Token>, p: nat): Option<Token> {
    if p < |ts| then Some(ts[p]) else None
  }

  /** The cursor after `advanceLexer`. */
  function Advance(ts: seq<Token>, p: nat): nat {
    if p < |ts| then p + 1 else p
  }

  /** An NCName token, or a keyword, which is an NCName too. */
  predicate IsName(t: Option<Token>) {
    t.Some? && (t.value.NCName? || t.value.Keyword?)
  }

  /** `matchTokenType`: the token `t`, consumed. */
  function Match(t: Token, ts: seq<Token>, p: nat): (r: Outcome<bool>)
    requires p <= |ts|
    ensures Within(ts, p, r)
  {
    if Kind(ts, p) == Some(t) then Outcome(true, p + 1, []) else Outcome(false, p, [])
  }

  /** `matchTokenType(a) || matchTokenType(b)`. */
  function MatchEither(a: Token, b: Token, ts: seq<Token>, p: nat): (r: Outcome<bool>)
    requires p <= |ts|
    ensures Within(ts, p, r)
  {
    if Kind(ts, p) == Some(a) || Kind(ts, p) == Some(b) then Outcome(true, p + 1, []) else Outcome(false, p, [])
  }

  /**
   * A part a declaration requires: when the part `x` is missing and no
   * earlier error of the declaration was reported (`haveErrors`), an
   * error is reported where the part was expected. The result is the
   * new `haveErrors`.
   */
  function Required(haveErrors: bool, x: Outcome<bool>, message: Message): (r: Outcome<bool>)
  {
    var error := if !x.result && !haveErrors then [Marker(x.end, Failed(x.end, message))] else [];
    Outcome(haveErrors || !x.result, x.end, x.nodes + error)
  }

  /**
   * The rules below, named so that a rule can be referred to as a value:
   * `Syntax(r, ts, p)` is the outcome of the rule `r` from the token `p`.
   */
  datatype SyntaxRule =
    | TriviaRule
    | StringContentsRule
    | StringLiteralRule(kind: Node)
    | LocalPartRule
    | AfterPrefixRule(kind: Node)
    | QNameRule(kind: Node)

  /** How many rules a rule may call before the cursor must have moved on. */
  function SyntaxRank(r: SyntaxRule): nat {
    match r
    case TriviaRule => 0
    case StringContentsRule => 0
    case StringLiteralRule(_) => 0
    case LocalPartRule => 2
    case AfterPrefixRule(_) => 4
    case QNameRule(_) => 6
  }

  /** The outcome of the rule `r` from the token `p`; every rule but the local part consumes a token when it succeeds. */
  function Syntax(r: SyntaxRule, ts: seq<Token>, p: nat): (o: Outcome<bool>)
    requires p <= |ts|
    ensures Within(ts, p, o) && (o.result && r != LocalPartRule ==> p < o.end)
    decreases |ts| - p, SyntaxRank(r) + 1
  {
    match r
    case TriviaRule => Trivia(ts, p)
    case StringContentsRule => StringLiteralFrom(ts, p)
    case StringLiteralRule(kind) => StringLiteral(kind, ts, p)
    case LocalPartRule => LocalPart(ts, p)
    case AfterPrefixRule(kind) => AfterPrefix(kind, ts, p)
    case QNameRule(kind) => QName(kind, ts, p)
  }

  /** One pass of `skipWhiteSpaceAndCommentTokens`. */
  function TriviaItem(ts: seq<Token>, p: nat): (r: Outcome<bool>)
    requires p <= |ts|
    ensures Within(ts, p, r)
    ensures r.result <==> Kind(ts, p) in {Some(WhiteSpace), Some(CommentStartTag), Some(CommentEndTag), Some(EntityReferenceNotInString)}
    ensures r.result ==> p < r.end
    ensures !r.result ==> r.end == p && r.nodes == []
  {
    var t := Kind(ts, p);
    if t == Some(WhiteSpace) then Outcome(true, p + 1, [])
    else if t == Some(CommentStartTag) then
      if Kind(ts, p + 1) == Some(CommentEndTag) then
        Outcome(true, p + 2, [Marker(p, Completed(p + 2, CommentNode))])
      else
        var e := Advance(ts, p + 1);
        Outcome(true, e, [Marker(p, Completed(e, CommentNode)), Marker(e, Failed(e, IncompleteComment))])
    else if t == Some(CommentEndTag) then Outcome(true, p + 1, [Marker(p, Failed(p + 1, EndOfCommentWithoutStart))])
    else if t == Some(EntityReferenceNotInString) then Outcome(true, p + 1, [Marker(p, Failed(p + 1, MisplacedEntity))])
    else Outcome(false, p, [])
  }

  /**
   * `skipWhiteSpaceAndCommentTokens`: white space, comments, stray `:)`
   * and misplaced entity references, as long as there are any; the
   * result says whether anything was skipped.
   */
  function Trivia(ts: seq<Token>, p: nat): (r: Outcome<bool>)
    requires p <= |ts|
    ensures Within(ts, p, r)
    ensures r.result <==> p < r.end
    ensures !r.result ==> r.nodes == []
    decreases |ts| - p, 0
  {
    var t := TriviaItem(ts, p);
    if !t.result then Outcome(false, p, [])
    else
      var rest := Syntax(TriviaRule, ts, t.end);
      Outcome(true, rest.end, t.nodes + rest.nodes)
  }

  /** Tokens that continue a string literal without an error. */
  predicate IsStringPart(t: Option<Token>) {
    t in {Some(StringLiteralContents), Some(PredefinedEntityReference), Some(CharacterReference), Some(EscapedCharacter)}
  }

  /** The error node a token inside a string literal adds: an incomplete or an empty entity reference. */
  function StringPartNodes(ts: seq<Token>, q: nat): seq<NodeMarker> {
    if Kind(ts, q) == Some(PartialEntityReference) then [Marker(q + 1, Failed(q + 1, IncompleteEntity))]
    else if Kind(ts, q) == Some(EmptyEntityReference) then [Marker(q, Failed(q + 1, EmptyEntity))]
    else []
  }

  /**
   * The loop of `parseStringLiteral` from token `q`: the result says
   * whether the closing delimiter was found; the end is where the
   * literal node ends.
   */
  function StringLiteralFrom(ts: seq<Token>, q: nat): (r: Outcome<bool>)
    requires q <= |ts|
    ensures Within(ts, q, r)
    ensures r.result ==> q < r.end
    decreases |ts| - q, 0
  {
    var t := Kind(ts, q);
    if IsStringPart(t) then Syntax(StringContentsRule, ts, q + 1)
    else if t == Some(StringLiteralEnd) then Outcome(true, q + 1, [])
    else if t == Some(PartialEntityReference) then
      var rest := Syntax(StringContentsRule, ts, q + 1);
      Outcome(rest.result, rest.end, [Marker(q + 1, Failed(q + 1, IncompleteEntity))] + rest.nodes)
    else if t == Some(EmptyEntityReference) then
      var rest := Syntax(StringContentsRule, ts, q + 1);
      Outcome(rest.result, rest.end, [Marker(q, Failed(q + 1, EmptyEntity))] + rest.nodes)
    else
      Outcome(false, q, [Marker(q, Failed(q, IncompleteString))])
  }

  /**
   * `parseStringLiteral`: a literal node of the given kind, from the
   * start delimiter to the end delimiter, or to the first token that
   * cannot be part of a literal.
   */
  function StringLiteral(kind: Node, ts: seq<Token>, p: nat): (r: Outcome<bool>)
    requires p <= |ts|
    ensures Within(ts, p, r)
    ensures r.result <==> Kind(ts, p) == Some(StringLiteralStart)
    ensures r.result ==> p < r.end
    ensures !r.result ==> r.end == p && r.nodes == []
    decreases |ts| - p, 0
  {
    if Kind(ts, p) == Some(StringLiteralStart) then
      var body := Syntax(StringContentsRule, ts, p + 1);
      Outcome(true, body.end, [Marker(p, Completed(body.end, kind))] + body.nodes)
    else
      Outcome(false, p, [])
  }

  /** The element type of a QName with a prefix, asked for as `kind`. */
  function PrefixedKind(kind: Node): Node {
    if kind == NCNameNode then QNameNode else kind
  }

  /** The element type of a QName without a prefix, asked for as `kind`. */
  function UnprefixedKind(kind: Node): Node {
    if kind == QNameNode then NCNameNode else kind
  }

  /**
   * The local part of `parseQName`, from the token `q` after the `:`:
   * white space there is an error, and a missing local name is reported,
   * consuming the token in its place unless it starts a string literal.
   */
  function LocalPart(ts: seq<Token>, q: nat): (r: Outcome<bool>)
    requires q <= |ts|
    ensures Within(ts, q, r) && r.result
    decreases |ts| - q, 2
  {
    var after := Syntax(TriviaRule, ts, q);
    var s := after.end;
    var afterMarker := Marker(q, if after.result then Failed(s, WhitespaceAfterLocalPart) else Dropped);
    if Kind(ts, s) == Some(StringLiteralStart) then
      Outcome(true, s, [afterMarker] + after.nodes + [Marker(s, Failed(s, MissingLocalName))])
    else if IsName(Kind(ts, s)) then
      Outcome(true, s + 1, [afterMarker] + after.nodes)
    else
      var e := Advance(ts, s);
      Outcome(true, e, [afterMarker] + after.nodes + [Marker(s, Failed(e, MissingLocalName))])
  }

  /** `parseQName` from the token `q` after a name: the white space, then an optional `:` and local part. */
  function AfterPrefix(kind: Node, ts: seq<Token>, q: nat): (r: Outcome<bool>)
    requires q <= |ts|
    ensures Within(ts, q, r)
    ensures r.result ==> q < r.end
    decreases |ts| - q, 4
  {
    var before := Syntax(TriviaRule, ts, q);
    var c := before.end;
    var separator := Kind(ts, c) == Some(QNameSeparator);
    var beforeMarker := Marker(q, if before.result && separator then Failed(c, WhitespaceBeforeLocalPart) else Dropped);
    if separator then
      var colon := if kind == NCNameNode then [Marker(c, Failed(c + 1, ExpectedNCNameNotQName))] else [];
      var local := Syntax(LocalPartRule, ts, c + 1);
      Outcome(true, local.end, [beforeMarker] + before.nodes + colon + local.nodes)
    else
      Outcome(false, c, [beforeMarker] + before.nodes)
  }

  /**
   * `parseQName`: a name, optionally followed by `:` and a local name,
   * or a `:` with no prefix. With no name and no `:` nothing is parsed.
   */
  function QName(kind: Node, ts: seq<Token>, p: nat): (r: Outcome<bool>)
    requires p <= |ts|
    ensures Within(ts, p, r)
    ensures r.result <==> IsName(Kind(ts, p)) || Kind(ts, p) == Some(QNameSeparator)
    ensures r.result ==> p < r.end
    ensures !r.result ==> r.end == p && r.nodes == [Marker(p, Dropped)]
    decreases |ts| - p, 6
  {
    if IsName(Kind(ts, p)) then
      var rest := Syntax(AfterPrefixRule(kind), ts, p + 1);
      var k := if rest.result then PrefixedKind(kind) else UnprefixedKind(kind);
      Outcome(true, rest.end, [Marker(p, Completed(rest.end, k))] + rest.nodes)
    else if Kind(ts, p) == Some(QNameSeparator) then
      var t := Syntax(TriviaRule, ts, p + 1);
      var e := if IsName(Kind(ts, t.end)) then t.end + 1 else t.end;
      Outcome(true, e, [Marker(p, Failed(e, if kind == NCNameNode then ExpectedNCNameNotQName else MissingPrefix))] + t.nodes)
    else
      Outcome(false, p, [Marker(p, Dropped)])
  }

  // The paths through the rules, one lemma per branch, in terms of the rules they call.

  /** A skipped item followed by the rest of the trivia. */
  lemma TriviaStep(ts: seq<Token>, p: nat)
    requires p <= |ts| && TriviaItem(ts, p).result
    ensures var t := TriviaItem(ts, p); var rest := Syntax(TriviaRule, ts, t.end);
      Syntax(TriviaRule, ts, p) == Outcome(true, rest.end, t.nodes + rest.nodes)
  {
  }

  /** One step of the loop of `parseStringLiteral`, on the token `q`. */
  lemma StringLiteralStep(ts: seq<Token>, q: nat)
    requires q <= |ts|
    ensures IsStringPart(Kind(ts, q)) || Kind(ts, q) in {Some(PartialEntityReference), Some(EmptyEntityReference)} ==>
      var rest := Syntax(StringContentsRule, ts, q + 1);
      Syntax(StringContentsRule, ts, q) == Outcome(rest.result, rest.end, StringPartNodes(ts, q) + rest.nodes)
    ensures Kind(ts, q) == Some(StringLiteralEnd) ==> Syntax(StringContentsRule, ts, q) == Outcome(true, q + 1, [])
    ensures !IsStringPart(Kind(ts, q)) && Kind(ts, q) !in {Some(StringLiteralEnd), Some(PartialEntityReference), Some(EmptyEntityReference)} ==>
      Syntax(StringContentsRule, ts, q) == Outcome(false, q, [Marker(q, Failed(q, IncompleteString))])
  {
    if IsStringPart(Kind(ts, q)) {
      assert [] + Syntax(StringContentsRule, ts, q + 1).nodes == Syntax(StringContentsRule, ts, q + 1).nodes;
    }
  }

  /** A string literal that starts at `p`. */
  lemma StringLiteralStarts(kind: Node, ts: seq<Token>, p: nat)
    requires p < |ts| && ts[p] == StringLiteralStart
    ensures var body := Syntax(StringContentsRule, ts, p + 1);
      Syntax(StringLiteralRule(kind), ts, p) == Outcome(true, body.end, [Marker(p, Completed(body.end, kind))] + body.nodes)
  {
  }

  /** A QName that starts with a name. */
  lemma QNamePrefixed(kind: Node, ts: seq<Token>, p: nat)
    requires p < |ts| && IsName(Kind(ts, p))
    ensures var rest := Syntax(AfterPrefixRule(kind), ts, p + 1);
      Syntax(QNameRule(kind), ts, p) ==
        Outcome(true, rest.end, [Marker(p, Completed(rest.end, if rest.result then PrefixedKind(kind) else UnprefixedKind(kind)))] + rest.nodes)
  {
  }

  /** A QName that starts with a `:`. */
  lemma QNameMissingPrefix(kind: Node, ts: seq<Token>, p: nat)
    requires p < |ts| && ts[p] == QNameSeparator
    ensures var t := Syntax(TriviaRule, ts, p + 1);
      var e := if IsName(Kind(ts, t.end)) then t.end + 1 else t.end;
      Syntax(QNameRule(kind), ts, p) ==
        Outcome(true, e, [Marker(p, Failed(e, if kind == NCNameNode then ExpectedNCNameNotQName else MissingPrefix))] + t.nodes)
  {
  }

  /** A string literal does not start at `p`. */
  lemma StringLiteralAbsent(kind: Node, ts: seq<Token>, p: nat)
    requires p <= |ts| && Kind(ts, p) != Some(StringLiteralStart)
    ensures Syntax(StringLiteralRule(kind), ts, p) == Outcome(false, p, [])
  {
  }

  /** The local part after the `:` at `q - 1`. */
  lemma LocalPartStep(ts: seq<Token>, q: nat)
    requires q <= |ts|
    ensures var after := Syntax(TriviaRule, ts, q);
      var s := after.end;
      var head := [Marker(q, if after.result then Failed(s, WhitespaceAfterLocalPart) else Dropped)] + after.nodes;
      Syntax(LocalPartRule, ts, q) ==
        if Kind(ts, s) == Some(StringLiteralStart) then Outcome(true, s, head + [Marker(s, Failed(s, MissingLocalName))])
        else if IsName(Kind(ts, s)) then Outcome(true, s + 1, head)
        else Outcome(true, Advance(ts, s), head + [Marker(s, Failed(Advance(ts, s), MissingLocalName))])
  {
  }

  /** The white space after a QName prefix, then a `:` or not. */
  lemma AfterPrefixStep(kind: Node, ts: seq<Token>, q: nat)
    requires q <= |ts|
    ensures var before := Syntax(TriviaRule, ts, q);
      var c := before.end;
      var separator := Kind(ts, c) == Some(QNameSeparator);
      var head := [Marker(q, if before.result && separator then Failed(c, WhitespaceBeforeLocalPart) else Dropped)] + before.nodes;
      var colon := if kind == NCNameNode then [Marker(c, Failed(c + 1, ExpectedNCNameNotQName))] else [];
      Syntax(AfterPrefixRule(kind), ts, q) ==
        if separator then Outcome(true, Syntax(LocalPartRule, ts, c + 1).end, head + colon + Syntax(LocalPartRule, ts, c + 1).nodes)
        else Outcome(false, c, head)
  {
  }

  /** Neither a name nor a `:` at `p`. */
  lemma QNameAbsent(kind: Node, ts: seq<Token>, p: nat)
    requires p <= |ts| && !IsName(Kind(ts, p)) && Kind(ts, p) != Some(QNameSeparator)
    ensures Syntax(QNameRule(kind), ts, p) == Outcome(false, p, [Marker(p, Dropped)])
  {
  }
}
