/**
 * The XQuery grammar rules, from the module down to the prolog's
 * declarations, each specified as a function from the tokens and the
 * cursor to the rule's outcome.
 *
 * The expression grammar below `ExprSingle`, type declarations, sequence
 * types, direct comment constructors and CDATA sections are given as item
 * parsers: functions from the tokens and the cursor to the end of the
 * construct there, the cursor itself when there is none. A matched item
 * becomes one node.
 *
 * The rules are grouped, and each group is a datatype naming its rules
 * with a function giving the outcome of a named rule (`Basic`, `Head`,
 * `Setting`, `Signature`, `ImportPart`, `NodeOf`, `DeclaredOf`, `StateOf`,
 * `Top`); a rule calls the rules below it through these functions. A
 * rule that calls another at the same token has a higher rank, which is
 * what makes the recursion well founded.
 */
module XQueryRules {
  import opened Wrappers
  import opened TreeBuilder
  import opened XQuerySyntax

  type ItemParser = (seq<Token>, nat) -> nat

  /** The configured XQuery version and the rules the parser calls but this model does not spell out. */
  datatype Grammar = Grammar(
    version: XQueryVersion,
    exprSingle: ItemParser,
    typeDeclaration: ItemParser,
    sequenceType: ItemParser,
    dirCommentConstructor: ItemParser,
    cdataSection: ItemParser)

  /** An item parser stays between the cursor and the end of the tokens. */
  ghost predicate ValidItem(f: ItemParser) {
    forall ts: seq<Token>, p: nat :: p <= |ts| ==> p <= f(ts, p) <= |ts|
  }

  ghost predicate ValidGrammar(g: Grammar) {
    ValidItem(g.exprSingle) && ValidItem(g.typeDeclaration) && ValidItem(g.sequenceType) &&
    ValidItem(g.dirCommentConstructor) && ValidItem(g.cdataSection)
  }

  /** One construct of kind `kind`, found by the item parser `f`. */
  function Item(f: ItemParser, kind: Node, ts: seq<Token>, p: nat): (r: Outcome<bool>)
    requires ValidItem(f) && p <= |ts|
    ensures Within(ts, p, r)
    ensures r.result ==> p < r.end && r.nodes == [Marker(p, Completed(r.end, kind))]
    ensures !r.result ==> r.end == p && r.nodes == []
  {
    var e := f(ts, p);
    if e == p then Outcome(false, p, []) else Outcome(true, e, [Marker(p, Completed(e, kind))])
  }

  /** The keywords `parseDecl` expects after `declare`. */
  const DeclKeywords := [KBaseUri, KBoundarySpace, KConstruction, KCopyNamespaces, KDefault, KFunction, KNamespace, KOption, KOrdering, KVariable]

  /** The states of the prolog, and what a declaration or import tells the prolog. */
  datatype PrologDeclState = HeaderStatement | BodyStatement | UnknownStatement | NotMatched

  /** What a matched declaration does to the prolog, and the element type of its node. */
  datatype Declared = Declared(next: PrologDeclState, kind: Node)

  /** A part of a declaration that the parser tries to match. */
  datatype Part =
    | TokenPart(token: Token)
    | EitherPart(first: Token, second: Token)
    | QNamePart(kind: Node)
    | LiteralPart(kind: Node)
    | ExprSinglePart
    | TypeDeclarationPart
    | SequenceTypePart

  /** The part `part` at the token `q`. */
  function PartOf(part: Part, g: Grammar, ts: seq<Token>, q: nat): (r: Outcome<bool>)
    requires ValidGrammar(g) && q <= |ts|
    ensures Within(ts, q, r)
  {
    match part
    case TokenPart(t) => Match(t, ts, q)
    case EitherPart(a, b) => MatchEither(a, b, ts, q)
    case QNamePart(kind) => Syntax(QNameRule(kind), ts, q)
    case LiteralPart(kind) => Syntax(StringLiteralRule(kind), ts, q)
    case ExprSinglePart => Item(g.exprSingle, ExprSingleNode, ts, q)
    case TypeDeclarationPart => Item(g.typeDeclaration, TypeDeclarationNode, ts, q)
    case SequenceTypePart => Item(g.sequenceType, SequenceTypeNode, ts, q)
  }

  // The basic rules: required and optional parts, the keyword of a
  // header declaration, expressions, and location hints.

  datatype BasicRule =
    | RequireRule(haveErrors: bool, part: Part, message: Message)
    | OptionalRule(part: Part)
    | HeaderKeywordRule(state: PrologDeclState, keyword: KeywordKind)
    | ExprTailRule(haveErrors: bool)
    | ExprRule(kind: Node)
    | EnclosedExprRule
    | LocationHintsRule(haveErrors: bool)
    | AtClauseRule(haveErrors: bool)

  function BasicRank(r: BasicRule): nat {
    match r
    case LocationHintsRule(_) => 2
    case _ => 0
  }

  /** The outcome of the basic rule `r`; an expression consumes a token when it is found. */
  function Basic(r: BasicRule, g: Grammar, ts: seq<Token>, p: nat): (o: Outcome<bool>)
    requires ValidGrammar(g) && p <= |ts|
    ensures Within(ts, p, o) && (r.ExprRule? && o.result ==> p < o.end)
    decreases |ts| - p, BasicRank(r) + 1
  {
    match r
    case RequireRule(haveErrors, part, message) => Require(haveErrors, part, message, g, ts, p)
    case OptionalRule(part) => Optional(part, g, ts, p)
    case HeaderKeywordRule(state, k) => HeaderKeyword(state, k, ts, p)
    case ExprTailRule(haveErrors) => ExprTail(g, haveErrors, ts, p)
    case ExprRule(kind) => Expr(g, kind, ts, p)
    case EnclosedExprRule => EnclosedExpr(g, ts, p)
    case LocationHintsRule(haveErrors) => LocationHints(g, haveErrors, ts, p)
    case AtClauseRule(haveErrors) => AtClause(g, haveErrors, ts, p)
  }

  /**
   * `skipWhiteSpaceAndCommentTokens` and a part a declaration requires:
   * when the part is missing and no earlier error of the declaration was
   * reported (`haveErrors`), `message` is reported where the part was
   * expected. The result is the new `haveErrors`.
   */
  function Require(haveErrors: bool, part: Part, message: Message, g: Grammar, ts: seq<Token>, q: nat): (r: Outcome<bool>)
    requires ValidGrammar(g) && q <= |ts|
    ensures Within(ts, q, r)
    decreases |ts| - q, 0
  {
    var t := Syntax(TriviaRule, ts, q);
    var x := Required(haveErrors, PartOf(part, g, ts, t.end), message);
    Outcome(x.result, x.end, t.nodes + x.nodes)
  }

  /** `skipWhiteSpaceAndCommentTokens` and a part that may be missing; the result says whether it was found. */
  function Optional(part: Part, g: Grammar, ts: seq<Token>, q: nat): (r: Outcome<bool>)
    requires ValidGrammar(g) && q <= |ts|
    ensures Within(ts, q, r)
    decreases |ts| - q, 0
  {
    var t := Syntax(TriviaRule, ts, q);
    var x := PartOf(part, g, ts, t.end);
    Outcome(x.result, x.end, t.nodes + x.nodes)
  }

  /**
   * The keyword of a declaration allowed only in the prolog's header: a
   * marker over the keyword that is an error unless the state is HEADER,
   * and is dropped otherwise, or when the keyword is not there.
   */
  function HeaderKeyword(state: PrologDeclState, k: KeywordKind, ts: seq<Token>, p: nat): (r: Outcome<bool>)
    requires p <= |ts|
    ensures Within(ts, p, r)
    decreases |ts| - p, 0
  {
    if Kind(ts, p) == Some(Keyword(k)) then
      Outcome(true, p + 1, [Marker(p, if state == HeaderStatement then Dropped else Failed(p + 1, ExpectedPrologBody))])
    else
      Outcome(false, p, [Marker(p, Dropped)])
  }

  /** The `, ExprSingle` repetitions of `parseExpr` from `q`; the result is `haveErrors`. */
  function ExprTail(g: Grammar, haveErrors: bool, ts: seq<Token>, q: nat): (r: Outcome<bool>)
    requires ValidGrammar(g) && q <= |ts|
    ensures Within(ts, q, r)
    decreases |ts| - q, 0
  {
    if Kind(ts, q) != Some(Comma) then Outcome(haveErrors, q, [])
    else
      var e := Basic(RequireRule(haveErrors, ExprSinglePart, ExpectedExpression), g, ts, q + 1);
      var t := Syntax(TriviaRule, ts, e.end);
      var rest := Basic(ExprTailRule(e.result), g, ts, t.end);
      Outcome(rest.result, rest.end, e.nodes + t.nodes + rest.nodes)
  }

  /** `parseExpr`: one or more comma-separated expressions, as one node of kind `kind`. */
  function Expr(g: Grammar, kind: Node, ts: seq<Token>, p: nat): (r: Outcome<bool>)
    requires ValidGrammar(g) && p <= |ts|
    ensures Within(ts, p, r)
    ensures r.result ==> p < r.end
    decreases |ts| - p, 0
  {
    var first := Item(g.exprSingle, ExprSingleNode, ts, p);
    if !first.result then Outcome(false, p, [Marker(p, Dropped)])
    else
      var t := Syntax(TriviaRule, ts, first.end);
      var rest := Basic(ExprTailRule(false), g, ts, t.end);
      Outcome(true, rest.end, [Marker(p, Completed(rest.end, kind))] + first.nodes + t.nodes + rest.nodes)
  }

  /** `parseEnclosedExpr`: `{`, an expression and `}`, reporting only the first of the two missing. */
  function EnclosedExpr(g: Grammar, ts: seq<Token>, p: nat): (r: Outcome<bool>)
    requires ValidGrammar(g) && p <= |ts|
    ensures Within(ts, p, r)
    decreases |ts| - p, 0
  {
    if Kind(ts, p) != Some(BlockOpen) then Outcome(false, p, [Marker(p, Dropped)])
    else
      var t := Syntax(TriviaRule, ts, p + 1);
      var e := Required(false, Basic(ExprRule(ExprNode), g, ts, t.end), ExpectedExpression);
      var close := Basic(RequireRule(e.result, TokenPart(BlockClose), Expected(BlockClose)), g, ts, e.end);
      Outcome(true, close.end, [Marker(p, Completed(close.end, EnclosedExprNode))] + (t.nodes + e.nodes + close.nodes))
  }

  /** The location hints of an import after `at` or a `,`; the result is `haveErrors`. */
  function LocationHints(g: Grammar, haveErrors: bool, ts: seq<Token>, q: nat): (r: Outcome<bool>)
    requires ValidGrammar(g) && q <= |ts|
    ensures Within(ts, q, r)
    decreases |ts| - q, 2
  {
    var uri := Basic(RequireRule(haveErrors, LiteralPart(UriLiteralNode), ExpectedUriString), g, ts, q);
    var t := Syntax(TriviaRule, ts, uri.end);
    if Kind(ts, t.end) == Some(Comma) then
      var rest := Basic(LocationHintsRule(uri.result), g, ts, t.end + 1);
      Outcome(rest.result, rest.end, uri.nodes + t.nodes + rest.nodes)
    else
      Outcome(uri.result, t.end, uri.nodes + t.nodes)
  }

  /** An optional `at` clause; the result is `haveErrors`. */
  function AtClause(g: Grammar, haveErrors: bool, ts: seq<Token>, q: nat): (r: Outcome<bool>)
    requires ValidGrammar(g) && q <= |ts|
    ensures Within(ts, q, r)
    decreases |ts| - q, 0
  {
    if Kind(ts, q) == Some(Keyword(KAt)) then Basic(LocationHintsRule(haveErrors), g, ts, q + 1)
    else Outcome(haveErrors, q, [])
  }

  // The version and module declarations.

  /**
   * The end of a version or module declaration whose marker was opened
   * at `p`, after its `body`, whose result is `haveErrors`: the node is
   * completed whether or not the `;` is there; the missing `;` is
   * reported only when the body reported nothing, and a `:` typed in
   * its place is skipped.
   */
  function Terminated(kind: Node, p: nat, ts: seq<Token>, body: Outcome<bool>): (r: Outcome<bool>)
    requires p < body.end <= |ts|
    ensures Within(ts, p, r) && r.result && p < r.end
  {
    var s := body.end;
    if Kind(ts, s) == Some(Separator) then
      Outcome(true, s + 1, [Marker(p, Completed(s + 1, kind))] + body.nodes)
    else
      var error := if body.result then [] else [Marker(s, Failed(s, Expected(Separator)))];
      var e := if Kind(ts, s) == Some(QNameSeparator) then s + 1 else s;
      Outcome(true, e, [Marker(p, Completed(s, kind))] + body.nodes + error)
  }

  datatype HeadRule =
    | EncodingStringRule(haveErrors: bool)
    | VersionEncodingRule
    | VersionBodyRule
    | VersionDeclRule
    | ModuleDeclBodyRule
    | ModuleDeclRule

  function HeadRank(r: HeadRule): nat {
    match r
    case EncodingStringRule(_) => 2
    case VersionEncodingRule => 4
    case VersionBodyRule => 6
    case VersionDeclRule => 0
    case ModuleDeclBodyRule => 2
    case ModuleDeclRule => 0
  }

  /** The outcome of the rule `r` of the version and module declarations; a declaration found consumes a token. */
  function Head(r: HeadRule, g: Grammar, ts: seq<Token>, p: nat): (o: Outcome<bool>)
    requires ValidGrammar(g) && p <= |ts|
    ensures Within(ts, p, o) && ((r == VersionDeclRule || r == ModuleDeclRule) && o.result ==> p < o.end)
    decreases |ts| - p, HeadRank(r) + 1
  {
    match r
    case EncodingStringRule(haveErrors) => EncodingString(g, haveErrors, ts, p)
    case VersionEncodingRule => VersionEncoding(g, ts, p)
    case VersionBodyRule => VersionBody(g, ts, p)
    case VersionDeclRule => VersionDecl(g, ts, p)
    case ModuleDeclBodyRule => ModuleDeclBody(g, ts, p)
    case ModuleDeclRule => ModuleDecl(g, ts, p)
  }

  /** The string literal after `encoding`, and the trivia after it; the result is `haveErrors`. */
  function EncodingString(g: Grammar, haveErrors: bool, ts: seq<Token>, q: nat): (r: Outcome<bool>)
    requires ValidGrammar(g) && q <= |ts|
    ensures Within(ts, q, r)
    decreases |ts| - q, 2
  {
    var literal := Basic(RequireRule(haveErrors, LiteralPart(StringLiteralNode), ExpectedEncodingString), g, ts, q);
    var t := Syntax(TriviaRule, ts, literal.end);
    Outcome(literal.result, t.end, literal.nodes + t.nodes)
  }

  /** `version S (encoding S)?` after `xquery`; `version` is expected right at `q`. */
  function VersionEncoding(g: Grammar, ts: seq<Token>, q: nat): (r: Outcome<bool>)
    requires ValidGrammar(g) && q <= |ts|
    ensures Within(ts, q, r)
    decreases |ts| - q, 4
  {
    var version := Required(false, Match(Keyword(KVersion), ts, q), ExpectedKeyword([KVersion]));
    var literal := Basic(RequireRule(version.result, LiteralPart(StringLiteralNode), ExpectedVersionString), g, ts, version.end);
    var t := Syntax(TriviaRule, ts, literal.end);
    var encoding :=
      if Kind(ts, t.end) == Some(Keyword(KEncoding)) then Head(EncodingStringRule(literal.result), g, ts, t.end + 1)
      else Outcome(literal.result, t.end, []);
    Outcome(encoding.result, encoding.end, version.nodes + literal.nodes + t.nodes + encoding.nodes)
  }

  /**
   * The body of a version declaration: `encoding S`, which is an error
   * node over `encoding` unless the version is 3.0 or later, or else
   * `version S (encoding S)?`.
   */
  function VersionBody(g: Grammar, ts: seq<Token>, q: nat): (r: Outcome<bool>)
    requires ValidGrammar(g) && q <= |ts|
    ensures Within(ts, q, r)
    decreases |ts| - q, 6
  {
    if Kind(ts, q) == Some(Keyword(KEncoding)) then
      var s := Head(EncodingStringRule(false), g, ts, q + 1);
      Outcome(s.result, s.end, [Marker(q, if IsXQuery30OrLater(g.version) then Dropped else Failed(q + 1, VersionDecl30))] + s.nodes)
    else
      var rest := Head(VersionEncodingRule, g, ts, q);
      Outcome(rest.result, rest.end, [Marker(q, Dropped)] + rest.nodes)
  }

  /** `parseVersionDecl`. */
  function VersionDecl(g: Grammar, ts: seq<Token>, p: nat): (r: Outcome<bool>)
    requires ValidGrammar(g) && p <= |ts|
    ensures Within(ts, p, r) && (r.result ==> p < r.end)
    decreases |ts| - p, 0
  {
    if Kind(ts, p) != Some(Keyword(KXQuery)) then Outcome(false, p, [])
    else
      var t := Syntax(TriviaRule, ts, p + 1);
      var body := Head(VersionBodyRule, g, ts, t.end);
      Terminated(VersionDeclNode, p, ts, Outcome(body.result, body.end, t.nodes + body.nodes))
  }

  /** The part of `parseModuleDecl` after `module`; the result is `haveErrors`. */
  function ModuleDeclBody(g: Grammar, ts: seq<Token>, q: nat): (r: Outcome<bool>)
    requires ValidGrammar(g) && q <= |ts|
    ensures Within(ts, q, r)
    decreases |ts| - q, 2
  {
    var namespace := Basic(RequireRule(false, TokenPart(Keyword(KNamespace)), ExpectedKeyword([KNamespace])), g, ts, q);
    var prefix := Basic(RequireRule(namespace.result, QNamePart(NCNameNode), ExpectedNCName), g, ts, namespace.end);
    var equal := Basic(RequireRule(prefix.result, TokenPart(Equal), Expected(Equal)), g, ts, prefix.end);
    var uri := Basic(RequireRule(equal.result, LiteralPart(UriLiteralNode), ExpectedUriString), g, ts, equal.end);
    var t := Syntax(TriviaRule, ts, uri.end);
    Outcome(uri.result, t.end, namespace.nodes + prefix.nodes + equal.nodes + uri.nodes + t.nodes)
  }

  /** `parseModuleDecl`. */
  function ModuleDecl(g: Grammar, ts: seq<Token>, p: nat): (r: Outcome<bool>)
    requires ValidGrammar(g) && p <= |ts|
    ensures Within(ts, p, r) && (r.result ==> p < r.end)
    decreases |ts| - p, 0
  {
    if Kind(ts, p) != Some(Keyword(KModule)) then Outcome(false, p, [])
    else Terminated(ModuleDeclNode, p, ts, Head(ModuleDeclBodyRule, g, ts, p + 1))
  }

  // The setting declarations after `declare`.

  datatype SettingRule =
    | SettingDeclRule(state: PrologDeclState, keyword: KeywordKind, first: KeywordKind, second: KeywordKind)
    | BaseUriDeclRule(state: PrologDeclState)
    | CopyNamespacesDeclRule(state: PrologDeclState)
    | NamespaceDeclRule(state: PrologDeclState)
    | DefaultNamespaceDeclRule
    | EmptyOrderDeclRule
    | DefaultCollationDeclRule
    | OptionDeclRule
    | UnknownDeclRule

  function SettingRank(r: SettingRule): nat {
    match r
    case SettingDeclRule(_, _, _, _) => 2
    case BaseUriDeclRule(_) => 2
    case CopyNamespacesDeclRule(_) => 2
    case NamespaceDeclRule(_) => 2
    case _ => 0
  }

  /** The outcome of the setting declaration rule `r`. */
  function Setting(r: SettingRule, g: Grammar, ts: seq<Token>, p: nat): (o: Outcome<bool>)
    requires ValidGrammar(g) && p <= |ts|
    ensures Within(ts, p, o)
    decreases |ts| - p, SettingRank(r) + 1
  {
    match r
    case SettingDeclRule(state, k, a, b) => SettingDecl(state, k, a, b, g, ts, p)
    case BaseUriDeclRule(state) => BaseUriDecl(state, g, ts, p)
    case CopyNamespacesDeclRule(state) => CopyNamespacesDecl(state, g, ts, p)
    case NamespaceDeclRule(state) => NamespaceDecl(state, g, ts, p)
    case DefaultNamespaceDeclRule => DefaultNamespaceDecl(g, ts, p)
    case EmptyOrderDeclRule => EmptyOrderDecl(g, ts, p)
    case DefaultCollationDeclRule => DefaultCollationDecl(g, ts, p)
    case OptionDeclRule => OptionDecl(g, ts, p)
    case UnknownDeclRule => UnknownDecl(g, ts, p)
  }

  /**
   * `parseBoundarySpaceDecl`, `parseConstructionDecl` and
   * `parseOrderingModeDecl`: the header keyword `k` followed by one of
   * the keywords `a` or `b`.
   */
  function SettingDecl(state: PrologDeclState, k: KeywordKind, a: KeywordKind, b: KeywordKind, g: Grammar, ts: seq<Token>, p: nat): (r: Outcome<bool>)
    requires ValidGrammar(g) && p <= |ts|
    ensures Within(ts, p, r)
    decreases |ts| - p, 2
  {
    var h := Basic(HeaderKeywordRule(state, k), g, ts, p);
    if !h.result then h
    else
      var choice := Basic(RequireRule(false, EitherPart(Keyword(a), Keyword(b)), ExpectedKeyword([a, b])), g, ts, h.end);
      var t := Syntax(TriviaRule, ts, choice.end);
      Outcome(true, t.end, h.nodes + choice.nodes + t.nodes)
  }

  /** `parseBaseURIDecl`. */
  function BaseUriDecl(state: PrologDeclState, g: Grammar, ts: seq<Token>, p: nat): (r: Outcome<bool>)
    requires ValidGrammar(g) && p <= |ts|
    ensures Within(ts, p, r)
    decreases |ts| - p, 2
  {
    var h := Basic(HeaderKeywordRule(state, KBaseUri), g, ts, p);
    if !h.result then h
    else
      var uri := Basic(RequireRule(false, LiteralPart(UriLiteralNode), ExpectedUriString), g, ts, h.end);
      var t := Syntax(TriviaRule, ts, uri.end);
      Outcome(true, t.end, h.nodes + uri.nodes + t.nodes)
  }

  /** `parseCopyNamespacesDecl`. */
  function CopyNamespacesDecl(state: PrologDeclState, g: Grammar, ts: seq<Token>, p: nat): (r: Outcome<bool>)
    requires ValidGrammar(g) && p <= |ts|
    ensures Within(ts, p, r)
    decreases |ts| - p, 2
  {
    var h := Basic(HeaderKeywordRule(state, KCopyNamespaces), g, ts, p);
    if !h.result then h
    else
      var preserve := Basic(RequireRule(false, EitherPart(Keyword(KPreserve), Keyword(KNoPreserve)), ExpectedKeyword([KPreserve, KNoPreserve])), g, ts, h.end);
      var comma := Basic(RequireRule(preserve.result, TokenPart(Comma), Expected(Comma)), g, ts, preserve.end);
      var inherit := Basic(RequireRule(comma.result, EitherPart(Keyword(KInherit), Keyword(KNoInherit)), ExpectedKeyword([KInherit, KNoInherit])), g, ts, comma.end);
      var t := Syntax(TriviaRule, ts, inherit.end);
      Outcome(true, t.end, h.nodes + preserve.nodes + comma.nodes + inherit.nodes + t.nodes)
  }

  /** `parseNamespaceDecl`. */
  function NamespaceDecl(state: PrologDeclState, g: Grammar, ts: seq<Token>, p: nat): (r: Outcome<bool>)
    requires ValidGrammar(g) && p <= |ts|
    ensures Within(ts, p, r)
    decreases |ts| - p, 2
  {
    var h := Basic(HeaderKeywordRule(state, KNamespace), g, ts, p);
    if !h.result then h
    else
      var prefix := Basic(RequireRule(false, QNamePart(NCNameNode), ExpectedNCName), g, ts, h.end);
      var equal := Basic(RequireRule(prefix.result, TokenPart(Equal), Expected(Equal)), g, ts, prefix.end);
      var uri := Basic(RequireRule(equal.result, LiteralPart(UriLiteralNode), ExpectedUriString), g, ts, equal.end);
      var t := Syntax(TriviaRule, ts, uri.end);
      Outcome(true, t.end, h.nodes + prefix.nodes + equal.nodes + uri.nodes + t.nodes)
  }

  /** `parseDefaultNamespaceDecl`, after `default`. */
  function DefaultNamespaceDecl(g: Grammar, ts: seq<Token>, p: nat): (r: Outcome<bool>)
    requires ValidGrammar(g) && p <= |ts|
    ensures Within(ts, p, r)
    decreases |ts| - p, 0
  {
    if !MatchEither(Keyword(KElement), Keyword(KFunction), ts, p).result then Outcome(false, p, [])
    else
      var namespace := Basic(RequireRule(false, TokenPart(Keyword(KNamespace)), ExpectedKeyword([KNamespace])), g, ts, p + 1);
      var uri := Basic(RequireRule(namespace.result, LiteralPart(UriLiteralNode), ExpectedUriString), g, ts, namespace.end);
      var t := Syntax(TriviaRule, ts, uri.end);
      Outcome(true, t.end, namespace.nodes + uri.nodes + t.nodes)
  }

  /** `parseEmptyOrderDecl`, after `default`. */
  function EmptyOrderDecl(g: Grammar, ts: seq<Token>, p: nat): (r: Outcome<bool>)
    requires ValidGrammar(g) && p <= |ts|
    ensures Within(ts, p, r)
    decreases |ts| - p, 0
  {
    if Kind(ts, p) != Some(Keyword(KOrder)) then Outcome(false, p, [])
    else
      var empty := Basic(RequireRule(false, TokenPart(Keyword(KEmpty)), ExpectedKeyword([KEmpty])), g, ts, p + 1);
      var order := Basic(RequireRule(empty.result, EitherPart(Keyword(KGreatest), Keyword(KLeast)), ExpectedKeyword([KGreatest, KLeast])), g, ts, empty.end);
      var t := Syntax(TriviaRule, ts, order.end);
      Outcome(true, t.end, empty.nodes + order.nodes + t.nodes)
  }

  /** `parseDefaultCollationDecl`, after `default`. */
  function DefaultCollationDecl(g: Grammar, ts: seq<Token>, p: nat): (r: Outcome<bool>)
    requires ValidGrammar(g) && p <= |ts|
    ensures Within(ts, p, r)
    decreases |ts| - p, 0
  {
    if Kind(ts, p) != Some(Keyword(KCollation)) then Outcome(false, p, [])
    else
      var uri := Basic(RequireRule(false, LiteralPart(UriLiteralNode), ExpectedUriString), g, ts, p + 1);
      var t := Syntax(TriviaRule, ts, uri.end);
      Outcome(true, t.end, uri.nodes + t.nodes)
  }

  /** `parseOptionDecl`. */
  function OptionDecl(g: Grammar, ts: seq<Token>, p: nat): (r: Outcome<bool>)
    requires ValidGrammar(g) && p <= |ts|
    ensures Within(ts, p, r)
    decreases |ts| - p, 0
  {
    if Kind(ts, p) != Some(Keyword(KOption)) then Outcome(false, p, [])
    else
      var name := Basic(RequireRule(false, QNamePart(QNameNode), ExpectedQName), g, ts, p + 1);
      var value := Basic(RequireRule(name.result, LiteralPart(StringLiteralNode), ExpectedOptionString), g, ts, name.end);
      var t := Syntax(TriviaRule, ts, value.end);
      Outcome(true, t.end, name.nodes + value.nodes + t.nodes)
  }

  /** Tokens the recovery loop of `parseUnknownDecl` consumes one by one. */
  predicate IsRecoveryToken(t: Option<Token>) {
    t in {Some(Equal), Some(Comma), Some(VariableIndicator), Some(AssignEqual), Some(QNameSeparator),
          Some(ParenthesisOpen), Some(ParenthesisClose),
          Some(Keyword(KCollation)), Some(Keyword(KElement)), Some(Keyword(KEmpty)), Some(Keyword(KExternal)),
          Some(Keyword(KFunction)), Some(Keyword(KGreatest)), Some(Keyword(KInherit)), Some(Keyword(KLeast)),
          Some(Keyword(KNamespace)), Some(Keyword(KNoInherit)), Some(Keyword(KNoPreserve)), Some(Keyword(KOrder)),
          Some(Keyword(KOrdered)), Some(Keyword(KPreserve)), Some(Keyword(KStrip)), Some(Keyword(KUnordered))}
  }

  /** Whether the recovery loop of `parseUnknownDecl` goes on at `p`. */
  predicate Recovers(g: Grammar, ts: seq<Token>, p: nat)
    requires ValidGrammar(g) && p <= |ts|
  {
    TriviaItem(ts, p).result || Kind(ts, p) == Some(NCName) || Kind(ts, p) == Some(StringLiteralStart) ||
    IsRecoveryToken(Kind(ts, p)) || Item(g.exprSingle, ExprSingleNode, ts, p).result
  }

  /**
   * `parseUnknownDecl`: skips white space, names, string literals,
   * the tokens of the known declarations and expressions, and stops at
   * the first token it cannot skip.
   */
  function UnknownDecl(g: Grammar, ts: seq<Token>, p: nat): (r: Outcome<bool>)
    requires ValidGrammar(g) && p <= |ts|
    ensures Within(ts, p, r)
    decreases |ts| - p, 0
  {
    var t := Syntax(TriviaRule, ts, p);
    if t.result then Then(t, Setting(UnknownDeclRule, g, ts, t.end))
    else if Kind(ts, p) == Some(NCName) then Setting(UnknownDeclRule, g, ts, p + 1)
    else
      var s := Syntax(StringLiteralRule(StringLiteralNode), ts, p);
      if s.result then Then(s, Setting(UnknownDeclRule, g, ts, s.end))
      else if IsRecoveryToken(Kind(ts, p)) then Setting(UnknownDeclRule, g, ts, p + 1)
      else
        var x := Item(g.exprSingle, ExprSingleNode, ts, p);
        if x.result then Then(x, Setting(UnknownDeclRule, g, ts, x.end))
        else Outcome(true, p, [])
  }

  // Variable and function declarations.

  datatype SignatureRule =
    | VarValueRule(haveErrors: bool)
    | VarDeclRule
    | ParamRule
    | ParamsFromRule
    | ParamListRule
    | ReturnTypeRule
    | FunctionBodyRule(haveErrors: bool)
    | FunctionTailRule(haveErrors: bool)
    | FunctionSignatureRule(haveErrors: bool)

  function SignatureRank(r: SignatureRule): nat {
    match r
    case ParamRule => 2
    case ParamsFromRule => 4
    case ParamListRule => 6
    case FunctionBodyRule(_) => 2
    case FunctionTailRule(_) => 4
    case FunctionSignatureRule(_) => 8
    case _ => 0
  }

  /** The outcome of the rule `r` of variable and function declarations; a parameter found consumes a token. */
  function Signature(r: SignatureRule, g: Grammar, ts: seq<Token>, p: nat): (o: Outcome<bool>)
    requires ValidGrammar(g) && p <= |ts|
    ensures Within(ts, p, o) && (r == ParamRule && o.result ==> p < o.end)
    decreases |ts| - p, SignatureRank(r) + 1
  {
    match r
    case VarValueRule(haveErrors) => VarValue(g, haveErrors, ts, p)
    case VarDeclRule => VarDecl(g, ts, p)
    case ParamRule => Param(g, ts, p)
    case ParamsFromRule => ParamsFrom(g, ts, p)
    case ParamListRule => ParamList(g, ts, p)
    case ReturnTypeRule => ReturnType(g, ts, p)
    case FunctionBodyRule(haveErrors) => FunctionBody(g, haveErrors, ts, p)
    case FunctionTailRule(haveErrors) => FunctionTail(g, haveErrors, ts, p)
    case FunctionSignatureRule(haveErrors) => FunctionSignature(g, haveErrors, ts, p)
  }

  /**
   * The value of a variable declaration between the trivia around it:
   * `:= ExprSingle`, `external`, or else an error, after which an
   * expression is skipped.
   */
  function VarValue(g: Grammar, haveErrors: bool, ts: seq<Token>, q: nat): (r: Outcome<bool>)
    requires ValidGrammar(g) && q <= |ts|
    ensures Within(ts, q, r)
    decreases |ts| - q, 0
  {
    var t := Syntax(TriviaRule, ts, q);
    var s := t.end;
    var value :=
      if Kind(ts, s) == Some(AssignEqual) then
        var e := Basic(RequireRule(haveErrors, ExprSinglePart, ExpectedExpression), g, ts, s + 1);
        Outcome(true, e.end, e.nodes)
      else if Kind(ts, s) == Some(Keyword(KExternal)) then Outcome(true, s + 1, [])
      else
        var x := Item(g.exprSingle, ExprSingleNode, ts, s);
        Outcome(false, x.end, [Marker(s, Failed(s, ExpectedVariableValue))] + x.nodes);
    var t2 := Syntax(TriviaRule, ts, value.end);
    Outcome(value.result, t2.end, t.nodes + value.nodes + t2.nodes)
  }

  /** `parseVarDecl`. */
  function VarDecl(g: Grammar, ts: seq<Token>, p: nat): (r: Outcome<bool>)
    requires ValidGrammar(g) && p <= |ts|
    ensures Within(ts, p, r)
    decreases |ts| - p, 0
  {
    if Kind(ts, p) != Some(Keyword(KVariable)) then Outcome(false, p, [])
    else
      var dollar := Basic(RequireRule(false, TokenPart(VariableIndicator), Expected(VariableIndicator)), g, ts, p + 1);
      var name := Basic(RequireRule(dollar.result, QNamePart(QNameNode), ExpectedQName), g, ts, dollar.end);
      var ty := Basic(OptionalRule(TypeDeclarationPart), g, ts, name.end);
      var value := Signature(VarValueRule(name.result), g, ts, ty.end);
      Outcome(true, value.end, dollar.nodes + name.nodes + ty.nodes + value.nodes)
  }

  /** `parseParam`: `$` and a QName, or a QName with the `$` reported missing. */
  function Param(g: Grammar, ts: seq<Token>, p: nat): (r: Outcome<bool>)
    requires ValidGrammar(g) && p <= |ts|
    ensures Within(ts, p, r) && (r.result ==> p < r.end)
    decreases |ts| - p, 2
  {
    if Kind(ts, p) == Some(VariableIndicator) then
      var name := Basic(RequireRule(false, QNamePart(QNameNode), ExpectedQName), g, ts, p + 1);
      var ty := Basic(OptionalRule(TypeDeclarationPart), g, ts, name.end);
      Outcome(true, ty.end, [Marker(p, Completed(ty.end, ParamNode))] + name.nodes + ty.nodes)
    else if IsName(Kind(ts, p)) || Kind(ts, p) == Some(QNameSeparator) then
      var name := Syntax(QNameRule(QNameNode), ts, p);
      var ty := Basic(OptionalRule(TypeDeclarationPart), g, ts, name.end);
      Outcome(true, ty.end, [Marker(p, Completed(ty.end, ParamNode)), Marker(p, Failed(p, Expected(VariableIndicator)))] + name.nodes + ty.nodes)
    else
      Outcome(false, p, [Marker(p, Dropped)])
  }

  /**
   * The loop of `parseParamList` from `q`: true when the list ends after
   * a parameter with no comma, false when no parameter follows (the
   * start, or a comma), with the parameters parsed so far left in place.
   * A `$` where the comma should be is reported, and the list goes on.
   */
  function ParamsFrom(g: Grammar, ts: seq<Token>, q: nat): (r: Outcome<bool>)
    requires ValidGrammar(g) && q <= |ts|
    ensures Within(ts, q, r)
    decreases |ts| - q, 4
  {
    var param := Signature(ParamRule, g, ts, q);
    if !param.result then param
    else
      var t1 := Syntax(TriviaRule, ts, param.end);
      var s := t1.end;
      if Kind(ts, s) == Some(VariableIndicator) then
        var t2 := Syntax(TriviaRule, ts, s);
        var rest := Signature(ParamsFromRule, g, ts, t2.end);
        Outcome(rest.result, rest.end, param.nodes + t1.nodes + [Marker(s, Failed(s, Expected(Comma)))] + t2.nodes + rest.nodes)
      else if Kind(ts, s) == Some(Comma) then
        var t2 := Syntax(TriviaRule, ts, s + 1);
        var rest := Signature(ParamsFromRule, g, ts, t2.end);
        Outcome(rest.result, rest.end, param.nodes + t1.nodes + t2.nodes + rest.nodes)
      else
        Outcome(true, s, param.nodes + t1.nodes)
  }

  /** `parseParamList`: a PARAM_LIST node when the list ends properly, a dropped marker otherwise. */
  function ParamList(g: Grammar, ts: seq<Token>, p: nat): (r: Outcome<bool>)
    requires ValidGrammar(g) && p <= |ts|
    ensures Within(ts, p, r)
    decreases |ts| - p, 6
  {
    var body := Signature(ParamsFromRule, g, ts, p);
    Outcome(body.result, body.end, [Marker(p, if body.result then Completed(body.end, ParamListNode) else Dropped)] + body.nodes)
  }

  /**
   * `as SequenceType` after a function's parameters; a missing sequence
   * type after `as` is always reported.
   */
  function ReturnType(g: Grammar, ts: seq<Token>, q: nat): (r: Outcome<bool>)
    requires ValidGrammar(g) && q <= |ts|
    ensures Within(ts, q, r)
    ensures r.result <==> Kind(ts, q) == Some(Keyword(KAs))
    ensures r.result ==> |r.nodes| > 0
    ensures r.result ==> r.nodes[|r.nodes| - 1].state in {Completed(r.end, SequenceTypeNode), Failed(r.end, ExpectedSequenceType)}
    decreases |ts| - q, 0
  {
    if Kind(ts, q) == Some(Keyword(KAs)) then
      var st := Basic(RequireRule(false, SequenceTypePart, ExpectedSequenceType), g, ts, q + 1);
      Outcome(true, st.end, st.nodes)
    else
      Outcome(false, q, [])
  }

  /**
   * A function's body: `external`, or an enclosed expression; when both
   * are missing and nothing was reported before, the error is reported
   * and an expression and a `}` are skipped.
   */
  function FunctionBody(g: Grammar, haveErrors: bool, ts: seq<Token>, q: nat): (r: Outcome<bool>)
    requires ValidGrammar(g) && q <= |ts|
    ensures Within(ts, q, r)
    decreases |ts| - q, 2
  {
    if Kind(ts, q) == Some(Keyword(KExternal)) then Outcome(true, q + 1, [])
    else
      var enclosed := Basic(EnclosedExprRule, g, ts, q);
      if enclosed.result || haveErrors then enclosed
      else
        var e := enclosed.end;
        var x := Basic(ExprRule(ExprNode), g, ts, e);
        var t := Syntax(TriviaRule, ts, x.end);
        var close := Match(BlockClose, ts, t.end);
        Outcome(false, close.end, enclosed.nodes + [Marker(e, Failed(e, ExpectedEnclosedExpressionOrKeyword(KExternal)))] + x.nodes + t.nodes)
  }

  /** A function declaration after its `)`: the return type and the body, with the trivia around them. */
  function FunctionTail(g: Grammar, haveErrors: bool, ts: seq<Token>, q: nat): (r: Outcome<bool>)
    requires ValidGrammar(g) && q <= |ts|
    ensures Within(ts, q, r)
    decreases |ts| - q, 4
  {
    var t1 := Syntax(TriviaRule, ts, q);
    var returnType := Signature(ReturnTypeRule, g, ts, t1.end);
    var t2 := Syntax(TriviaRule, ts, returnType.end);
    var body := Signature(FunctionBodyRule(haveErrors), g, ts, t2.end);
    var t3 := Syntax(TriviaRule, ts, body.end);
    Outcome(true, t3.end, t1.nodes + returnType.nodes + t2.nodes + body.nodes + t3.nodes)
  }

  /** A function declaration from its `(`: the parameters and the `)`, then the rest. */
  function FunctionSignature(g: Grammar, haveErrors: bool, ts: seq<Token>, q: nat): (r: Outcome<bool>)
    requires ValidGrammar(g) && q <= |ts|
    ensures Within(ts, q, r)
    decreases |ts| - q, 8
  {
    var open := Required(haveErrors, Match(ParenthesisOpen, ts, q), Expected(ParenthesisOpen));
    var t := Syntax(TriviaRule, ts, open.end);
    var params := Signature(ParamListRule, g, ts, t.end);
    var close := Basic(RequireRule(open.result, TokenPart(ParenthesisClose), Expected(ParenthesisClose)), g, ts, params.end);
    var tail := Signature(FunctionTailRule(close.result), g, ts, close.end);
    Outcome(true, tail.end, open.nodes + t.nodes + params.nodes + close.nodes + tail.nodes)
  }

  // Declarations that decide the element type of their node.

  datatype NodeRule = FunctionDeclRule | DefaultDeclRule(state: PrologDeclState)

  function NodeRank(r: NodeRule): nat {
    match r
    case FunctionDeclRule => 0
    case DefaultDeclRule(_) => 2
  }

  /** The outcome of the rule `r`: the element type of the declaration's node, None when there is no declaration. */
  function NodeOf(r: NodeRule, g: Grammar, ts: seq<Token>, p: nat): (o: Outcome<Option<Node>>)
    requires ValidGrammar(g) && p <= |ts|
    ensures Within(ts, p, o)
    decreases |ts| - p, NodeRank(r) + 1
  {
    match r
    case FunctionDeclRule => FunctionDecl(g, ts, p)
    case DefaultDeclRule(state) => DefaultDecl(state, g, ts, p)
  }

  /**
   * `parseFunctionDecl`: the element type the declaration gets, or None
   * when there is no `function`. A string literal after the name is a
   * default namespace declaration missing its `default`, and the
   * declaration becomes unknown.
   */
  function FunctionDecl(g: Grammar, ts: seq<Token>, p: nat): (r: Outcome<Option<Node>>)
    requires ValidGrammar(g) && p <= |ts|
    ensures Within(ts, p, r)
    decreases |ts| - p, 0
  {
    if Kind(ts, p) != Some(Keyword(KFunction)) then Outcome(None, p, [])
    else
      var name := Basic(RequireRule(false, QNamePart(QNameNode), ExpectedQName), g, ts, p + 1);
      var t := Syntax(TriviaRule, ts, name.end);
      var q := t.end;
      if Kind(ts, q) == Some(StringLiteralStart) then
        var literal := Syntax(StringLiteralRule(StringLiteralNode), ts, q);
        var t2 := Syntax(TriviaRule, ts, literal.end);
        Outcome(Some(UnknownDeclNode), t2.end, name.nodes + t.nodes + [Marker(q, Failed(q, Expected(ParenthesisOpen)))] + literal.nodes + t2.nodes)
      else
        var signature := Signature(FunctionSignatureRule(name.result), g, ts, q);
        Outcome(Some(FunctionDeclNode), signature.end, name.nodes + t.nodes + signature.nodes)
  }

  /**
   * `parseDefaultDecl`: the element type the declaration gets, or None
   * when there is no `default`; an unknown default declaration is
   * reported and recovered from.
   */
  function DefaultDecl(state: PrologDeclState, g: Grammar, ts: seq<Token>, p: nat): (r: Outcome<Option<Node>>)
    requires ValidGrammar(g) && p <= |ts|
    ensures Within(ts, p, r)
    decreases |ts| - p, 2
  {
    var h := Basic(HeaderKeywordRule(state, KDefault), g, ts, p);
    if !h.result then Outcome(None, h.end, h.nodes)
    else
      var t := Syntax(TriviaRule, ts, h.end);
      var namespace := Setting(DefaultNamespaceDeclRule, g, ts, t.end);
      if namespace.result then Outcome(Some(DefaultNamespaceDeclNode), namespace.end, h.nodes + t.nodes + namespace.nodes)
      else
        var order := Setting(EmptyOrderDeclRule, g, ts, namespace.end);
        if order.result then Outcome(Some(EmptyOrderDeclNode), order.end, h.nodes + t.nodes + namespace.nodes + order.nodes)
        else
          var collation := Setting(DefaultCollationDeclRule, g, ts, order.end);
          var missed := h.nodes + t.nodes + namespace.nodes + order.nodes + collation.nodes;
          if collation.result then Outcome(Some(DefaultCollationDeclNode), collation.end, missed)
          else
            var q := collation.end;
            var unknown := Setting(UnknownDeclRule, g, ts, q);
            Outcome(Some(UnknownDeclNode), unknown.end, missed + [Marker(q, Failed(q, ExpectedKeyword([KCollation, KElement, KFunction, KOrder])))] + unknown.nodes)
  }

  // The declarations after `declare`, in the order `parseDecl` tries them.

  datatype DeclaredRule = LaterDeclRule(state: PrologDeclState) | DeclBodyRule(state: PrologDeclState)

  function DeclaredRank(r: DeclaredRule): nat {
    match r
    case LaterDeclRule(_) => 4
    case DeclBodyRule(_) => 6
  }

  /** The outcome of the rule `r`: what the declaration does to the prolog, and its element type. */
  function DeclaredOf(r: DeclaredRule, g: Grammar, ts: seq<Token>, p: nat): (o: Outcome<Declared>)
    requires ValidGrammar(g) && p <= |ts|
    ensures Within(ts, p, o)
    decreases |ts| - p, DeclaredRank(r) + 1
  {
    match r
    case LaterDeclRule(state) => LaterDecl(state, g, ts, p)
    case DeclBodyRule(state) => DeclBody(state, g, ts, p)
  }

  /** The declarations `parseDecl` tries after the first five, with the unknown declaration last. */
  function LaterDecl(state: PrologDeclState, g: Grammar, ts: seq<Token>, q: nat): (r: Outcome<Declared>)
    requires ValidGrammar(g) && q <= |ts|
    ensures Within(ts, q, r)
    decreases |ts| - q, 4
  {
    var functionDecl := NodeOf(FunctionDeclRule, g, ts, q);
    if functionDecl.result.Some? then Outcome(Declared(BodyStatement, functionDecl.result.value), functionDecl.end, functionDecl.nodes)
    else
      var namespace := Setting(NamespaceDeclRule(state), g, ts, functionDecl.end);
      if namespace.result then Outcome(Declared(HeaderStatement, NamespaceDeclNode), namespace.end, functionDecl.nodes + namespace.nodes)
      else
        var option := Setting(OptionDeclRule, g, ts, namespace.end);
        var missed := functionDecl.nodes + namespace.nodes + option.nodes;
        if option.result then Outcome(Declared(BodyStatement, OptionDeclNode), option.end, missed)
        else
          var ordering := Setting(SettingDeclRule(state, KOrdering, KOrdered, KUnordered), g, ts, option.end);
          if ordering.result then Outcome(Declared(HeaderStatement, OrderingModeDeclNode), ordering.end, missed + ordering.nodes)
          else
            var variable := Signature(VarDeclRule, g, ts, ordering.end);
            if variable.result then Outcome(Declared(BodyStatement, VarDeclNode), variable.end, missed + ordering.nodes + variable.nodes)
            else
              var s := variable.end;
              var unknown := Setting(UnknownDeclRule, g, ts, s);
              Outcome(Declared(UnknownStatement, UnknownDeclNode), unknown.end,
                missed + ordering.nodes + variable.nodes + [Marker(s, Failed(s, ExpectedKeyword(DeclKeywords)))] + unknown.nodes)
  }

  /** The declarations `parseDecl` tries after `declare`, in its order. */
  function DeclBody(state: PrologDeclState, g: Grammar, ts: seq<Token>, q: nat): (r: Outcome<Declared>)
    requires ValidGrammar(g) && q <= |ts|
    ensures Within(ts, q, r)
    decreases |ts| - q, 6
  {
    var baseUri := Setting(BaseUriDeclRule(state), g, ts, q);
    if baseUri.result then Outcome(Declared(HeaderStatement, BaseUriDeclNode), baseUri.end, baseUri.nodes)
    else
      var boundarySpace := Setting(SettingDeclRule(state, KBoundarySpace, KPreserve, KStrip), g, ts, baseUri.end);
      if boundarySpace.result then Outcome(Declared(HeaderStatement, BoundarySpaceDeclNode), boundarySpace.end, baseUri.nodes + boundarySpace.nodes)
      else
        var construction := Setting(SettingDeclRule(state, KConstruction, KPreserve, KStrip), g, ts, boundarySpace.end);
        var missed := baseUri.nodes + boundarySpace.nodes + construction.nodes;
        if construction.result then Outcome(Declared(HeaderStatement, ConstructionDeclNode), construction.end, missed)
        else
          var copyNamespaces := Setting(CopyNamespacesDeclRule(state), g, ts, construction.end);
          if copyNamespaces.result then Outcome(Declared(HeaderStatement, CopyNamespacesDeclNode), copyNamespaces.end, missed + copyNamespaces.nodes)
          else
            var default := NodeOf(DefaultDeclRule(state), g, ts, copyNamespaces.end);
            if default.result.Some? then
              Outcome(Declared(HeaderStatement, default.result.value), default.end, missed + copyNamespaces.nodes + default.nodes)
            else
              var later := DeclaredOf(LaterDeclRule(state), g, ts, default.end);
              Outcome(later.result, later.end, missed + copyNamespaces.nodes + default.nodes + later.nodes)
  }

  // Imports.

  datatype ImportPartRule = SchemaPrefixRule | SchemaImportRule | ModuleImportPrefixRule | ModuleImportRule

  /** The outcome of the import rule `r`. */
  function ImportPart(r: ImportPartRule, g: Grammar, ts: seq<Token>, p: nat): (o: Outcome<bool>)
    requires ValidGrammar(g) && p <= |ts|
    ensures Within(ts, p, o)
    decreases |ts| - p, 1
  {
    match r
    case SchemaPrefixRule => SchemaPrefix(g, ts, p)
    case SchemaImportRule => SchemaImport(g, ts, p)
    case ModuleImportPrefixRule => ModuleImportPrefix(g, ts, p)
    case ModuleImportRule => ModuleImport(g, ts, p)
  }

  /** `parseSchemaPrefix`; the result is `haveErrors`. */
  function SchemaPrefix(g: Grammar, ts: seq<Token>, p: nat): (r: Outcome<bool>)
    requires ValidGrammar(g) && p <= |ts|
    ensures Within(ts, p, r)
    decreases |ts| - p, 0
  {
    if Kind(ts, p) == Some(Keyword(KNamespace)) then
      var prefix := Basic(RequireRule(false, QNamePart(NCNameNode), ExpectedNCName), g, ts, p + 1);
      var equal := Basic(RequireRule(prefix.result, TokenPart(Equal), Expected(Equal)), g, ts, prefix.end);
      var t := Syntax(TriviaRule, ts, equal.end);
      Outcome(equal.result, t.end, [Marker(p, Completed(t.end, SchemaPrefixNode))] + prefix.nodes + equal.nodes + t.nodes)
    else if Kind(ts, p) == Some(Keyword(KDefault)) then
      var element := Basic(RequireRule(false, TokenPart(Keyword(KElement)), ExpectedKeyword([KElement])), g, ts, p + 1);
      var namespace := Basic(RequireRule(element.result, TokenPart(Keyword(KNamespace)), ExpectedKeyword([KNamespace])), g, ts, element.end);
      var t := Syntax(TriviaRule, ts, namespace.end);
      Outcome(namespace.result, t.end, [Marker(p, Completed(t.end, SchemaPrefixNode))] + element.nodes + namespace.nodes + t.nodes)
    else
      Outcome(false, p, [])
  }

  /**
   * `parseSchemaImport`, after `import`: a missing URI is reported even
   * after an error in the prefix.
   */
  function SchemaImport(g: Grammar, ts: seq<Token>, p: nat): (r: Outcome<bool>)
    requires ValidGrammar(g) && p <= |ts|
    ensures Within(ts, p, r)
    decreases |ts| - p, 0
  {
    if Kind(ts, p) != Some(Keyword(KSchema)) then Outcome(false, p, [])
    else
      var t1 := Syntax(TriviaRule, ts, p + 1);
      var prefix := ImportPart(SchemaPrefixRule, g, ts, t1.end);
      var uri := Required(false, Syntax(StringLiteralRule(UriLiteralNode), ts, prefix.end), ExpectedUriString);
      var t2 := Syntax(TriviaRule, ts, uri.end);
      var at := Basic(AtClauseRule(prefix.result || uri.result), g, ts, t2.end);
      Outcome(true, at.end, t1.nodes + prefix.nodes + uri.nodes + t2.nodes + at.nodes)
  }

  /** The `namespace NCName =` of a module import; the result is `haveErrors`. */
  function ModuleImportPrefix(g: Grammar, ts: seq<Token>, q: nat): (r: Outcome<bool>)
    requires ValidGrammar(g) && q <= |ts|
    ensures Within(ts, q, r)
    decreases |ts| - q, 0
  {
    if Kind(ts, q) != Some(Keyword(KNamespace)) then Outcome(false, q, [])
    else
      var prefix := Basic(RequireRule(false, QNamePart(NCNameNode), ExpectedNCName), g, ts, q + 1);
      var equal := Basic(RequireRule(prefix.result, TokenPart(Equal), Expected(Equal)), g, ts, prefix.end);
      var t := Syntax(TriviaRule, ts, equal.end);
      Outcome(equal.result, t.end, prefix.nodes + equal.nodes + t.nodes)
  }

  /** `parseModuleImport`, after `import`. */
  function ModuleImport(g: Grammar, ts: seq<Token>, p: nat): (r: Outcome<bool>)
    requires ValidGrammar(g) && p <= |ts|
    ensures Within(ts, p, r)
    decreases |ts| - p, 0
  {
    if Kind(ts, p) != Some(Keyword(KModule)) then Outcome(false, p, [])
    else
      var t1 := Syntax(TriviaRule, ts, p + 1);
      var prefix := ImportPart(ModuleImportPrefixRule, g, ts, t1.end);
      var uri := Required(prefix.result, Syntax(StringLiteralRule(UriLiteralNode), ts, prefix.end), ExpectedUriString);
      var t2 := Syntax(TriviaRule, ts, uri.end);
      var at := Basic(AtClauseRule(uri.result), g, ts, t2.end);
      Outcome(true, at.end, t1.nodes + prefix.nodes + uri.nodes + t2.nodes + at.nodes)
  }

  // The prolog.

  /** The state a declaration is parsed in: HEADER until something matched. */
  function Effective(state: PrologDeclState): (r: PrologDeclState)
    ensures r != NotMatched && (state != NotMatched ==> r == state)
  {
    if state == NotMatched then HeaderStatement else state
  }

  /**
   * The prolog state after a declaration or import that matched in
   * `state` and tells the prolog `next`: BODY once a BODY declaration
   * was seen, the state it was parsed in otherwise.
   */
  function Transition(state: PrologDeclState, next: PrologDeclState): (r: PrologDeclState)
    ensures r != NotMatched
    ensures next == BodyStatement ==> r == BodyStatement
    ensures next != BodyStatement ==> r == Effective(state)
  {
    if next == BodyStatement then BodyStatement else Effective(state)
  }

  datatype StateRule =
    | DeclRule(state: PrologDeclState)
    | ImportRule(state: PrologDeclState)
    | PrologDeclRule(state: PrologDeclState)
    | PrologFromRule(state: PrologDeclState)

  function StateRank(r: StateRule): nat {
    match r
    case DeclRule(_) => 0
    case ImportRule(_) => 2
    case PrologDeclRule(_) => 4
    case PrologFromRule(_) => 6
  }

  /**
   * The outcome of the prolog rule `r`, whose result is a prolog state:
   * a declaration or import that matched consumes a token, and the
   * prolog loop matches something whenever it starts in a state other
   * than NotMatched.
   */
  function StateOf(r: StateRule, g: Grammar, ts: seq<Token>, p: nat): (o: Outcome<PrologDeclState>)
    requires ValidGrammar(g) && p <= |ts|
    ensures Within(ts, p, o)
    ensures !r.PrologFromRule? && o.result != NotMatched ==> p < o.end
    ensures r.PrologFromRule? && r.state != NotMatched ==> o.result != NotMatched
    ensures r.PrologFromRule? && r.state == NotMatched && o.result != NotMatched ==> p < o.end
    decreases |ts| - p, StateRank(r) + 1
  {
    match r
    case DeclRule(state) => Decl(state, g, ts, p)
    case ImportRule(state) => Import(state, g, ts, p)
    case PrologDeclRule(state) => PrologDecl(state, g, ts, p)
    case PrologFromRule(state) => PrologFrom(state, g, ts, p)
  }

  /** `parseDecl`: `declare` and the declaration after it, as one node. */
  function Decl(state: PrologDeclState, g: Grammar, ts: seq<Token>, p: nat): (r: Outcome<PrologDeclState>)
    requires ValidGrammar(g) && p <= |ts|
    ensures Within(ts, p, r) && (r.result != NotMatched ==> p < r.end)
    decreases |ts| - p, 0
  {
    if Kind(ts, p) != Some(Keyword(KDeclare)) then Outcome(NotMatched, p, [])
    else
      var t := Syntax(TriviaRule, ts, p + 1);
      var body := DeclaredOf(DeclBodyRule(state), g, ts, t.end);
      Outcome(body.result.next, body.end, [Marker(p, Completed(body.end, body.result.kind))] + t.nodes + body.nodes)
  }

  /**
   * `parseImport`: a schema or module import. `import` is flagged
   * when the state is not HEADER; an import of neither kind is reported
   * and leaves the prolog state unknown.
   */
  function Import(state: PrologDeclState, g: Grammar, ts: seq<Token>, p: nat): (r: Outcome<PrologDeclState>)
    requires ValidGrammar(g) && p <= |ts|
    ensures Within(ts, p, r) && (r.result != NotMatched ==> p < r.end)
    decreases |ts| - p, 2
  {
    var keyword := Basic(HeaderKeywordRule(state, KImport), g, ts, p);
    if !keyword.result then Outcome(NotMatched, keyword.end, [Marker(p, Dropped)] + keyword.nodes)
    else
      var t := Syntax(TriviaRule, ts, keyword.end);
      var schema := ImportPart(SchemaImportRule, g, ts, t.end);
      var head := keyword.nodes + t.nodes + schema.nodes;
      if schema.result then
        Outcome(HeaderStatement, schema.end, [Marker(p, Completed(schema.end, SchemaImportNode))] + head)
      else
        var moduleImport := ImportPart(ModuleImportRule, g, ts, schema.end);
        var q := moduleImport.end;
        if moduleImport.result then
          Outcome(HeaderStatement, q, [Marker(p, Completed(q, ModuleImportNode))] + head + moduleImport.nodes)
        else
          Outcome(UnknownStatement, q, [Marker(p, Completed(q, ImportNode))] + head + moduleImport.nodes + [Marker(q, Failed(q, ExpectedKeyword([KSchema, KModule])))])
  }

  /** One declaration or import. */
  function PrologDecl(state: PrologDeclState, g: Grammar, ts: seq<Token>, p: nat): (r: Outcome<PrologDeclState>)
    requires ValidGrammar(g) && p <= |ts|
    ensures Within(ts, p, r) && (r.result != NotMatched ==> p < r.end)
    decreases |ts| - p, 4
  {
    var decl := StateOf(DeclRule(state), g, ts, p);
    if decl.result != NotMatched then decl else Then(decl, StateOf(ImportRule(state), g, ts, decl.end))
  }

  /** The `;` after a declaration: a missing one is reported, and a `:` typed in its place is skipped. */
  function PrologSeparator(ts: seq<Token>, q: nat): (r: Outcome<bool>)
    requires q <= |ts|
    ensures Within(ts, q, r)
    ensures r.result <==> Kind(ts, q) == Some(Separator)
  {
    if Kind(ts, q) == Some(Separator) then Outcome(true, q + 1, [])
    else
      var e := if Kind(ts, q) == Some(QNameSeparator) then q + 1 else q;
      Outcome(false, e, [Marker(q, Failed(q, Expected(Separator)))])
  }

  /** The loop of `parseProlog` from `q` in `state`; the result is the state it ends in. */
  function PrologFrom(state: PrologDeclState, g: Grammar, ts: seq<Token>, q: nat): (r: Outcome<PrologDeclState>)
    requires ValidGrammar(g) && q <= |ts|
    ensures Within(ts, q, r)
    ensures state != NotMatched ==> r.result != NotMatched
    ensures state == NotMatched && r.result != NotMatched ==> q < r.end
    decreases |ts| - q, 6
  {
    var decl := StateOf(PrologDeclRule(Effective(state)), g, ts, q);
    if decl.result == NotMatched then Outcome(state, decl.end, decl.nodes)
    else
      var separator := PrologSeparator(ts, decl.end);
      var t := Syntax(TriviaRule, ts, separator.end);
      var rest := StateOf(PrologFromRule(Transition(state, decl.result)), g, ts, t.end);
      Outcome(rest.result, rest.end, decl.nodes + separator.nodes + t.nodes + rest.nodes)
  }

  // Prologs, modules and the file.

  datatype TopRule = PrologRule | MainModuleRule | LibraryModuleRule | ModuleRule | ParseStepRule | ParseFromRule

  function TopRank(r: TopRule): nat {
    match r
    case PrologRule => 8
    case MainModuleRule => 10
    case LibraryModuleRule => 10
    case ModuleRule => 12
    case ParseStepRule => 14
    case ParseFromRule => 16
  }

  /**
   * The outcome of the rule `r`: what is found consumes a token, a pass
   * of the loop of `parse` before the end consumes a token, and the whole
   * file is parsed to its end.
   */
  function Top(r: TopRule, g: Grammar, ts: seq<Token>, p: nat): (o: Outcome<bool>)
    requires ValidGrammar(g) && p <= |ts|
    ensures Within(ts, p, o)
    ensures r != ParseFromRule && o.result ==> p < o.end
    ensures r == ParseStepRule && p < |ts| ==> p < o.end
    ensures r == ParseFromRule ==> o.end == |ts|
    decreases |ts| - p, TopRank(r) + 1
  {
    match r
    case PrologRule => Prolog(g, ts, p)
    case MainModuleRule => MainModule(g, ts, p)
    case LibraryModuleRule => LibraryModule(g, ts, p)
    case ModuleRule => Module(g, ts, p)
    case ParseStepRule => ParseStep(g, ts, p)
    case ParseFromRule => ParseFrom(g, ts, p)
  }

  /** `parseProlog`: a PROLOG node when a declaration or import matched. */
  function Prolog(g: Grammar, ts: seq<Token>, p: nat): (r: Outcome<bool>)
    requires ValidGrammar(g) && p <= |ts|
    ensures Within(ts, p, r) && (r.result ==> p < r.end)
    decreases |ts| - p, 8
  {
    var body := StateOf(PrologFromRule(NotMatched), g, ts, p);
    if body.result == NotMatched then Outcome(false, body.end, [Marker(p, Dropped)] + body.nodes)
    else Outcome(true, body.end, [Marker(p, Completed(body.end, PrologNode))] + body.nodes)
  }

  /** `parseMainModule`: a prolog followed by the query body, or a query body alone. */
  function MainModule(g: Grammar, ts: seq<Token>, p: nat): (r: Outcome<bool>)
    requires ValidGrammar(g) && p <= |ts|
    ensures Within(ts, p, r) && (r.result ==> p < r.end)
    decreases |ts| - p, 10
  {
    var prolog := Top(PrologRule, g, ts, p);
    if prolog.result then
      var t := Syntax(TriviaRule, ts, prolog.end);
      var body := Basic(ExprRule(QueryBodyNode), g, ts, t.end);
      var error := if body.result then [] else [Marker(body.end, Failed(body.end, ExpectedQueryBody))];
      Outcome(true, body.end, prolog.nodes + t.nodes + body.nodes + error)
    else
      Then(prolog, Basic(ExprRule(QueryBodyNode), g, ts, prolog.end))
  }

  /** `parseLibraryModule`: a module declaration followed by an optional prolog. */
  function LibraryModule(g: Grammar, ts: seq<Token>, p: nat): (r: Outcome<bool>)
    requires ValidGrammar(g) && p <= |ts|
    ensures Within(ts, p, r) && (r.result ==> p < r.end)
    decreases |ts| - p, 10
  {
    var decl := Head(ModuleDeclRule, g, ts, p);
    if !decl.result then decl
    else
      var t := Syntax(TriviaRule, ts, decl.end);
      var prolog := Top(PrologRule, g, ts, t.end);
      Outcome(true, prolog.end, decl.nodes + t.nodes + prolog.nodes)
  }

  /**
   * `parseModule`: an optional version declaration, then a library or
   * main module; a version declaration with neither is reported.
   */
  function Module(g: Grammar, ts: seq<Token>, p: nat): (r: Outcome<bool>)
    requires ValidGrammar(g) && p <= |ts|
    ensures Within(ts, p, r) && (r.result ==> p < r.end)
    decreases |ts| - p, 12
  {
    var version := Head(VersionDeclRule, g, ts, p);
    var t := if version.result then Syntax(TriviaRule, ts, version.end) else Outcome(false, version.end, []);
    var library := Top(LibraryModuleRule, g, ts, t.end);
    var head := version.nodes + t.nodes + library.nodes;
    if library.result then
      Outcome(true, library.end, [Marker(p, Completed(library.end, LibraryModuleNode))] + head)
    else
      var main := Top(MainModuleRule, g, ts, library.end);
      if main.result then
        Outcome(true, main.end, [Marker(p, Completed(main.end, MainModuleNode))] + head + main.nodes)
      else if version.result then
        Outcome(true, main.end, [Marker(p, Completed(main.end, ModuleNode))] + head + main.nodes + [Marker(main.end, Failed(main.end, ExpectedModuleType))])
      else
        Outcome(false, main.end, [Marker(p, Dropped)] + head + main.nodes)
  }

  /**
   * One pass of the loop of `parse` at `p`: white space and comments, a
   * module, a direct comment constructor or a CDATA section, or else one
   * token skipped; the result says whether a construct was found.
   */
  function ParseStep(g: Grammar, ts: seq<Token>, p: nat): (r: Outcome<bool>)
    requires ValidGrammar(g) && p <= |ts|
    ensures Within(ts, p, r) && (p < |ts| ==> p < r.end)
    decreases |ts| - p, 14
  {
    var t := Syntax(TriviaRule, ts, p);
    if t.result then t
    else
      var parsed := Top(ModuleRule, g, ts, t.end);
      if parsed.result then parsed
      else
        var comment := Item(g.dirCommentConstructor, DirCommentNode, ts, parsed.end);
        if comment.result then Then(parsed, comment)
        else
          var cdata := Item(g.cdataSection, CDataSectionNode, ts, comment.end);
          if cdata.result then Then(parsed, cdata)
          else Outcome(false, Advance(ts, cdata.end), parsed.nodes)
  }

  /** `parse`, from `p`: passes of its loop until the tokens run out. */
  function ParseFrom(g: Grammar, ts: seq<Token>, p: nat): (r: Outcome<bool>)
    requires ValidGrammar(g) && p <= |ts|
    ensures Within(ts, p, r) && r.end == |ts|
    decreases |ts| - p, 16
  {
    if p == |ts| then Outcome(true, p, [])
    else
      var step := Top(ParseStepRule, g, ts, p);
      Then(step, Top(ParseFromRule, g, ts, step.end))
  }

  // The paths through the rules, one lemma per branch, in terms of the rules they call.

  /** No expression at `p`. */
  lemma ExprAbsent(kind: Node, g: Grammar, ts: seq<Token>, p: nat)
    requires ValidGrammar(g) && p <= |ts| && !Item(g.exprSingle, ExprSingleNode, ts, p).result
    ensures Basic(ExprRule(kind), g, ts, p) == Outcome(false, p, [Marker(p, Dropped)])
  {
  }

  /** An expression at `p`. */
  lemma ExprFound(kind: Node, g: Grammar, ts: seq<Token>, p: nat)
    requires ValidGrammar(g) && p <= |ts| && Item(g.exprSingle, ExprSingleNode, ts, p).result
    ensures var x := Item(g.exprSingle, ExprSingleNode, ts, p);
      var t := Syntax(TriviaRule, ts, x.end);
      var tail := Basic(ExprTailRule(false), g, ts, t.end);
      Basic(ExprRule(kind), g, ts, p) == Outcome(true, tail.end, [Marker(p, Completed(tail.end, kind))] + x.nodes + t.nodes + tail.nodes)
  {
  }

  /** The loop of `parseExpr` ends at a token other than `,`. */
  lemma ExprTailStop(haveErrors: bool, g: Grammar, ts: seq<Token>, q: nat)
    requires ValidGrammar(g) && q <= |ts| && Kind(ts, q) != Some(Comma)
    ensures Basic(ExprTailRule(haveErrors), g, ts, q) == Outcome(haveErrors, q, [])
  {
  }

  /** One more pass of the loop of `parseExpr`, on the `,` at `q`. */
  lemma ExprTailComma(haveErrors: bool, g: Grammar, ts: seq<Token>, q: nat)
    requires ValidGrammar(g) && q < |ts| && ts[q] == Comma
    ensures var e := Basic(RequireRule(haveErrors, ExprSinglePart, ExpectedExpression), g, ts, q + 1);
      var t := Syntax(TriviaRule, ts, e.end);
      var rest := Basic(ExprTailRule(e.result), g, ts, t.end);
      Basic(ExprTailRule(haveErrors), g, ts, q) == Outcome(rest.result, rest.end, e.nodes + t.nodes + rest.nodes)
  {
  }
}
