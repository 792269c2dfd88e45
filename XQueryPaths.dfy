/**
 * The paths through the XQuery grammar rules, one lemma per branch:
 * each states the outcome of a rule on that branch in terms of the
 * outcomes of the rules it calls, which is what the parser's methods
 * follow step by step.
 */
module XQueryPaths {
  import opened Wrappers
  import opened TreeBuilder
  import opened XQuerySyntax
  import opened XQueryRules

  /** Markers appended in three or four steps are appended in one. */
  lemma Chained3(m0: seq<NodeMarker>, a: seq<NodeMarker>, b: seq<NodeMarker>, c: seq<NodeMarker>)
    ensures m0 + a + b + c == m0 + (a + b + c)
  {
  }

  lemma Chained4(m0: seq<NodeMarker>, a: seq<NodeMarker>, b: seq<NodeMarker>, c: seq<NodeMarker>, d: seq<NodeMarker>)
    ensures m0 + a + b + c + d == m0 + (a + b + c + d)
  {
  }

  // Enclosed expressions and location hints.

  /** No `{` at `p`. */
  lemma EnclosedExprAbsent(g: Grammar, ts: seq<Token>, p: nat)
    requires ValidGrammar(g) && p <= |ts| && Kind(ts, p) != Some(BlockOpen)
    ensures Basic(EnclosedExprRule, g, ts, p) == Outcome(false, p, [Marker(p, Dropped)])
  {
  }

  /** A `{` at `p`. */
  lemma EnclosedExprFound(g: Grammar, ts: seq<Token>, p: nat)
    requires ValidGrammar(g) && p < |ts| && ts[p] == BlockOpen
    ensures var t := Syntax(TriviaRule, ts, p + 1);
      var e := Required(false, Basic(ExprRule(ExprNode), g, ts, t.end), ExpectedExpression);
      var close := Basic(RequireRule(e.result, TokenPart(BlockClose), Expected(BlockClose)), g, ts, e.end);
      Basic(EnclosedExprRule, g, ts, p) == Outcome(true, close.end, [Marker(p, Completed(close.end, EnclosedExprNode))] + (t.nodes + e.nodes + close.nodes))
  {
  }

  /** One location hint from `q`, and a `,` after it or not. */
  lemma LocationHintsStep(haveErrors: bool, g: Grammar, ts: seq<Token>, q: nat)
    requires ValidGrammar(g) && q <= |ts|
    ensures var uri := Basic(RequireRule(haveErrors, LiteralPart(UriLiteralNode), ExpectedUriString), g, ts, q);
      var t := Syntax(TriviaRule, ts, uri.end);
      Basic(LocationHintsRule(haveErrors), g, ts, q) ==
        if Kind(ts, t.end) == Some(Comma) then
          var rest := Basic(LocationHintsRule(uri.result), g, ts, t.end + 1);
          Outcome(rest.result, rest.end, (uri.nodes + t.nodes) + rest.nodes)
        else Outcome(uri.result, t.end, (uri.nodes + t.nodes) + [])
  {
  }

  /** An `at` clause at `q`, or none. */
  lemma AtClauseStep(haveErrors: bool, g: Grammar, ts: seq<Token>, q: nat)
    requires ValidGrammar(g) && q <= |ts|
    ensures Basic(AtClauseRule(haveErrors), g, ts, q) ==
      if Kind(ts, q) == Some(Keyword(KAt)) then Basic(LocationHintsRule(haveErrors), g, ts, q + 1)
      else Outcome(haveErrors, q, [])
  {
  }
}
