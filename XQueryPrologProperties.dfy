/**
 * What the XQuery parser promises about the prolog: a PROLOG node only
 * when a declaration or import matched, the HEADER/BODY state machine
 * (BODY once reached is never left), what each kind of declaration tells
 * the prolog, and the recovery of unknown declarations.
 */
module XQueryPrologProperties {
  import opened Wrappers
  import opened TreeBuilder
  import opened XQuerySyntax
  import opened XQueryRules
  import opened XQueryProperties

  /** The element types of the declarations allowed only in the prolog's header. */
  const HeaderDeclNodes: set<Node> := {BaseUriDeclNode, BoundarySpaceDeclNode, ConstructionDeclNode,
    CopyNamespacesDeclNode, DefaultNamespaceDeclNode, EmptyOrderDeclNode, DefaultCollationDeclNode,
    NamespaceDeclNode, OrderingModeDeclNode}

  /** The element types of the declarations after which only the prolog's body may follow. */
  const BodyDeclNodes: set<Node> := {FunctionDeclNode, VarDeclNode, OptionDeclNode}

  /**
   * What `parseDecl` returns agrees with the node it built: a function,
   * variable or option declaration moves the prolog to BODY, a header
   * declaration keeps it in HEADER, and UNKNOWN comes only with an
   * unknown declaration.
   */
  predicate Agrees(d: Declared) {
    d.next != NotMatched &&
    (d.kind in BodyDeclNodes ==> d.next == BodyStatement) &&
    (d.kind in HeaderDeclNodes ==> d.next == HeaderStatement) &&
    (d.next == BodyStatement ==> d.kind in BodyDeclNodes + {UnknownDeclNode}) &&
    (d.next == HeaderStatement ==> d.kind in HeaderDeclNodes + {UnknownDeclNode}) &&
    (d.next == UnknownStatement ==> d.kind == UnknownDeclNode)
  }

  /** The declarations tried after the first five agree with the node they build. */
  lemma LaterDeclAgrees(state: PrologDeclState, g: Grammar, ts: seq<Token>, q: nat)
    requires ValidGrammar(g) && q <= |ts|
    ensures Agrees(DeclaredOf(LaterDeclRule(state), g, ts, q).result)
  {
    hide Setting, NodeOf, Signature;
    var f := NodeOf(FunctionDeclRule, g, ts, q);
    assert f.result == None || f.result == Some(FunctionDeclNode) || f.result == Some(UnknownDeclNode) by { BodyDeclsAt(g, ts, q); }
  }

  /** Every declaration after `declare` agrees with the node it builds. */
  lemma DeclBodyAgrees(state: PrologDeclState, g: Grammar, ts: seq<Token>, q: nat)
    requires ValidGrammar(g) && q <= |ts|
    ensures Agrees(DeclaredOf(DeclBodyRule(state), g, ts, q).result)
  {
    hide Setting, NodeOf;
    var baseUri := Setting(BaseUriDeclRule(state), g, ts, q);
    var boundarySpace := Setting(SettingDeclRule(state, KBoundarySpace, KPreserve, KStrip), g, ts, baseUri.end);
    var construction := Setting(SettingDeclRule(state, KConstruction, KPreserve, KStrip), g, ts, boundarySpace.end);
    var copyNamespaces := Setting(CopyNamespacesDeclRule(state), g, ts, construction.end);
    var default := NodeOf(DefaultDeclRule(state), g, ts, copyNamespaces.end);
    DefaultDeclKinds(state, g, ts, copyNamespaces.end);
    LaterDeclAgrees(state, g, ts, default.end);
  }

  /** The default declarations are header declarations, or unknown. */
  lemma DefaultDeclKinds(state: PrologDeclState, g: Grammar, ts: seq<Token>, q: nat)
    requires ValidGrammar(g) && q <= |ts|
    ensures var d := NodeOf(DefaultDeclRule(state), g, ts, q).result;
      d.Some? ==> Agrees(Declared(HeaderStatement, d.value))
  {
  }

  /**
   * `parseDecl`: after `declare` the declaration is one node from
   * `declare` to its end, and the state it returns agrees with its kind.
   */
  lemma DeclAgrees(state: PrologDeclState, g: Grammar, ts: seq<Token>, p: nat)
    requires ValidGrammar(g) && p <= |ts|
    ensures var r := StateOf(DeclRule(state), g, ts, p);
      (r.result == NotMatched <==> Kind(ts, p) != Some(Keyword(KDeclare))) &&
      (r.result == NotMatched ==> r.end == p && r.nodes == []) &&
      (r.result != NotMatched ==>
        |r.nodes| > 0 && r.nodes[0] == Marker(p, Completed(r.end, r.nodes[0].state.kind)) &&
        Agrees(Declared(r.result, r.nodes[0].state.kind)))
  {
    if Kind(ts, p) == Some(Keyword(KDeclare)) {
      var t := Syntax(TriviaRule, ts, p + 1);
      DeclBodyAgrees(state, g, ts, t.end);
    }
  }

  /**
   * `parseImport`: `import` is flagged "expected-prolog-body" exactly
   * when the state is not HEADER; the import is a schema import, a
   * module import, or an IMPORT node reported as neither, and leaves the
   * prolog in HEADER or, for the last, UNKNOWN.
   */
  lemma ImportFlagged(state: PrologDeclState, g: Grammar, ts: seq<Token>, p: nat)
    requires ValidGrammar(g) && p <= |ts|
    ensures var r := StateOf(ImportRule(state), g, ts, p);
      (r.result == NotMatched <==> Kind(ts, p) != Some(Keyword(KImport))) &&
      (r.result == NotMatched ==> r.end == p && Invisible(r.nodes)) &&
      (r.result != NotMatched ==>
        |r.nodes| > 1 && r.nodes[0] == Marker(p, Completed(r.end, r.nodes[0].state.kind)) &&
        r.nodes[1] == Marker(p, if state == HeaderStatement then Dropped else Failed(p + 1, ExpectedPrologBody)) &&
        (state != HeaderStatement ==> ExpectedPrologBody in Messages(r.nodes)) &&
        (r.nodes[0].state.kind in {SchemaImportNode, ModuleImportNode} ==> r.result == HeaderStatement) &&
        (r.nodes[0].state.kind == ImportNode ==>
          r.result == UnknownStatement && ExpectedKeyword([KSchema, KModule]) in Messages(r.nodes)) &&
        r.nodes[0].state.kind in {SchemaImportNode, ModuleImportNode, ImportNode})
  {
    var keyword := Basic(HeaderKeywordRule(state, KImport), g, ts, p);
    if keyword.result {
      var r := StateOf(ImportRule(state), g, ts, p);
      var rest := r.nodes[2..];
      assert r.nodes == [r.nodes[0]] + [r.nodes[1]] + rest;
      MessagesAppend([r.nodes[0]] + [r.nodes[1]], rest);
      MessagesAppend([r.nodes[0]], [r.nodes[1]]);
      var t := Syntax(TriviaRule, ts, keyword.end);
      var schema := ImportPart(SchemaImportRule, g, ts, t.end);
      if !schema.result {
        var moduleImport := ImportPart(ModuleImportRule, g, ts, schema.end);
        if !moduleImport.result {
          var q := moduleImport.end;
          var error := Marker(q, Failed(q, ExpectedKeyword([KSchema, KModule])));
          assert r.nodes == r.nodes[..|r.nodes| - 1] + [error];
          MessagesAppend(r.nodes[..|r.nodes| - 1], [error]);
        }
      }
    }
  }

  /** One declaration or import: none matched exactly when neither `declare` nor `import` is next, and then nothing is built. */
  lemma PrologDeclAbsent(state: PrologDeclState, g: Grammar, ts: seq<Token>, p: nat)
    requires ValidGrammar(g) && p <= |ts|
    ensures var r := StateOf(PrologDeclRule(state), g, ts, p);
      (r.result == NotMatched <==> Kind(ts, p) != Some(Keyword(KDeclare)) && Kind(ts, p) != Some(Keyword(KImport))) &&
      (r.result == NotMatched ==> r.end == p && Invisible(r.nodes))
  {
    DeclAgrees(state, g, ts, p);
    ImportFlagged(state, g, ts, p);
  }

  /**
   * `parseProlog`: the PROLOG node is built exactly when a declaration or
   * import comes first; otherwise its marker is dropped, the result is
   * false and nothing is consumed or built.
   */
  lemma PrologPresent(g: Grammar, ts: seq<Token>, p: nat)
    requires ValidGrammar(g) && p <= |ts|
    ensures var r := Top(PrologRule, g, ts, p);
      (r.result <==> Kind(ts, p) == Some(Keyword(KDeclare)) || Kind(ts, p) == Some(Keyword(KImport))) &&
      |r.nodes| > 0 && r.nodes[0] == Marker(p, if r.result then Completed(r.end, PrologNode) else Dropped) &&
      (!r.result ==> r.end == p && Invisible(r.nodes))
  {
    PrologDeclAbsent(HeaderStatement, g, ts, p);
    var body := StateOf(PrologFromRule(NotMatched), g, ts, p);
    assert body == PrologFrom(NotMatched, g, ts, p);
    var decl := StateOf(PrologDeclRule(HeaderStatement), g, ts, p);
    assert decl.result == NotMatched ==> body == Outcome(NotMatched, decl.end, decl.nodes);
    var r := Top(PrologRule, g, ts, p);
    if body.result == NotMatched {
      assert r.nodes == [Marker(p, Dropped)] + body.nodes;
    }
  }

  /**
   * The prolog loop only moves forward: started in `state`, it ends in
   * `state`, in HEADER once something matched, or in BODY; started in
   * BODY it ends in BODY.
   */
  lemma {:induction false} PrologStates(state: PrologDeclState, g: Grammar, ts: seq<Token>, q: nat)
    requires ValidGrammar(g) && q <= |ts|
    ensures var r := StateOf(PrologFromRule(state), g, ts, q);
      r.result in {state, Effective(state), BodyStatement} &&
      (state == BodyStatement ==> r.result == BodyStatement)
    decreases |ts| - q
  {
    var decl := StateOf(PrologDeclRule(Effective(state)), g, ts, q);
    if decl.result != NotMatched {
      var separator := PrologSeparator(ts, decl.end);
      var t := Syntax(TriviaRule, ts, separator.end);
      PrologStates(Transition(state, decl.result), g, ts, t.end);
    }
  }

  /** A declaration that moves the prolog to BODY leaves the whole prolog in BODY. */
  lemma BodyDeclSticks(state: PrologDeclState, g: Grammar, ts: seq<Token>, q: nat)
    requires ValidGrammar(g) && q <= |ts|
    requires StateOf(PrologDeclRule(Effective(state)), g, ts, q).result == BodyStatement
    ensures StateOf(PrologFromRule(state), g, ts, q).result == BodyStatement
  {
    var decl := StateOf(PrologDeclRule(Effective(state)), g, ts, q);
    var separator := PrologSeparator(ts, decl.end);
    var t := Syntax(TriviaRule, ts, separator.end);
    PrologStates(BodyStatement, g, ts, t.end);
  }

  /** Whether `t` is a keyword `parseDecl` knows after `declare`. */
  predicate IsDeclKeyword(t: Option<Token>) {
    t.Some? && t.value.Keyword? && t.value.keyword in DeclKeywords
  }

  /** The marker over a header keyword: an "expected-prolog-body" error unless the state is HEADER. */
  function HeaderMarker(state: PrologDeclState, p: nat): NodeMarker {
    Marker(p, if state == HeaderStatement then Dropped else Failed(p + 1, ExpectedPrologBody))
  }

  /** The keyword a header-only setting declaration starts with. */
  function HeaderKeywordOf(r: SettingRule): KeywordKind
    requires r.SettingDeclRule? || r.BaseUriDeclRule? || r.CopyNamespacesDeclRule? || r.NamespaceDeclRule?
  {
    match r
    case SettingDeclRule(_, k, _, _) => k
    case BaseUriDeclRule(_) => KBaseUri
    case CopyNamespacesDeclRule(_) => KCopyNamespaces
    case NamespaceDeclRule(_) => KNamespace
  }

  /**
   * A header-only setting declaration matches exactly at its keyword,
   * which is flagged "expected-prolog-body" unless the state is HEADER;
   * when it does not match it consumes and builds nothing.
   */
  lemma HeaderSettingFlagged(r: SettingRule, g: Grammar, ts: seq<Token>, p: nat)
    requires ValidGrammar(g) && p <= |ts|
    requires r.SettingDeclRule? || r.BaseUriDeclRule? || r.CopyNamespacesDeclRule? || r.NamespaceDeclRule?
    ensures var o := Setting(r, g, ts, p);
      (o.result <==> Kind(ts, p) == Some(Keyword(HeaderKeywordOf(r)))) &&
      (!o.result ==> o.end == p && Invisible(o.nodes)) &&
      (o.result ==>
        |o.nodes| > 0 && o.nodes[0] == HeaderMarker(r.state, p) &&
        (r.state != HeaderStatement ==> ExpectedPrologBody in Messages(o.nodes)))
  {
    var o := Setting(r, g, ts, p);
    var h := Basic(HeaderKeywordRule(r.state, HeaderKeywordOf(r)), g, ts, p);
    assert h.result <==> Kind(ts, p) == Some(Keyword(HeaderKeywordOf(r)));
    match r {
      case SettingDeclRule(_, _, _, _) => assert o.nodes[..1] == h.nodes && (!h.result ==> o == h);
      case BaseUriDeclRule(_) => assert o.nodes[..1] == h.nodes && (!h.result ==> o == h);
      case CopyNamespacesDeclRule(_) => assert o.nodes[..1] == h.nodes && (!h.result ==> o == h);
      case NamespaceDeclRule(_) => assert o.nodes[..1] == h.nodes && (!h.result ==> o == h);
    }
    if o.result {
      assert o.nodes == [o.nodes[0]] + o.nodes[1..];
      MessagesAppend([o.nodes[0]], o.nodes[1..]);
    }
  }

  /** `parseDefaultDecl` matches exactly at `default`, which is flagged unless the state is HEADER. */
  lemma DefaultDeclFlagged(state: PrologDeclState, g: Grammar, ts: seq<Token>, p: nat)
    requires ValidGrammar(g) && p <= |ts|
    ensures var o := NodeOf(DefaultDeclRule(state), g, ts, p);
      (o.result.Some? <==> Kind(ts, p) == Some(Keyword(KDefault))) &&
      (o.result.None? ==> o.end == p && Invisible(o.nodes)) &&
      (o.result.Some? ==>
        |o.nodes| > 0 && o.nodes[0] == HeaderMarker(state, p) &&
        (state != HeaderStatement ==> ExpectedPrologBody in Messages(o.nodes)))
  {
    var o := NodeOf(DefaultDeclRule(state), g, ts, p);
    if o.result.Some? {
      assert o.nodes == [o.nodes[0]] + o.nodes[1..];
      MessagesAppend([o.nodes[0]], o.nodes[1..]);
    }
  }

  /** The declarations that are not header-only match exactly at their keyword, and otherwise consume and build nothing. */
  lemma BodyDeclsAt(g: Grammar, ts: seq<Token>, p: nat)
    requires ValidGrammar(g) && p <= |ts|
    ensures var f := NodeOf(FunctionDeclRule, g, ts, p);
      (f.result.Some? <==> Kind(ts, p) == Some(Keyword(KFunction))) && (f.result.None? ==> f.end == p && f.nodes == []) &&
      (f.result == None || f.result == Some(FunctionDeclNode) || f.result == Some(UnknownDeclNode))
    ensures var o := Setting(OptionDeclRule, g, ts, p);
      (o.result <==> Kind(ts, p) == Some(Keyword(KOption))) && (!o.result ==> o.end == p && o.nodes == [])
    ensures var v := Signature(VarDeclRule, g, ts, p);
      (v.result <==> Kind(ts, p) == Some(Keyword(KVariable))) && (!v.result ==> v.end == p && v.nodes == [])
  {
  }

  /** The messages of `a`, an error marker with message `m`, and `b`. */
  lemma ReportedBetween(a: seq<NodeMarker>, s: nat, m: Message, b: seq<NodeMarker>)
    ensures m in Messages(a + [Marker(s, Failed(s, m))] + b)
  {
    MessagesAppend(a + [Marker(s, Failed(s, m))], b);
    MessagesAppend(a, [Marker(s, Failed(s, m))]);
  }

  /** A part's messages are among those of the sequence it is the tail of. */
  lemma ReportedAfter(a: seq<NodeMarker>, b: seq<NodeMarker>, m: Message)
    ensures m in Messages(b) ==> m in Messages(a + b)
  {
    MessagesAppend(a, b);
  }

  /**
   * The declarations tried after the first five: the unknown declaration
   * is taken exactly when no function, namespace, option, ordering or
   * variable keyword is next, and is reported with the list of keywords
   * `declare` expects.
   */
  lemma LaterDeclUnknown(state: PrologDeclState, g: Grammar, ts: seq<Token>, q: nat)
    requires ValidGrammar(g) && q <= |ts|
    ensures var o := DeclaredOf(LaterDeclRule(state), g, ts, q);
      (o.result.next == UnknownStatement <==>
        Kind(ts, q) !in {Some(Keyword(KFunction)), Some(Keyword(KNamespace)), Some(Keyword(KOption)), Some(Keyword(KOrdering)), Some(Keyword(KVariable))}) &&
      (o.result.next == UnknownStatement ==> o.result.kind == UnknownDeclNode && ExpectedKeyword(DeclKeywords) in Messages(o.nodes))
  {
    BodyDeclsAt(g, ts, q);
    HeaderSettingFlagged(NamespaceDeclRule(state), g, ts, q);
    HeaderSettingFlagged(SettingDeclRule(state, KOrdering, KOrdered, KUnordered), g, ts, q);
    hide Setting, NodeOf, Signature, Messages;
    var functionDecl := NodeOf(FunctionDeclRule, g, ts, q);
    var namespace := Setting(NamespaceDeclRule(state), g, ts, functionDecl.end);
    var option := Setting(OptionDeclRule, g, ts, namespace.end);
    var missed := functionDecl.nodes + namespace.nodes + option.nodes;
    var ordering := Setting(SettingDeclRule(state, KOrdering, KOrdered, KUnordered), g, ts, option.end);
    var variable := Signature(VarDeclRule, g, ts, ordering.end);
    var s := variable.end;
    var unknown := Setting(UnknownDeclRule, g, ts, s);
    ReportedBetween(missed + ordering.nodes + variable.nodes, s, ExpectedKeyword(DeclKeywords), unknown.nodes);
  }

  /**
   * The declarations tried after the first five: one that keeps the
   * prolog in HEADER (a namespace or ordering mode declaration) is
   * flagged in a state other than HEADER.
   */
  lemma LaterDeclFlagged(state: PrologDeclState, g: Grammar, ts: seq<Token>, q: nat)
    requires ValidGrammar(g) && q <= |ts| && state != HeaderStatement
    ensures var o := DeclaredOf(LaterDeclRule(state), g, ts, q);
      o.result.next == HeaderStatement ==> ExpectedPrologBody in Messages(o.nodes)
  {
    BodyDeclsAt(g, ts, q);
    HeaderSettingFlagged(NamespaceDeclRule(state), g, ts, q);
    hide Setting, NodeOf, Signature, Messages;
    var functionDecl := NodeOf(FunctionDeclRule, g, ts, q);
    if functionDecl.result.None? {
      var namespace := Setting(NamespaceDeclRule(state), g, ts, functionDecl.end);
      if namespace.result {
        ReportedAfter(functionDecl.nodes, namespace.nodes, ExpectedPrologBody);
      } else {
        var option := Setting(OptionDeclRule, g, ts, namespace.end);
        if !option.result {
          var missed := functionDecl.nodes + namespace.nodes + option.nodes;
          var ordering := Setting(SettingDeclRule(state, KOrdering, KOrdered, KUnordered), g, ts, option.end);
          HeaderSettingFlagged(SettingDeclRule(state, KOrdering, KOrdered, KUnordered), g, ts, option.end);
          ReportedAfter(missed, ordering.nodes, ExpectedPrologBody);
        }
      }
    }
  }

  /**
   * Every declaration after `declare` that keeps the prolog in HEADER
   * (base-uri, boundary-space, construction, copy-namespaces, default,
   * namespace, ordering) is flagged "expected-prolog-body" when it is
   * seen in a state other than HEADER.
   */
  lemma DeclBodyFlagged(state: PrologDeclState, g: Grammar, ts: seq<Token>, q: nat)
    requires ValidGrammar(g) && q <= |ts| && state != HeaderStatement
    ensures var o := DeclaredOf(DeclBodyRule(state), g, ts, q);
      o.result.next == HeaderStatement ==> ExpectedPrologBody in Messages(o.nodes)
  {
    HeaderSettingFlagged(BaseUriDeclRule(state), g, ts, q);
    hide Setting, NodeOf, DeclaredOf, Messages;
    var baseUri := Setting(BaseUriDeclRule(state), g, ts, q);
    if !baseUri.result {
      var boundarySpace := Setting(SettingDeclRule(state, KBoundarySpace, KPreserve, KStrip), g, ts, baseUri.end);
      HeaderSettingFlagged(SettingDeclRule(state, KBoundarySpace, KPreserve, KStrip), g, ts, baseUri.end);
      ReportedAfter(baseUri.nodes, boundarySpace.nodes, ExpectedPrologBody);
      if !boundarySpace.result {
        var construction := Setting(SettingDeclRule(state, KConstruction, KPreserve, KStrip), g, ts, boundarySpace.end);
        HeaderSettingFlagged(SettingDeclRule(state, KConstruction, KPreserve, KStrip), g, ts, boundarySpace.end);
        var missed := baseUri.nodes + boundarySpace.nodes + construction.nodes;
        ReportedAfter(baseUri.nodes + boundarySpace.nodes, construction.nodes, ExpectedPrologBody);
        if !construction.result {
          var copyNamespaces := Setting(CopyNamespacesDeclRule(state), g, ts, construction.end);
          HeaderSettingFlagged(CopyNamespacesDeclRule(state), g, ts, construction.end);
          ReportedAfter(missed, copyNamespaces.nodes, ExpectedPrologBody);
          if !copyNamespaces.result {
            var default := NodeOf(DefaultDeclRule(state), g, ts, copyNamespaces.end);
            DefaultDeclFlagged(state, g, ts, copyNamespaces.end);
            ReportedAfter(missed + copyNamespaces.nodes, default.nodes, ExpectedPrologBody);
            if default.result.None? {
              var later := DeclaredOf(LaterDeclRule(state), g, ts, default.end);
              LaterDeclFlagged(state, g, ts, default.end);
              ReportedAfter(missed + copyNamespaces.nodes + default.nodes, later.nodes, ExpectedPrologBody);
            }
          }
        }
      }
    }
  }

  /** The nodes the later declarations build. */
  lemma LaterDeclKinds(state: PrologDeclState, g: Grammar, ts: seq<Token>, q: nat)
    requires ValidGrammar(g) && q <= |ts|
    ensures DeclaredOf(LaterDeclRule(state), g, ts, q).result.kind in
      {FunctionDeclNode, UnknownDeclNode, NamespaceDeclNode, OptionDeclNode, OrderingModeDeclNode, VarDeclNode}
  {
    BodyDeclsAt(g, ts, q);
    hide Setting, NodeOf, Signature, Messages;
  }

  /** The keywords `parseDecl` knows: the five it tries first and the five it tries later. */
  lemma DeclKeywordSplit(t: Option<Token>)
    ensures IsDeclKeyword(t) <==>
      t in {Some(Keyword(KBaseUri)), Some(Keyword(KBoundarySpace)), Some(Keyword(KConstruction)), Some(Keyword(KCopyNamespaces)), Some(Keyword(KDefault))} ||
      t in {Some(Keyword(KFunction)), Some(Keyword(KNamespace)), Some(Keyword(KOption)), Some(Keyword(KOrdering)), Some(Keyword(KVariable))}
  {
  }

  /**
   * After `declare`, the unknown declaration is taken exactly when none
   * of the keywords `parseDecl` knows is next, and it is reported with
   * the list of those keywords.
   */
  lemma DeclBodyUnknown(state: PrologDeclState, g: Grammar, ts: seq<Token>, q: nat)
    requires ValidGrammar(g) && q <= |ts|
    ensures var o := DeclaredOf(DeclBodyRule(state), g, ts, q);
      (o.result.next == UnknownStatement <==> !IsDeclKeyword(Kind(ts, q))) &&
      (o.result.next == UnknownStatement ==> o.result.kind == UnknownDeclNode && ExpectedKeyword(DeclKeywords) in Messages(o.nodes))
  {
    hide Setting, NodeOf, Messages, IsDeclKeyword;
    HeaderSettingFlagged(BaseUriDeclRule(state), g, ts, q);
    HeaderSettingFlagged(SettingDeclRule(state, KBoundarySpace, KPreserve, KStrip), g, ts, q);
    HeaderSettingFlagged(SettingDeclRule(state, KConstruction, KPreserve, KStrip), g, ts, q);
    HeaderSettingFlagged(CopyNamespacesDeclRule(state), g, ts, q);
    DefaultDeclFlagged(state, g, ts, q);
    LaterDeclUnknown(state, g, ts, q);
    DeclKeywordSplit(Kind(ts, q));
    var baseUri := Setting(BaseUriDeclRule(state), g, ts, q);
    var boundarySpace := Setting(SettingDeclRule(state, KBoundarySpace, KPreserve, KStrip), g, ts, baseUri.end);
    var construction := Setting(SettingDeclRule(state, KConstruction, KPreserve, KStrip), g, ts, boundarySpace.end);
    var missed := baseUri.nodes + boundarySpace.nodes + construction.nodes;
    var copyNamespaces := Setting(CopyNamespacesDeclRule(state), g, ts, construction.end);
    var default := NodeOf(DefaultDeclRule(state), g, ts, copyNamespaces.end);
    var later := DeclaredOf(LaterDeclRule(state), g, ts, default.end);
    ReportedAfter(missed + copyNamespaces.nodes + default.nodes, later.nodes, ExpectedKeyword(DeclKeywords));
  }

  /**
   * `parseDecl` at `declare`: one node from `declare` to the end of the
   * declaration. It is an UNKNOWN_DECL reported with the keywords
   * `declare` expects exactly when none of them follows; and a
   * declaration that keeps the prolog in HEADER, seen in another state,
   * is flagged "expected-prolog-body".
   */
  lemma DeclReports(state: PrologDeclState, g: Grammar, ts: seq<Token>, p: nat)
    requires ValidGrammar(g) && p < |ts| && ts[p] == Keyword(KDeclare)
    ensures var r := StateOf(DeclRule(state), g, ts, p);
      var q := Syntax(TriviaRule, ts, p + 1).end;
      |r.nodes| > 0 && r.nodes[0] == Marker(p, Completed(r.end, r.nodes[0].state.kind)) &&
      (r.result == UnknownStatement <==> !IsDeclKeyword(Kind(ts, q))) &&
      (r.result == UnknownStatement ==> r.nodes[0].state.kind == UnknownDeclNode && ExpectedKeyword(DeclKeywords) in Messages(r.nodes)) &&
      (r.result == HeaderStatement && state != HeaderStatement ==> ExpectedPrologBody in Messages(r.nodes))
  {
    var t := Syntax(TriviaRule, ts, p + 1);
    var body := DeclaredOf(DeclBodyRule(state), g, ts, t.end);
    DeclBodyUnknown(state, g, ts, t.end);
    if state != HeaderStatement {
      DeclBodyFlagged(state, g, ts, t.end);
    }
    ReportedAfter([Marker(p, Completed(body.end, body.result.kind))] + t.nodes, body.nodes, ExpectedPrologBody);
    ReportedAfter([Marker(p, Completed(body.end, body.result.kind))] + t.nodes, body.nodes, ExpectedKeyword(DeclKeywords));
  }

  /**
   * `parseUnknownDecl`: the recovery loop goes on only after consuming
   * input; it consumes something exactly when it can go on at its start,
   * and it stops where it cannot go on.
   */
  lemma {:induction false} UnknownDeclRecovers(g: Grammar, ts: seq<Token>, p: nat)
    requires ValidGrammar(g) && p <= |ts|
    ensures var r := Setting(UnknownDeclRule, g, ts, p);
      r.result && (p < r.end <==> Recovers(g, ts, p)) && !Recovers(g, ts, r.end)
    decreases |ts| - p
  {
    var t := Syntax(TriviaRule, ts, p);
    assert t == Trivia(ts, p);
    if t.result {
      UnknownDeclRecovers(g, ts, t.end);
    } else if Kind(ts, p) == Some(NCName) {
      UnknownDeclRecovers(g, ts, p + 1);
    } else {
      var s := Syntax(StringLiteralRule(StringLiteralNode), ts, p);
      if s.result {
        UnknownDeclRecovers(g, ts, s.end);
      } else if IsRecoveryToken(Kind(ts, p)) {
        UnknownDeclRecovers(g, ts, p + 1);
      } else {
        var x := Item(g.exprSingle, ExprSingleNode, ts, p);
        if x.result {
          UnknownDeclRecovers(g, ts, x.end);
        }
      }
    }
  }

  /** A main module that was not found consumed nothing and built nothing. */
  lemma MainModuleAbsent(g: Grammar, ts: seq<Token>, p: nat)
    requires ValidGrammar(g) && p <= |ts|
    ensures var r := Top(MainModuleRule, g, ts, p);
      !r.result ==> r.end == p && Invisible(r.nodes)
  {
    PrologPresent(g, ts, p);
    var prolog := Top(PrologRule, g, ts, p);
    if !prolog.result {
      var body := Basic(ExprRule(QueryBodyNode), g, ts, prolog.end);
      assert body == Expr(g, QueryBodyNode, ts, p);
      assert !body.result ==> body == Outcome(false, p, [Marker(p, Dropped)]);
    }
  }

  /**
   * `parseModule`: a module that was not found consumed nothing and
   * built nothing, so the loop of `parse` goes on at the same token.
   */
  lemma ModuleAbsent(g: Grammar, ts: seq<Token>, p: nat)
    requires ValidGrammar(g) && p <= |ts|
    ensures var r := Top(ModuleRule, g, ts, p);
      !r.result ==> r.end == p && Invisible(r.nodes)
  {
    var version := Head(VersionDeclRule, g, ts, p);
    assert version == VersionDecl(g, ts, p);
    assert !version.result ==> version == Outcome(false, p, []);
    var library := Top(LibraryModuleRule, g, ts, p);
    assert !library.result ==> library == Outcome(false, p, []) by {
      assert library == LibraryModule(g, ts, p);
      var decl := Head(ModuleDeclRule, g, ts, p);
      assert decl == ModuleDecl(g, ts, p);
      assert !decl.result ==> decl == Outcome(false, p, []);
    }
    MainModuleAbsent(g, ts, p);
  }

  /**
   * `parse`: a pass of its loop that finds no white space, module,
   * direct comment or CDATA section advances exactly one token and
   * builds nothing.
   */
  lemma ParseStepSkips(g: Grammar, ts: seq<Token>, p: nat)
    requires ValidGrammar(g) && p < |ts|
    ensures var r := Top(ParseStepRule, g, ts, p);
      !r.result ==> r.end == p + 1 && Invisible(r.nodes)
  {
    ModuleAbsent(g, ts, p);
  }
}
