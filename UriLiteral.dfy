/**
 * An XQuery URI literal: the URI context and module kinds its position gives
 * it, its decoded value, and the range its reference covers.
 */
module UriLiteral {
  import opened XdmModel
  import JavaModulePath

  /** The kind of node a URI literal sits in. */
  datatype ParentKind =
    | FTStopWords
    | FTThesaurusID
    | PluginLocationURIList
    | PluginStylesheetImport
    | PluginUsingDecl
    | BaseURIDecl
    | DefaultCollationDecl
    | DefaultNamespaceDecl
    | GroupingSpec
    | ModuleDecl
    | ModuleImport
    | NamespaceDecl
    | OrderModifier
    | SchemaImport
    | OtherParent

  /**
   * A child of the literal. Entity, character-reference and escape children
   * carry the value the source asks them for (their decoding is not part of
   * this model) beside their text.
   */
  datatype Part =
    | StringLiteralStart(text: string)
    | StringLiteralEnd(text: string)
    | PredefinedEntityRef(text: string, value: string)
    | CharRef(text: string, codepoint: string)
    | EscapeCharacter(text: string, unescaped: char)
    | Other(text: string)

  /** `context`: how the URI is interpreted, from the kind of its parent. */
  function Context(parent: ParentKind): (r: UriContext)
    ensures r == Location <==> parent == PluginLocationURIList || parent == PluginStylesheetImport
    ensures r == Collation <==> parent in {DefaultCollationDecl, GroupingSpec, OrderModifier}
    ensures r == TargetNamespace <==> parent == ModuleImport || parent == SchemaImport
    ensures r == StopWords <==> parent == FTStopWords
    ensures r == Thesaurus <==> parent == FTThesaurusID
    ensures r == BaseUri <==> parent == BaseURIDecl
    ensures r == NamespaceDeclaration <==> parent == NamespaceDecl
    ensures r == Namespace <==> parent in {PluginUsingDecl, DefaultNamespaceDecl, ModuleDecl, OtherParent}
  {
    match parent
    case FTStopWords => StopWords
    case FTThesaurusID => Thesaurus
    case PluginLocationURIList => Location
    case PluginStylesheetImport => Location
    case BaseURIDecl => BaseUri
    case DefaultCollationDecl => Collation
    case GroupingSpec => Collation
    case ModuleImport => TargetNamespace
    case NamespaceDecl => NamespaceDeclaration
    case OrderModifier => Collation
    case SchemaImport => TargetNamespace
    case _ => Namespace
  }

  /**
   * `moduleTypes`: the module kinds the URI may locate. In a location list the
   * import around the list decides; the empty set is `NONE`.
   */
  function ModuleTypes(parent: ParentKind, grandparent: ParentKind): (r: set<ModuleType>)
    ensures Stylesheet in r <==> parent == PluginStylesheetImport
    ensures Module in r <==>
      parent in {ModuleDecl, ModuleImport, NamespaceDecl, PluginUsingDecl, DefaultNamespaceDecl} ||
      (parent == PluginLocationURIList && grandparent == ModuleImport)
    ensures Schema in r <==>
      parent in {SchemaImport, NamespaceDecl, PluginUsingDecl, DefaultNamespaceDecl} ||
      (parent == PluginLocationURIList && grandparent == SchemaImport)
    ensures parent != PluginLocationURIList ==> (r != {} <==>
      parent in {PluginStylesheetImport, ModuleDecl, ModuleImport, NamespaceDecl, SchemaImport, PluginUsingDecl, DefaultNamespaceDecl})
  {
    match parent
    case PluginLocationURIList =>
      (match grandparent
       case ModuleImport => {Module}
       case SchemaImport => {Schema}
       case _ => {})
    case PluginStylesheetImport => {Stylesheet}
    case ModuleDecl => {Module}
    case ModuleImport => {Module}
    case NamespaceDecl => {Module, Schema}
    case SchemaImport => {Schema}
    case PluginUsingDecl => {Module, Schema}
    case DefaultNamespaceDecl => {Module, Schema}
    case _ => {}
  }

  /**
   * The two tables agree: a literal that names a module or schema by its
   * namespace (anywhere but in a location list or stylesheet import) has a
   * namespace-kind context, the contexts in which a Java class may be named.
   */
  lemma NamespaceModulesHaveNamespaceContext(parent: ParentKind, grandparent: ParentKind)
    requires ModuleTypes(parent, grandparent) != {}
    requires Context(parent) != Location
    ensures JavaModulePath.IsNamespaceContext(Context(parent))
  {
  }

  /** What one child contributes to the value: nothing for the delimiters. */
  function Contribution(p: Part): string {
    match p
    case StringLiteralStart(_) => ""
    case StringLiteralEnd(_) => ""
    case PredefinedEntityRef(_, value) => value
    case CharRef(_, codepoint) => codepoint
    case EscapeCharacter(_, c) => [c]
    case Other(text) => text
  }

  /** `data`: the contributions of the children, in order, joined with no separator. */
  function Data(parts: seq<Part>): (r: string)
    ensures |parts| > 0 && (parts[0].StringLiteralStart? || parts[0].StringLiteralEnd?) ==> r == Data(parts[1..])
  {
    if |parts| == 0 then "" else Contribution(parts[0]) + Data(parts[1..])
  }

  /** The literal's source text. */
  function Text(parts: seq<Part>): string {
    if |parts| == 0 then "" else parts[0].text + Text(parts[1..])
  }

  lemma {:induction false} DataAppend(a: seq<Part>, b: seq<Part>)
    ensures Data(a + b) == Data(a) + Data(b)
    ensures Text(a + b) == Text(a) + Text(b)
  {
    if |a| > 0 {
      assert (a + b)[1..] == a[1..] + b;
      DataAppend(a[1..], b);
    } else {
      assert a + b == b;
    }
  }

  /** A literal with no entity, character reference or escape in it. */
  predicate Verbatim(parts: seq<Part>) {
    forall i :: 0 <= i < |parts| ==> parts[i].Other?
  }

  lemma {:induction false} VerbatimData(parts: seq<Part>)
    requires Verbatim(parts)
    ensures Data(parts) == Text(parts)
  {
    if |parts| > 0 {
      VerbatimData(parts[1..]);
    }
  }

  /** `getReference`: the reference covers the text from offset 1 to one before its end. */
  function ReferenceRange(length: nat): (r: (nat, int))
    ensures r.0 == 1 && r.1 == length - 1
  {
    (1, length - 1)
  }

  /**
   * For a literal delimited by one-character quotes with only plain text in
   * between, the value is exactly the text the reference range covers.
   */
  lemma {:induction false} ReferenceCoversData(open: char, body: seq<Part>, close: char)
    requires Verbatim(body)
    ensures var parts := [StringLiteralStart([open])] + body + [StringLiteralEnd([close])];
      var t := Text(parts);
      var range := ReferenceRange(|t|);
      0 <= range.0 <= range.1 <= |t| && t[range.0..range.1] == Data(parts)
  {
    var parts := [StringLiteralStart([open])] + body + [StringLiteralEnd([close])];
    DataAppend([StringLiteralStart([open])] + body, [StringLiteralEnd([close])]);
    DataAppend([StringLiteralStart([open])], body);
    VerbatimData(body);
    assert Text([StringLiteralEnd([close])]) == [close];
    assert Data([StringLiteralEnd([close])]) == "";
    assert Text([StringLiteralStart([open])]) == [open];
    assert Data([StringLiteralStart([open])]) == "";
    var t := Text(parts);
    assert t == [open] + Text(body) + [close];
    assert t[1..|t| - 1] == Text(body);
  }

  /** Entities, character references and escapes contribute their decoded values, not their text. */
  lemma DecodedParts(text: string, value: string, c: char)
    ensures Data([PredefinedEntityRef(text, value)]) == value
    ensures Data([CharRef(text, value)]) == value
    ensures Data([EscapeCharacter(text, c)]) == [c]
  {
  }
}
