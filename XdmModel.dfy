/** The URI contexts and module kinds that URI literals are classified into. */
module XdmModel {
  /** Where a URI literal occurs, which decides how the URI is interpreted. */
  datatype UriContext =
    | Namespace
    | NamespaceDeclaration
    | TargetNamespace
    | BaseUri
    | Collation
    | Location
    | StopWords
    | Thesaurus

  /** The kinds of module a URI literal may resolve to. */
  datatype ModuleType = Module | Schema | Stylesheet
}
