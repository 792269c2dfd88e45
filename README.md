# XQuery IntelliJ plugin core, modelled in Dafny

This project models the hand-written language tooling of the XQuery IntelliJ
plugin and proves what it promises. It covers these parts:

- **The recursive-descent XQuery parser.** It drives the IDE tree builder.
  - `XQuerySyntax` and `XQueryRules` give each grammar rule as a function from the tokens and the cursor to the rule's outcome. The outcome is the value the rule returns, the token it stops at, and the markers it appends.
  - The `XQueryParser.Parser` class runs the lower rules step by step on a `TreeBuilder.Builder`. Each method is proved to reach exactly that outcome.
  - `XQueryProperties`, `XQueryDeclProperties` and `XQueryPrologProperties` prove the parser's promises:
    - the QName errors are kept apart;
    - string literals are always closed;
    - version and module declarations still become nodes without their `;`;
    - the `xquery encoding` version gate;
    - the HEADER/BODY prolog state machine and its "expected-prolog-body" flag;
    - unknown declarations are recovered from;
    - the loop of `parse` always makes progress.
- **The tree builder** (`TreeBuilder`). It is a token sequence with a cursor and an arena of markers. Markers are opened, then completed, failed with an error, dropped or rolled back.
- **The xqDoc comment lexer** (`XQDocLexer`). It works over a stack of lexer states. Entity references are classified with the help of `CharacterClasses`.
- **The xqDoc comment line extractor** (`CommentLineExtractor`).
- **The XSLT value-template lexer** (`ValueTemplateLexer`).
- **The XSLT schema-types parser** (`SchemaTypesParser`).
- **The XPath find-usages words scanner** (`WordsScanner`).
- **The PSI sequences** (`PsiTree`). These are ancestors, descendants, children, siblings and the stack-driven preorder tree walk, over a tree arena.
- **Small rules:**
  - the Java module path classification (`JavaModulePath`);
  - zip entries as virtual files (`ZipFile`);
  - argument-to-parameter binding (`ArgumentList`);
  - URI literals (`UriLiteral`, over the shared `XdmModel` enumerations);
  - the `element(…)` and `function(…) as …` type names (`ElementTest`, `TypedFunctionTest`);
  - RESTXQ annotations (`RestXq`).
- **The inspections XQST0118 and XQST0031** (`Xqst0118`, `Xqst0031`).
- **The Saxon flat profiler's trace listener** (`SaxonProfiler`).

Kotlin's string helpers are in `Text`. `Option` and `Result` are in `Wrappers`.

## Model

| member | source | states |
|---|---|---|
| ArgumentList.Arguments | src/lang-xpath/main/uk/co/reecedunn/intellij/plugin/xpath/psi/impl/xpath/XPathArgumentListPsiImpl.kt:30-31 | the arguments are exactly the children that are expressions or placeholders (no more than there are children) |
| ArgumentList.ArgumentsAppend | src/lang-xpath/main/uk/co/reecedunn/intellij/plugin/xpath/psi/impl/xpath/XPathArgumentListPsiImpl.kt:30-31 | the arguments of a concatenation are the arguments of each part in turn: the filter keeps the children's order |
| ArgumentList.ArgumentsOne | src/lang-xpath/main/uk/co/reecedunn/intellij/plugin/xpath/psi/impl/xpath/XPathArgumentListPsiImpl.kt:30-31 | a single child is kept exactly when it is an expression or a placeholder |
| ArgumentList.Bindings | src/lang-xpath/main/uk/co/reecedunn/intellij/plugin/xpath/psi/impl/xpath/XPathArgumentListPsiImpl.kt:33-57 | no bindings when the parent is not a function call or the declaration is unresolved; otherwise the parameters bound one by one as `Expected` describes them (arrow source first, one argument per middle parameter, the rest to the last) |
| ArgumentList.ArrowSourceBound | src/lang-xpath/main/uk/co/reecedunn/intellij/plugin/xpath/psi/impl/xpath/XPathArgumentListPsiImpl.kt:41-45 | in an arrow call, parameter 0 is bound to the arrow's source expression |
| ArgumentList.MiddleBound | src/lang-xpath/main/uk/co/reecedunn/intellij/plugin/xpath/psi/impl/xpath/XPathArgumentListPsiImpl.kt:50-55 | a middle parameter takes the next argument, and is dropped once the arguments have run out; the iterator advances by one |
| ArgumentList.LastBound | src/lang-xpath/main/uk/co/reecedunn/intellij/plugin/xpath/psi/impl/xpath/XPathArgumentListPsiImpl.kt:46-49 | the last parameter is bound to all arguments the iterator has left |
| ArgumentList.EveryArgumentBoundOnce | src/lang-xpath/main/uk/co/reecedunn/intellij/plugin/xpath/psi/impl/xpath/XPathArgumentListPsiImpl.kt:37-56 | without an arrow, every argument is bound exactly once and in order |
| ArgumentList.ArrowSourceFirst | src/lang-xpath/main/uk/co/reecedunn/intellij/plugin/xpath/psi/impl/xpath/XPathArgumentListPsiImpl.kt:41-53 | in an arrow call the source takes the first parameter, followed by the arguments in order |
| ArgumentList.LastBoundMiddleDropped | src/lang-xpath/main/uk/co/reecedunn/intellij/plugin/xpath/psi/impl/xpath/XPathArgumentListPsiImpl.kt:46-55 | the last parameter is always bound; there is one binding per parameter less the middle ones dropped for want of arguments |
| JavaModulePath.Create | src/lang-java/main/uk/co/reecedunn/intellij/plugin/xdm/java/JavaModulePath.kt:38-55 | only the Namespace, TargetNamespace and NamespaceDeclaration contexts give a path; a `java:` URI is read back as the class path (with `?void=this` recorded), any other result is the whole non-empty URI without `/` or `:` |
| JavaModulePath.SchemeAlwaysResolves | src/lang-java/main/uk/co/reecedunn/intellij/plugin/xdm/java/JavaModulePath.kt:43-47 | a `java:` URI always gives a path in a namespace context, with voidThis set exactly when it ends with `?void=this` |
| JavaModulePath.SchemeSuffixLiesInClassPath | src/lang-java/main/uk/co/reecedunn/intellij/plugin/xdm/java/JavaModulePath.kt:44-45 | `java:C` ends with `?void=this` only when `C` does, so the scheme is never cut into |
| JavaModulePath.CreateSchemeUri | src/lang-java/main/uk/co/reecedunn/intellij/plugin/xdm/java/JavaModulePath.kt:43-47 | round trip: a class path and voidThis flag are recovered from the `java:` URI written for them |
| JavaModulePath.PlainClassName | src/lang-java/main/uk/co/reecedunn/intellij/plugin/xdm/java/JavaModulePath.kt:49-50 | a URI without `:` gives a path exactly when it is non-empty and has no `/`, and that path is the URI itself with voidThis false |
| ZipFile.Split | src/kotlin-intellij/main/uk/co/reecedunn/intellij/plugin/core/vfs/ZipFile.kt:55 | Kotlin's `split("/")`: at least one segment, none containing `/`, and joining them with `/` gives the string back |
| ZipFile.Name | src/kotlin-intellij/main/uk/co/reecedunn/intellij/plugin/core/vfs/ZipFile.kt:53-58 | the file name is a single segment: it contains no `/` |
| ZipFile.PathDecomposition | src/kotlin-intellij/main/uk/co/reecedunn/intellij/plugin/core/vfs/ZipFile.kt:53-75 | every path is its parent path, then its name, then `/` when it ends with one; the parent path is "" or ends with `/` |
| ZipFile.FileDecomposition | src/kotlin-intellij/main/uk/co/reecedunn/intellij/plugin/core/vfs/ZipFile.kt:57-74 | a path not ending with `/` is its parent path followed by its name |
| ZipFile.DirectoryDecomposition | src/kotlin-intellij/main/uk/co/reecedunn/intellij/plugin/core/vfs/ZipFile.kt:54-74 | a path ending with `/` is its parent path, its name and `/` |
| ZipFile.ParentIsDirectory | src/kotlin-intellij/main/uk/co/reecedunn/intellij/plugin/core/vfs/ZipFile.kt:72-75 | the parent path of a non-root path names a directory and is strictly shorter |
| ZipFile.Parent | src/kotlin-intellij/main/uk/co/reecedunn/intellij/plugin/core/vfs/ZipFile.kt:77-80 | the root has no parent; any parent is the file the file system holds at the parent path |
| ZipFile.FilterChildren | src/kotlin-intellij/main/uk/co/reecedunn/intellij/plugin/core/vfs/ZipFile.kt:85-86 | keeps exactly the listed files whose parent is the directory (only non-directories for the entry list) |
| ZipFile.Children | src/kotlin-intellij/main/uk/co/reecedunn/intellij/plugin/core/vfs/ZipFile.kt:82-89 | a non-directory has no children; a directory's children are exactly the non-directory entries and the directories whose parent it is |
| ZipFile.Contents | src/kotlin-intellij/main/uk/co/reecedunn/intellij/plugin/core/vfs/ZipFile.kt:93-108 | reading a directory fails with UnsupportedOperationException; reading a file gives its bytes |
| ZipFile.EqualsIsEquivalence | src/kotlin-intellij/main/uk/co/reecedunn/intellij/plugin/core/vfs/ZipFile.kt:31-41 | equality (same entry, same content bytes) is reflexive, symmetric and transitive |
| RestXq.Find | src/plugin-exquery/main/uk/co/reecedunn/intellij/plugin/exquery/restxq/endpoints/RestXqAnnotations.kt:22 | `annotation(name)` finds the first annotation whose local name is `name`, and none exactly when no annotation has it |
| RestXq.FirstString | src/plugin-exquery/main/uk/co/reecedunn/intellij/plugin/exquery/restxq/endpoints/RestXqAnnotations.kt:25 | the first string literal among the values, and none exactly when there is no string value |
| RestXq.Path | src/plugin-exquery/main/uk/co/reecedunn/intellij/plugin/exquery/restxq/endpoints/RestXqAnnotations.kt:25 | no path without a `path` annotation; otherwise the path is the first string value of the first `path` annotation (none when it has no string value) |
| RestXq.MethodNames | src/plugin-exquery/main/uk/co/reecedunn/intellij/plugin/exquery/restxq/endpoints/RestXqAnnotations.kt:28-29 | the reported methods are exactly the annotation local names that are among the six RESTXQ HTTP methods |
| RestXq.MethodNamesAppend | src/plugin-exquery/main/uk/co/reecedunn/intellij/plugin/exquery/restxq/endpoints/RestXqAnnotations.kt:29 | the method sequence keeps annotation order (it distributes over concatenation) |
| RestXq.PathFromFirst | src/plugin-exquery/main/uk/co/reecedunn/intellij/plugin/exquery/restxq/endpoints/RestXqAnnotations.kt:22-25 | a leading `path` annotation decides the path |
| RestXq.NoTraceOrConnect | src/plugin-exquery/main/uk/co/reecedunn/intellij/plugin/exquery/restxq/endpoints/RestXqAnnotations.kt:32-40 | TRACE and CONNECT are never reported |
| ElementTest.NodeName | src/lang-xpath/main/uk/co/reecedunn/intellij/plugin/xpath/psi/impl/xpath/XPathElementTestPsiImpl.kt:51-52 | the node name is the first QName-value child (a QName or a wildcard name such as `*:test`), and absent exactly when there is none |
| ElementTest.FirstWildcard | src/lang-xpath/main/uk/co/reecedunn/intellij/plugin/xpath/psi/impl/xpath/XPathElementTestPsiImpl.kt:45 | the first wildcard-name child, absent exactly when there is none |
| ElementTest.FirstTypeName | src/lang-xpath/main/uk/co/reecedunn/intellij/plugin/xpath/psi/impl/xpath/XPathElementTestPsiImpl.kt:55 | the first type-name child, absent exactly when there is none |
| ElementTest.NodeType | src/lang-xpath/main/uk/co/reecedunn/intellij/plugin/xpath/psi/impl/xpath/XPathElementTestPsiImpl.kt:54-58 | a node type is reported exactly when there is a type-name child and it has a local name |
| ElementTest.Render | src/lang-xpath/main/uk/co/reecedunn/intellij/plugin/xpath/psi/impl/xpath/XPathElementTestPsiImpl.kt:66-72 | every rendering starts with `element(` and ends with `)` |
| ElementTest.TypeNameOf | src/lang-xpath/main/uk/co/reecedunn/intellij/plugin/xpath/psi/impl/xpath/XPathElementTestPsiImpl.kt:63-76 | `element()`, `element(*,T)`, `element(N)` or `element(N,T)`, by which of name and type are present |
| ElementTest.CommaAt | src/lang-xpath/main/uk/co/reecedunn/intellij/plugin/xpath/psi/impl/xpath/XPathElementTestPsiImpl.kt:71 | the first comma of a rendering, which separates the name from the type |
| ElementTest.CommaAtPrefix | src/lang-xpath/main/uk/co/reecedunn/intellij/plugin/xpath/psi/impl/xpath/XPathElementTestPsiImpl.kt:70-71 | a comma-free name is followed directly by the separating comma |
| ElementTest.DecodeRender | src/lang-xpath/main/uk/co/reecedunn/intellij/plugin/xpath/psi/impl/xpath/XPathElementTestPsiImpl.kt:66-72 | the rendering is unambiguous: name and type read back from it for every name that is non-empty, not `*` and comma-free |
| ElementTest.ConformanceElement | src/lang-xpath/main/uk/co/reecedunn/intellij/plugin/xpath/psi/impl/xpath/XPathElementTestPsiImpl.kt:45-46 | the first wildcard-name child when there is one, otherwise the first child; absent only for a test without children |
| ElementTest.CompleteTest | src/lang-xpath/main/uk/co/reecedunn/intellij/plugin/xpath/psi/impl/xpath/XPathElementTestPsiImpl.kt:45-76 | for a complete `element(N, T)` test, conformance is reported on the wildcard name of `element(*:x)` and on the `element` keyword otherwise; the test reports the name it was written with (none for `*`), the type when it has a local name, and renders from them |
| TypedFunctionTest.ParamTypes | src/lang-xpath/main/uk/co/reecedunn/intellij/plugin/xpath/psi/impl/xpath/XPathTypedFunctionTestPsiImpl.kt:50-51 | the types of the first type-list child, or none when there is no type list |
| TypedFunctionTest.LastSequenceType | src/lang-xpath/main/uk/co/reecedunn/intellij/plugin/xpath/psi/impl/xpath/XPathTypedFunctionTestPsiImpl.kt:55 | the index of the last sequence-type child, absent exactly when there is none |
| TypedFunctionTest.ReturnType | src/lang-xpath/main/uk/co/reecedunn/intellij/plugin/xpath/psi/impl/xpath/XPathTypedFunctionTestPsiImpl.kt:53-60 | a return type exists exactly when the last sequence-type child has an `as` keyword before it, and it is that child |
| TypedFunctionTest.TypeNameOf | src/lang-xpath/main/uk/co/reecedunn/intellij/plugin/xpath/psi/impl/xpath/XPathTypedFunctionTestPsiImpl.kt:65-71 | `function(P1, P2, …) as R`, with `item()*` for a missing return type |
| TypedFunctionTest.ConformanceElement | src/lang-xpath/main/uk/co/reecedunn/intellij/plugin/xpath/psi/impl/xpath/XPathTypedFunctionTestPsiImpl.kt:91-92 | the first child, present exactly when there are children |
| TypedFunctionTest.CompleteTest | src/lang-xpath/main/uk/co/reecedunn/intellij/plugin/xpath/psi/impl/xpath/XPathTypedFunctionTestPsiImpl.kt:50-71 | a complete `function(P…) as R` test reads back its parameter and return types and renders as `function(P…) as R` |
| TypedFunctionTest.NoAsNoReturnType | src/lang-xpath/main/uk/co/reecedunn/intellij/plugin/xpath/psi/impl/xpath/XPathTypedFunctionTestPsiImpl.kt:56-66 | without an `as` keyword there is no return type and the type name ends in `as item()*` |
| UriLiteral.Context | src/lang-xquery/main/uk/co/reecedunn/intellij/plugin/xquery/psi/impl/xquery/XQueryUriLiteralPsiImpl.kt:57-71 | each context is given by exactly its parents: a location for location lists and stylesheet imports, a collation for collation declarations, grouping specs and order modifiers, a target namespace for module and schema imports, stop words, thesaurus, base URI and namespace declaration for their own parents, and the default namespace context for every other parent |
| UriLiteral.ModuleTypes | src/lang-xquery/main/uk/co/reecedunn/intellij/plugin/xquery/psi/impl/xquery/XQueryUriLiteralPsiImpl.kt:73-88 | stylesheets only for a stylesheet import; modules for module declarations, module imports, namespace, using and default-namespace declarations and a location list inside a module import; schemas for schema imports, the same three declarations and a location list inside a schema import; nothing (`NONE`) otherwise |
| UriLiteral.NamespaceModulesHaveNamespaceContext | src/lang-xquery/main/uk/co/reecedunn/intellij/plugin/xquery/psi/impl/xquery/XQueryUriLiteralPsiImpl.kt:57-88 | a URI that can name a module and is not a location is read in a namespace context, so the module resolver accepts it |
| UriLiteral.Data | src/lang-xquery/main/uk/co/reecedunn/intellij/plugin/xquery/psi/impl/xquery/XQueryUriLiteralPsiImpl.kt:90-108 | the string delimiters contribute nothing to the value |
| UriLiteral.DataAppend | src/lang-xquery/main/uk/co/reecedunn/intellij/plugin/xquery/psi/impl/xquery/XQueryUriLiteralPsiImpl.kt:93-107 | the value and the text are both built child by child, in order, with no separator |
| UriLiteral.VerbatimData | src/lang-xquery/main/uk/co/reecedunn/intellij/plugin/xquery/psi/impl/xquery/XQueryUriLiteralPsiImpl.kt:104-105 | a literal without entity, character reference or escape has its text as its value |
| UriLiteral.ReferenceRange | src/lang-xquery/main/uk/co/reecedunn/intellij/plugin/xquery/psi/impl/xquery/XQueryUriLiteralPsiImpl.kt:44-47 | the reference range starts after the opening quote and stops before the closing one |
| UriLiteral.ReferenceCoversData | src/lang-xquery/main/uk/co/reecedunn/intellij/plugin/xquery/psi/impl/xquery/XQueryUriLiteralPsiImpl.kt:93-107 | for a verbatim literal, the reference range covers exactly the literal's value (also lines 44-47) |
| UriLiteral.DecodedParts | src/lang-xquery/main/uk/co/reecedunn/intellij/plugin/xquery/psi/impl/xquery/XQueryUriLiteralPsiImpl.kt:98-103 | entity references, character references and escapes contribute their decoded character, not their text |
| Xqst0118.Problems | src/main/java/uk/co/reecedunn/intellij/plugin/xquery/codeInspection/xqst/XQST0118.kt:37-59 | at most one problem per element constructor |
| Xqst0118.CheckNode | src/main/java/uk/co/reecedunn/intellij/plugin/xquery/codeInspection/xqst/XQST0118.kt:38-58 | one pass of the loop reports the walked node's element when its tags are checked and mismatched, and nothing otherwise |
| Xqst0118.WalkEnd | src/main/java/uk/co/reecedunn/intellij/plugin/xquery/codeInspection/xqst/XQST0118.kt:37 | nothing is reported past the end of the tree walk |
| Xqst0118.CheckFile | src/main/java/uk/co/reecedunn/intellij/plugin/xquery/codeInspection/xqst/XQST0118.kt:33-61 | null for a file that is not an XQuery module; otherwise, with its loop, exactly the problems of the element constructors met in tree-walk order |
| Xqst0118.WalkStep | src/main/java/uk/co/reecedunn/intellij/plugin/xquery/codeInspection/xqst/XQST0118.kt:37-59 | each walked node adds its element's report before those of the nodes after it |
| Xqst0118.ProblemsCons | src/main/java/uk/co/reecedunn/intellij/plugin/xquery/codeInspection/xqst/XQST0118.kt:37-59 | the first element's report comes before those of the rest |
| Xqst0118.ProblemsAppend | src/main/java/uk/co/reecedunn/intellij/plugin/xquery/codeInspection/xqst/XQST0118.kt:36-60 | problems accumulate in walk order: the problems of a concatenation are the concatenation of the problems |
| Xqst0118.ReportedIffMismatched | src/main/java/uk/co/reecedunn/intellij/plugin/xquery/codeInspection/xqst/XQST0118.kt:40-58 | an element adds exactly one problem, on its closing tag and naming both tags, when both tags have a local name and differ in prefix or local name; otherwise it adds nothing |
| Xqst0118.ProblemsAreOnClosingTags | src/main/java/uk/co/reecedunn/intellij/plugin/xquery/codeInspection/xqst/XQST0118.kt:42-57 | every problem is on the closing tag of a mismatched element |
| Xqst0031.CheckFile | src/main/java/uk/co/reecedunn/intellij/plugin/xquery/codeInspection/xqst/XQST0031.kt:33-97 | null for a file that is not an XQuery module; otherwise, with its loop, the problems of the version entries in order, or the cast exception the source throws |
| Xqst0031.PrependNothing | src/main/java/uk/co/reecedunn/intellij/plugin/xquery/codeInspection/xqst/XQST0031.kt:37 | no problem so far leaves the outcome as it is (also line 96) |
| Xqst0031.PrependTwice | src/main/java/uk/co/reecedunn/intellij/plugin/xquery/codeInspection/xqst/XQST0031.kt:37 | problems are collected in order: adding two batches is adding their concatenation (also lines 51 and 96) |
| Xqst0031.SameVersionLater | src/main/java/uk/co/reecedunn/intellij/plugin/xquery/codeInspection/xqst/XQST0031.kt:80-94 | once the main version is fixed, further supported entries at that version raise nothing |
| Xqst0031.ConsistentVersionsAreAccepted | src/main/java/uk/co/reecedunn/intellij/plugin/xquery/codeInspection/xqst/XQST0031.kt:38-95 | a module whose every declaration names a supported version mapping to the first one's version raises no problem |
| Xqst0031.LaterDifferentVersionReported | src/main/java/uk/co/reecedunn/intellij/plugin/xquery/codeInspection/xqst/XQST0031.kt:41-94 | a later declaration whose supported version differs from the main version is reported as a different version for the transaction |
| Xqst0031.ProblemsOnDeclarations | src/main/java/uk/co/reecedunn/intellij/plugin/xquery/codeInspection/xqst/XQST0031.kt:45-92 | at most one problem per entry, every problem on some entry's declaration, and every unrecognised declared version reported as unsupported |
| SaxonProfiler.EnterStep | src/plugin-saxon/main/uk/co/reecedunn/intellij/plugin/saxon/query/s9api/profiler/SaxonProfileTraceListener.kt:63-70 | a clause-info instruction changes nothing; any other is pushed with the current time and count 1; the results are untouched |
| SaxonProfiler.LeaveAggregates | src/plugin-saxon/main/uk/co/reecedunn/intellij/plugin/saxon/query/s9api/profiler/SaxonProfileTraceListener.kt:72-88 | leaving a non-clause-info instruction pops the stack, adds one to that instruction's count and the popped duration to its total time, and leaves every other instruction's figures alone |
| SaxonProfiler.ReplayCounts | src/plugin-saxon/main/uk/co/reecedunn/intellij/plugin/saxon/query/s9api/profiler/SaxonProfileTraceListener.kt:63-88 | after a trace, an instruction's count has grown by its number of `leave` events, and the stack depth by the enters less the leaves |
| SaxonProfiler.ClauseInfoIgnored | src/plugin-saxon/main/uk/co/reecedunn/intellij/plugin/saxon/query/s9api/profiler/SaxonProfileTraceListener.kt:66-76 | a trace of clause-info instructions alone changes nothing |
| SaxonProfiler.ProfileTraceListener.constructor | src/plugin-saxon/main/uk/co/reecedunn/intellij/plugin/saxon/query/s9api/profiler/SaxonProfileTraceListener.kt:44-49 | a new listener has elapsed time 0, no creation date, an empty stack and no results |
| SaxonProfiler.ProfileTraceListener.OnStart | src/plugin-saxon/main/uk/co/reecedunn/intellij/plugin/saxon/query/s9api/profiler/SaxonProfileTraceListener.kt:54-57 | `onstart` records the start time and the creation date and nothing else |
| SaxonProfiler.ProfileTraceListener.OnFinish | src/plugin-saxon/main/uk/co/reecedunn/intellij/plugin/saxon/query/s9api/profiler/SaxonProfileTraceListener.kt:59-61 | `onfinish` turns the start time into the elapsed time |
| SaxonProfiler.ProfileTraceListener.Enter | src/plugin-saxon/main/uk/co/reecedunn/intellij/plugin/saxon/query/s9api/profiler/SaxonProfileTraceListener.kt:63-70 | `enter` updates the stack and results as EnterStep says |
| SaxonProfiler.ProfileTraceListener.Leave | src/plugin-saxon/main/uk/co/reecedunn/intellij/plugin/saxon/query/s9api/profiler/SaxonProfileTraceListener.kt:72-88 | `leave` updates the stack and results as the leave step says, or throws EmptyStackException on an empty stack and changes nothing |
| SaxonProfiler.Digits | src/plugin-saxon/main/uk/co/reecedunn/intellij/plugin/saxon/query/s9api/profiler/SaxonProfileTraceListener.kt:94 | the magnitude of a hash code is written as a non-empty string of decimal digits without leading zeros that reads back as the number |
| SaxonProfiler.Decimal | src/plugin-saxon/main/uk/co/reecedunn/intellij/plugin/saxon/query/s9api/profiler/SaxonProfileTraceListener.kt:94 | a hash code is written with a leading `-` exactly when it is negative, and the text reads back as the hash code |
| SaxonProfiler.ToProfileEntry | src/plugin-saxon/main/uk/co/reecedunn/intellij/plugin/saxon/query/s9api/profiler/SaxonProfileTraceListener.kt:91-101 | an entry has the instruction's hash code as its id (the id reads back as it), the record's count, the total time as both self and total time, and the object name (or "") as context |
| SaxonProfiler.ToProfileReport | src/plugin-saxon/main/uk/co/reecedunn/intellij/plugin/saxon/query/s9api/profiler/SaxonProfileTraceListener.kt:103-115 | the report carries the listener's elapsed time, creation date and version, and lists a root entry covering the elapsed time, then one entry per stored instruction |
| SaxonProfiler.DistinctCoversMap | src/plugin-saxon/main/uk/co/reecedunn/intellij/plugin/saxon/query/s9api/profiler/SaxonProfileTraceListener.kt:112 | iterating the results map visits as many instructions as it stores |
| WordsScanner.RunEnd | src/lang-xpath/main/uk/co/reecedunn/intellij/plugin/xpath/lang/findUsages/XPathWordsScanner.kt:58-72 | a word runs over name-start, name, digit, dot and hyphen characters and stops at the first other character or the end of the token |
| WordsScanner.ScanFindsWords | src/lang-xpath/main/uk/co/reecedunn/intellij/plugin/xpath/lang/findUsages/XPathWordsScanner.kt:54-82 | every occurrence found in a token has the token's kind and is a whole word: it starts at a name-start character and runs to the end of its word characters |
| WordsScanner.ScanOrdered | src/lang-xpath/main/uk/co/reecedunn/intellij/plugin/xpath/lang/findUsages/XPathWordsScanner.kt:54-82 | the words of a token come in text order and do not overlap |
| WordsScanner.ScanCoversNameStarts | src/lang-xpath/main/uk/co/reecedunn/intellij/plugin/xpath/lang/findUsages/XPathWordsScanner.kt:58-64 | every name-start character of the token lies inside a reported word |
| WordsScanner.ScanSkips | src/lang-xpath/main/uk/co/reecedunn/intellij/plugin/xpath/lang/findUsages/XPathWordsScanner.kt:73-80 | a character that cannot start a word is skipped |
| WordsScanner.ScanStartsWord | src/lang-xpath/main/uk/co/reecedunn/intellij/plugin/xpath/lang/findUsages/XPathWordsScanner.kt:58-64 | a name-start character starts a word that runs to the end of its run |
| WordsScanner.ScanEnds | src/lang-xpath/main/uk/co/reecedunn/intellij/plugin/xpath/lang/findUsages/XPathWordsScanner.kt:65-70 | at the end of the token no further word is found |
| WordsScanner.RunContinues | src/lang-xpath/main/uk/co/reecedunn/intellij/plugin/xpath/lang/findUsages/XPathWordsScanner.kt:63-72 | a word character continues the current word |
| WordsScanner.FeedStopsAtRefusal | src/lang-xpath/main/uk/co/reecedunn/intellij/plugin/xpath/lang/findUsages/XPathWordsScanner.kt:40-76 | the processor is handed a prefix of the occurrences: all of them exactly when it refuses none, otherwise up to and including the first refused one |
| WordsScanner.FeedNothing | src/lang-xpath/main/uk/co/reecedunn/intellij/plugin/xpath/lang/findUsages/XPathWordsScanner.kt:70 | with nothing to hand over, the scan goes on |
| WordsScanner.FeedOne | src/lang-xpath/main/uk/co/reecedunn/intellij/plugin/xpath/lang/findUsages/XPathWordsScanner.kt:68-76 | an occurrence is handed over, then the rest only if it was accepted |
| WordsScanner.FeedAppend | src/lang-xpath/main/uk/co/reecedunn/intellij/plugin/xpath/lang/findUsages/XPathWordsScanner.kt:35-51 | handing over two runs of occurrences is handing over the first and, if all were accepted, the second |
| WordsScanner.AllOccurrencesStep | src/lang-xpath/main/uk/co/reecedunn/intellij/plugin/xpath/lang/findUsages/XPathWordsScanner.kt:35-51 | the tokens' occurrences come token by token, in lexer order |
| WordsScanner.AllOccurrencesEnd | src/lang-xpath/main/uk/co/reecedunn/intellij/plugin/xpath/lang/findUsages/XPathWordsScanner.kt:35 | no token, no occurrence |
| WordsScanner.Scanner.constructor | src/lang-xpath/main/uk/co/reecedunn/intellij/plugin/xpath/lang/findUsages/XPathWordsScanner.kt:29-31 | a new scanner starts with an empty code point range |
| WordsScanner.Scanner.ProcessToken | src/lang-xpath/main/uk/co/reecedunn/intellij/plugin/xpath/lang/findUsages/XPathWordsScanner.kt:54-82 | with its loop, `processToken` hands the token's words to the processor in order and returns false exactly when the processor refuses one |
| WordsScanner.Scanner.ProcessTokenWords | src/lang-xpath/main/uk/co/reecedunn/intellij/plugin/xpath/lang/findUsages/XPathWordsScanner.kt:36-48 | comments give comment words, string literals literal words, numeric literals one whole code occurrence, every other token code words |
| WordsScanner.Scanner.ProcessWordsEx | src/lang-xpath/main/uk/co/reecedunn/intellij/plugin/xpath/lang/findUsages/XPathWordsScanner.kt:33-52 | with its loop, the processor is handed the occurrences of all tokens in order and the scan stops at the first refused one |
| ValueTemplateLexer.ContentsEnd | src/lang-xslt/main/uk/co/reecedunn/intellij/plugin/xslt/lexer/XsltValueTemplateLexer.kt:52-63 | literal contents run up to the next brace or the end of the buffer and contain no brace |
| ValueTemplateLexer.NextToken | src/lang-xslt/main/uk/co/reecedunn/intellij/plugin/xslt/lexer/XsltValueTemplateLexer.kt:27-65 | at the end of the buffer there is no token; `{{` and `}}` are escaped characters of two characters, a lone `{` opens a block, a lone `}` closes one, anything else is contents up to the next brace |
| ValueTemplateLexer.DefaultTokensStep | src/lang-xslt/main/uk/co/reecedunn/intellij/plugin/xslt/lexer/XsltValueTemplateLexer.kt:27-65 | any token but an opening brace is followed by the tokens from its end |
| ValueTemplateLexer.DefaultTokensOpen | src/lang-xslt/main/uk/co/reecedunn/intellij/plugin/xslt/lexer/XsltValueTemplateLexer.kt:39-40 | an opening brace switches to the expression state, ending the default-state tokens |
| ValueTemplateLexer.DefaultTokensNone | src/lang-xslt/main/uk/co/reecedunn/intellij/plugin/xslt/lexer/XsltValueTemplateLexer.kt:30-31 | no tokens once the buffer is exhausted |
| ValueTemplateLexer.DefaultTokensEnd | src/lang-xslt/main/uk/co/reecedunn/intellij/plugin/xslt/lexer/XsltValueTemplateLexer.kt:30-31 | no tokens at the end of the buffer |
| ValueTemplateLexer.DefaultTokensInText | src/lang-xslt/main/uk/co/reecedunn/intellij/plugin/xslt/lexer/XsltValueTemplateLexer.kt:27-65 | the tokens lie within the text, are non-empty, and each starts where the previous one ended |
| ValueTemplateLexer.DefaultTokensSpellText | src/lang-xslt/main/uk/co/reecedunn/intellij/plugin/xslt/lexer/XsltValueTemplateLexer.kt:27-65 | the tokens, read one after the other, spell the text they cover with nothing lost or repeated |
| ValueTemplateLexer.DefaultTokensStopAtBlockOpen | src/lang-xslt/main/uk/co/reecedunn/intellij/plugin/xslt/lexer/XsltValueTemplateLexer.kt:33-41 | the tokens cover the text to its end unless an opening brace, only ever the last token, stops them |
| ValueTemplateLexer.ContentsEndAt | src/lang-xslt/main/uk/co/reecedunn/intellij/plugin/xslt/lexer/XsltValueTemplateLexer.kt:52-63 | the contents end at the first brace, or at the end of the buffer |
| ValueTemplateLexer.Lexer.constructor | src/lang-xslt/main/uk/co/reecedunn/intellij/plugin/xslt/lexer/XsltValueTemplateLexer.kt:24 | a new lexer starts at offset 0 with no token and no pushed state |
| ValueTemplateLexer.Lexer.StateDefault | src/lang-xslt/main/uk/co/reecedunn/intellij/plugin/xslt/lexer/XsltValueTemplateLexer.kt:27-65 | with its loop, the token range and type are those of NextToken, and the expression state is pushed exactly after an opening brace |
| ValueTemplateLexer.Lexer.Advance | src/lang-xslt/main/uk/co/reecedunn/intellij/plugin/xslt/lexer/XsltValueTemplateLexer.kt:70-74 | in the default state the next token is lexed from the end of the previous one; any other state is handed to the XPath lexer and changes nothing here |
| ValueTemplateLexer.EscapedBracesTail | src/lang-xslt/test/uk/co/reecedunn/intellij/plugin/xslt/tests/lexer/XsltValueTemplateLexerTest.kt:37-47 | the end of the escaped-braces example: `}}` then ` dolor.` |
| ValueTemplateLexer.EscapedBracesMiddle | src/lang-xslt/test/uk/co/reecedunn/intellij/plugin/xslt/tests/lexer/XsltValueTemplateLexerTest.kt:37-47 | the middle of the escaped-braces example: `{{` then `ipsum` |
| ValueTemplateLexer.EscapedBraces | src/lang-xslt/test/uk/co/reecedunn/intellij/plugin/xslt/tests/lexer/XsltValueTemplateLexerTest.kt:37-47 | `Lorem {{ipsum}} dolor.` lexes as contents, escape, contents, escape, contents |
| ValueTemplateLexer.EnclosedExpressionStops | src/lang-xslt/test/uk/co/reecedunn/intellij/plugin/xslt/tests/lexer/XsltValueTemplateLexerTest.kt:77-82 | in `One {2} Three` the contents `One ` and the opening brace are the default-state tokens |
| CommentLineExtractor.SkipOnce | src/lang-xqdoc/main/uk/co/reecedunn/intellij/plugin/xqdoc/parser/XQDocCommentLineExtractor.kt:56-59 | one pass of the skipping loop moves past at most one TRIM and then at most one WHITE_SPACE, and stays put only when at neither |
| CommentLineExtractor.SkipTrivia | src/lang-xqdoc/main/uk/co/reecedunn/intellij/plugin/xqdoc/parser/XQDocCommentLineExtractor.kt:55-60 | the skipping loop only moves forward, within the tokens |
| CommentLineExtractor.DescriptionEnd | src/lang-xqdoc/main/uk/co/reecedunn/intellij/plugin/xqdoc/parser/XQDocCommentLineExtractor.kt:94-97 | the end of a description line lies at or after its start, within the tokens |
| CommentLineExtractor.NextLine | src/lang-xqdoc/main/uk/co/reecedunn/intellij/plugin/xqdoc/parser/XQDocCommentLineExtractor.kt:54-101 | the position after `next` lies within the tokens and never moves back |
| CommentLineExtractor.Extractor.constructor | src/lang-xqdoc/main/uk/co/reecedunn/intellij/plugin/xqdoc/parser/XQDocCommentLineExtractor.kt:75-83 | a comment is xqDoc exactly when its first token is the `~` marker, which is then consumed; no line has been found yet |
| CommentLineExtractor.Extractor.Next | src/lang-xqdoc/main/uk/co/reecedunn/intellij/plugin/xqdoc/parser/XQDocCommentLineExtractor.kt:54-73 | `next` returns true exactly when a line is found, sets the text and range of that line, and clears both when there is none |
| CommentLineExtractor.Extractor.SkipLeadingTrivia | src/lang-xqdoc/main/uk/co/reecedunn/intellij/plugin/xqdoc/parser/XQDocCommentLineExtractor.kt:55-60 | with its loop, skips TRIM and WHITE_SPACE tokens as SkipTrivia says and changes nothing else |
| CommentLineExtractor.Extractor.ParseEmptyDescriptionLine | src/lang-xqdoc/main/uk/co/reecedunn/intellij/plugin/xqdoc/parser/XQDocCommentLineExtractor.kt:85-89 | a TRIM gives the empty line at the start of that token and is consumed |
| CommentLineExtractor.Extractor.ParseDescriptionLine | src/lang-xqdoc/main/uk/co/reecedunn/intellij/plugin/xqdoc/parser/XQDocCommentLineExtractor.kt:91-101 | with its loop, the line runs from the CONTENTS token to the end of the last description-line token after it, and its text is that part of the comment |
| CommentLineExtractor.LineIsCommentText | src/lang-xqdoc/main/uk/co/reecedunn/intellij/plugin/xqdoc/parser/XQDocCommentLineExtractor.kt:86-100 | every line's text is exactly the part of the comment its range covers |
| CommentLineExtractor.DescriptionEndStops | src/lang-xqdoc/main/uk/co/reecedunn/intellij/plugin/xqdoc/parser/XQDocCommentLineExtractor.kt:94-97 | every token of a description line is a description-line token and the one after it is not |
| CommentLineExtractor.ContentLineSpansDescriptionTokens | src/lang-xqdoc/main/uk/co/reecedunn/intellij/plugin/xqdoc/parser/XQDocCommentLineExtractor.kt:64-101 | a line found at CONTENTS starts at that token and ends with the last description-line token after it |
| CommentLineExtractor.StartSkipsBlankLines | src/lang-xqdoc/main/uk/co/reecedunn/intellij/plugin/xqdoc/parser/XQDocCommentLineExtractor.kt:55-60 | at the start of the comment every blank line is skipped: no TRIM is left after the loop |
| CommentLineExtractor.FirstLineIsNotBlank | src/lang-xqdoc/main/uk/co/reecedunn/intellij/plugin/xqdoc/parser/XQDocCommentLineExtractor.kt:55-65 | the first line found is never an empty line |
| CommentLineExtractor.LaterLinesSkipOneTrim | src/lang-xqdoc/main/uk/co/reecedunn/intellij/plugin/xqdoc/parser/XQDocCommentLineExtractor.kt:55-61 | after the first line the loop runs once: at most one TRIM and one WHITE_SPACE are skipped |
| CommentLineExtractor.TrimIsEmptyLine | src/lang-xqdoc/main/uk/co/reecedunn/intellij/plugin/xqdoc/parser/XQDocCommentLineExtractor.kt:65-89 | a TRIM left after skipping is an empty line at the start of that TRIM |
| CommentLineExtractor.NextLineFoundIff | src/lang-xqdoc/main/uk/co/reecedunn/intellij/plugin/xqdoc/parser/XQDocCommentLineExtractor.kt:63-72 | a line is found exactly when the token after skipping is CONTENTS or TRIM |
| XQDocLexer.Run | src/lang-xquery/main/uk/co/reecedunn/intellij/plugin/xquery/lexer/XQDocLexer.kt:34-37 | a run ends at the first code point that does not continue it, or at the end of the buffer, and every code point inside it continues it |
| XQDocLexer.EntityReference | src/lang-xquery/main/uk/co/reecedunn/intellij/plugin/xquery/lexer/XQDocLexer.kt:28-90 | an entity reference consumes at least its `&` and stays within the buffer |
| XQDocLexer.NamedReferenceAfterStart | src/lang-xquery/main/uk/co/reecedunn/intellij/plugin/xquery/lexer/XQDocLexer.kt:31-43 | the rest of a named reference stays within the buffer |
| XQDocLexer.CharacterReferenceAfterHash | src/lang-xquery/main/uk/co/reecedunn/intellij/plugin/xquery/lexer/XQDocLexer.kt:44-83 | the rest of a character reference stays within the buffer |
| XQDocLexer.NewlineTrim | src/lang-xquery/main/uk/co/reecedunn/intellij/plugin/xquery/lexer/XQDocLexer.kt:368-385 | a line break starts a TRIM token that leaves the state stack alone |
| XQDocLexer.ContentsState | src/lang-xquery/main/uk/co/reecedunn/intellij/plugin/xquery/lexer/XQDocLexer.kt:109-140 | the contents state gives a token exactly when it consumes a character, and stays within the buffer |
| XQDocLexer.XQueryContentsState | src/lang-xquery/main/uk/co/reecedunn/intellij/plugin/xquery/lexer/XQDocLexer.kt:142-167 | the plain-comment contents state gives a token exactly when it consumes a character |
| XQDocLexer.TrimState | src/lang-xquery/main/uk/co/reecedunn/intellij/plugin/xquery/lexer/XQDocLexer.kt:357-402 | the trim state gives the token up exactly at a character that is not a space, tab or line break, unless it is an `@` in an xqDoc comment |
| XQDocLexer.DefaultState | src/lang-xquery/main/uk/co/reecedunn/intellij/plugin/xquery/lexer/XQDocLexer.kt:92-107 | the default state gives a token exactly when it consumes a character |
| XQDocLexer.TagName | src/lang-xquery/main/uk/co/reecedunn/intellij/plugin/xquery/lexer/XQDocLexer.kt:442-451 | `param` alone is typed T_PARAM, and a name is the generic `Tag` exactly when it is not one of the eight known tag names |
| XQDocLexer.TaggedContentsState | src/lang-xquery/main/uk/co/reecedunn/intellij/plugin/xquery/lexer/XQDocLexer.kt:169-192 | the tag-name state gives a token exactly when it consumes a character; a tag name is the whole alphanumeric run, typed by `TagNames` (`Tag` for an unknown name), and only `param` replaces the state with the parameter state; a run of spaces and tabs is white space that pops the state |
| XQDocLexer.ParamTagContentsStartState | src/lang-xquery/main/uk/co/reecedunn/intellij/plugin/xquery/lexer/XQDocLexer.kt:194-211 | the state after `@param` gives a token exactly when it consumes a character; spaces and tabs are one white-space token that keeps the state; `$` is a one-character variable indicator that moves on to the name state |
| XQDocLexer.ParamTagVarNameState | src/lang-xquery/main/uk/co/reecedunn/intellij/plugin/xquery/lexer/XQDocLexer.kt:213-244 | the parameter-name state gives a token exactly when it consumes a character; a name-start character begins one NCName token running over the whole NCName and keeping the state; white space is one token that pops the state |
| XQDocLexer.ElemConstructorState | src/lang-xquery/main/uk/co/reecedunn/intellij/plugin/xquery/lexer/XQDocLexer.kt:246-301 | the XML tag state gives a token exactly when it consumes a character; a tag name is the whole alphanumeric run and keeps the state; an invalid token is produced exactly for a character that starts no tag token (a `/` not followed by `>` among them), is one character long and keeps the state |
| XQDocLexer.SelfClosingTag | src/lang-xquery/main/uk/co/reecedunn/intellij/plugin/xquery/lexer/XQDocLexer.kt:280-288 | `/>` inside a tag is one self-closing token of two characters that leaves the tag's state |
| XQDocLexer.InvalidInTag | src/lang-xquery/main/uk/co/reecedunn/intellij/plugin/xquery/lexer/XQDocLexer.kt:280-300 | a stray character or a lone `/` inside a tag is a one-character invalid token and the state is kept |
| XQDocLexer.ElemContentsState | src/lang-xquery/main/uk/co/reecedunn/intellij/plugin/xquery/lexer/XQDocLexer.kt:303-336 | the XML contents state gives a token exactly when it consumes a character |
| XQDocLexer.AttributeValueState | src/lang-xquery/main/uk/co/reecedunn/intellij/plugin/xquery/lexer/XQDocLexer.kt:338-355 | the attribute value state gives a token exactly when it consumes a character |
| XQDocLexer.Dispatch | src/lang-xquery/main/uk/co/reecedunn/intellij/plugin/xquery/lexer/XQDocLexer.kt:407-420 | `advance(state)`: an unknown state at the top of the stack is the "Invalid state" error carrying that state; a known one gives a token exactly when it consumes a character |
| XQDocLexer.KnownStatesLex | src/lang-xquery/main/uk/co/reecedunn/intellij/plugin/xquery/lexer/XQDocLexer.kt:407-420 | a stack of known states never raises the invalid-state error |
| XQDocLexer.EndOfBufferIsNull | src/lang-xquery/main/uk/co/reecedunn/intellij/plugin/xquery/lexer/XQDocLexer.kt:407-418 | at the end of the buffer every state gives a null token type and consumes nothing (also lines 94 and 360) |
| XQDocLexer.NamedReferenceKinds | src/lang-xquery/main/uk/co/reecedunn/intellij/plugin/xquery/lexer/XQDocLexer.kt:31-43 | `&` then a name start character is a predefined reference exactly when it ends with `;`, and partial otherwise |
| XQDocLexer.EntityReferenceKinds | src/lang-xquery/main/uk/co/reecedunn/intellij/plugin/xquery/lexer/XQDocLexer.kt:28-90 | `&name;` is predefined, `&#digits;` and `&#xhex;` are character references, `&;`, `&#;` and `&#x;` are empty, and a partial reference never ends at a `;` |
| XQDocLexer.HexReferenceKinds | src/lang-xquery/main/uk/co/reecedunn/intellij/plugin/xquery/lexer/XQDocLexer.kt:47-66 | the `&#x` case of the reference kinds |
| XQDocLexer.DecimalReferenceKinds | src/lang-xquery/main/uk/co/reecedunn/intellij/plugin/xquery/lexer/XQDocLexer.kt:67-83 | the `&#` decimal case of the reference kinds |
| XQDocLexer.CharacterReferenceKinds | src/lang-xquery/main/uk/co/reecedunn/intellij/plugin/xquery/lexer/XQDocLexer.kt:44-83 | a reference starting `&#` is a character reference only with its digits and `;`, empty exactly for `&#;` and `&#x;`, and complete exactly when it ends with `;` |
| XQDocLexer.PartialStopsBeforeMismatch | src/lang-xquery/test/uk/co/reecedunn/intellij/plugin/xquery/tests/lexer/XQDocLexerTest.kt:120-150 | `&abc!` is a partial reference of four characters, `&amp;` a predefined one, `&#x;` an empty one (also lines 226-228) |
| XQDocLexer.TrimShape | src/lang-xquery/main/uk/co/reecedunn/intellij/plugin/xquery/lexer/XQDocLexer.kt:368-385 | a line trim is one line break (CR, LF or CR LF), then spaces and tabs, then at most one `:`, and takes all of them |
| XQDocLexer.TagMarkerOnlyInXQDoc | src/lang-xquery/main/uk/co/reecedunn/intellij/plugin/xquery/lexer/XQDocLexer.kt:386-396 | `@` after a line trim is a tag marker in an xqDoc comment and plain contents in any other comment |
| XQDocLexer.CommentMarker | src/lang-xquery/main/uk/co/reecedunn/intellij/plugin/xquery/lexer/XQDocLexer.kt:95-100 | a leading `~` is the xqDoc marker and pushes the contents and trim states |
| XQDocLexer.TagClosing | src/lang-xquery/main/uk/co/reecedunn/intellij/plugin/xquery/lexer/XQDocLexer.kt:246-301 | `>` ends an opening tag and enters the element contents; it ends a closing tag by popping alone |
| XQDocLexer.ParamTag | src/lang-xquery/test/uk/co/reecedunn/intellij/plugin/xquery/tests/lexer/XQDocLexerTest.kt:698-711 | after `@`, `param $x` lexes as the `param` tag, white space, a variable indicator and an NCName |
| XQDocLexer.TagNameTyped | src/lang-xquery/main/uk/co/reecedunn/intellij/plugin/xquery/lexer/XQDocLexer.kt:169-180 | for every text and stack, a whole alphanumeric name after `@` is one token typed by `TagNames`, and the state moves to the parameter state exactly for `param` |
| XQDocLexer.DollarAfterParam | src/lang-xquery/main/uk/co/reecedunn/intellij/plugin/xquery/lexer/XQDocLexer.kt:202-206 | for every text and stack, `$` after `@param` is a variable indicator that moves on to the name state |
| XQDocLexer.NCNameAfterDollar | src/lang-xquery/main/uk/co/reecedunn/intellij/plugin/xquery/lexer/XQDocLexer.kt:222-237 | for every text and stack, a whole NCName after `$` is one NCName token and the state is kept |
| XQDocLexer.ParamTagName | src/lang-xquery/test/uk/co/reecedunn/intellij/plugin/xquery/tests/lexer/XQDocLexerTest.kt:705 | `param` is the T_PARAM tag and enters the parameter state |
| XQDocLexer.ParamTagSpace | src/lang-xquery/test/uk/co/reecedunn/intellij/plugin/xquery/tests/lexer/XQDocLexerTest.kt:706 | the space after `@param` is white space |
| XQDocLexer.ParamTagVariable | src/lang-xquery/test/uk/co/reecedunn/intellij/plugin/xquery/tests/lexer/XQDocLexerTest.kt:707-708 | `$` is a variable indicator, followed by the parameter's NCName |
| XQDocLexer.Lexer.constructor | src/lang-xquery/main/uk/co/reecedunn/intellij/plugin/xquery/lexer/XQDocLexer.kt:25 | lexing begins at the start of the buffer with no token and the initial state on the stack |
| XQDocLexer.Lexer.MatchWhile | src/lang-xquery/main/uk/co/reecedunn/intellij/plugin/xquery/lexer/XQDocLexer.kt:34-54 | with its loop, the token is extended over exactly the run of matching code points |
| XQDocLexer.Lexer.MatchNamedReference | src/lang-xquery/main/uk/co/reecedunn/intellij/plugin/xquery/lexer/XQDocLexer.kt:31-43 | with its loop, the token and its type are those of the named reference |
| XQDocLexer.Lexer.MatchEntityReference | src/lang-xquery/main/uk/co/reecedunn/intellij/plugin/xquery/lexer/XQDocLexer.kt:28-90 | the token and its type are those of EntityReference |
| XQDocLexer.Lexer.MatchCharacterReference | src/lang-xquery/main/uk/co/reecedunn/intellij/plugin/xquery/lexer/XQDocLexer.kt:44-83 | with its loops, the token and its type are those of the character reference |
| XQDocLexer.Lexer.MatchNewlineTrim | src/lang-xquery/main/uk/co/reecedunn/intellij/plugin/xquery/lexer/XQDocLexer.kt:368-385 | the token, type and stack are those of NewlineTrim |
| XQDocLexer.Lexer.LexContents | src/lang-xquery/main/uk/co/reecedunn/intellij/plugin/xquery/lexer/XQDocLexer.kt:109-140 | the token, type and stack are those of ContentsState |
| XQDocLexer.Lexer.LexXQueryContents | src/lang-xquery/main/uk/co/reecedunn/intellij/plugin/xquery/lexer/XQDocLexer.kt:142-167 | the token, type and stack are those of XQueryContentsState |
| XQDocLexer.Lexer.LexTrim | src/lang-xquery/main/uk/co/reecedunn/intellij/plugin/xquery/lexer/XQDocLexer.kt:357-402 | the token, type and stack are those of TrimState, or the trim state is popped to lex again below it |
| XQDocLexer.Lexer.LexDefault | src/lang-xquery/main/uk/co/reecedunn/intellij/plugin/xquery/lexer/XQDocLexer.kt:92-107 | the token, type and stack are those of DefaultState |
| XQDocLexer.Lexer.LexTaggedContents | src/lang-xquery/main/uk/co/reecedunn/intellij/plugin/xquery/lexer/XQDocLexer.kt:169-192 | the token, type and stack are those of TaggedContentsState |
| XQDocLexer.Lexer.LexParamTagContentsStart | src/lang-xquery/main/uk/co/reecedunn/intellij/plugin/xquery/lexer/XQDocLexer.kt:194-211 | the token, type and stack are those of ParamTagContentsStartState |
| XQDocLexer.Lexer.LexParamTagVarName | src/lang-xquery/main/uk/co/reecedunn/intellij/plugin/xquery/lexer/XQDocLexer.kt:213-244 | the token, type and stack are those of ParamTagVarNameState |
| XQDocLexer.Lexer.LexElemConstructor | src/lang-xquery/main/uk/co/reecedunn/intellij/plugin/xquery/lexer/XQDocLexer.kt:246-301 | the token, type and stack are those of ElemConstructorState |
| XQDocLexer.Lexer.LexElemContents | src/lang-xquery/main/uk/co/reecedunn/intellij/plugin/xquery/lexer/XQDocLexer.kt:303-336 | the token, type and stack are those of ElemContentsState |
| XQDocLexer.Lexer.LexAttributeValue | src/lang-xquery/main/uk/co/reecedunn/intellij/plugin/xquery/lexer/XQDocLexer.kt:338-355 | the token, type and stack are those of AttributeValueState |
| XQDocLexer.Lexer.AdvanceState | src/lang-xquery/main/uk/co/reecedunn/intellij/plugin/xquery/lexer/XQDocLexer.kt:407-420 | with its loop, the token is Dispatch's, or the invalid-state error carrying the unknown state |
| XQDocLexer.Lexer.Advance | src/lang-xquery/main/uk/co/reecedunn/intellij/plugin/xquery/lexer/XQDocLexer.kt:407-420 | `advance()`: the next token starts where the last one ended and is Dispatch's |
| PsiTree.Follow | src/kotlin-intellij/main/uk/co/reecedunn/intellij/plugin/core/sequences/PsiElement.kt:84-129 | each link leads to a node or null; child and next-sibling links lead forwards, parent, previous-sibling and reversed-walk links backwards |
| PsiTree.Chain | src/kotlin-intellij/main/uk/co/reecedunn/intellij/plugin/core/sequences/PsiElement.kt:58-69 | an iterator yields only nodes of the tree, and nothing exactly when it starts from null |
| PsiTree.ChainSteps | src/kotlin-intellij/main/uk/co/reecedunn/intellij/plugin/core/sequences/PsiElement.kt:64-67 | consecutive yielded nodes are one link apart, and the iterator stops where the link is null |
| PsiTree.ChainMonotone | src/kotlin-intellij/main/uk/co/reecedunn/intellij/plugin/core/sequences/PsiElement.kt:58-69 | a chain never repeats a node (it strictly increases or strictly decreases), so every iteration ends |
| PsiTree.ChainIterator.constructor | src/kotlin-intellij/main/uk/co/reecedunn/intellij/plugin/core/sequences/PsiElement.kt:58-61 | a new iterator has the whole chain from its start node still to yield |
| PsiTree.ChainIterator.Next | src/kotlin-intellij/main/uk/co/reecedunn/intellij/plugin/core/sequences/PsiElement.kt:64-68 | `next` returns the current node and moves one link on; what is left is the rest of the chain |
| PsiTree.CollectChain | src/kotlin-intellij/main/uk/co/reecedunn/intellij/plugin/core/sequences/PsiElement.kt:58-69 | with its loop, draining the iterator yields exactly the chain |
| PsiTree.AncestorsAndSelfAddsSelf | src/kotlin-intellij/main/uk/co/reecedunn/intellij/plugin/core/sequences/PsiElement.kt:83-89 | `ancestorsAndSelf()` is the node followed by `ancestors()`, and every ancestor precedes the node |
| PsiTree.DescendantsAreFirstChildren | src/kotlin-intellij/main/uk/co/reecedunn/intellij/plugin/core/sequences/PsiElement.kt:91-93 | `descendants()` is the first-child chain: each node is the first child of the one before it |
| PsiTree.PrevChainRetraces | src/kotlin-intellij/main/uk/co/reecedunn/intellij/plugin/core/sequences/PsiElement.kt:95-116 | walking back by previous siblings from a node of a sibling list retraces the list |
| PsiTree.SiblingsShareParent | src/kotlin-intellij/main/uk/co/reecedunn/intellij/plugin/core/sequences/PsiElement.kt:111-116 | every node of a next-sibling chain has the same parent as its start |
| PsiTree.ChildrenReversedIsReverse | src/kotlin-intellij/main/uk/co/reecedunn/intellij/plugin/core/sequences/PsiElement.kt:95-109 | `children().reversed()` yields exactly the children in reverse order |
| PsiTree.LastChildHasFirst | src/kotlin-intellij/main/uk/co/reecedunn/intellij/plugin/core/sequences/PsiElement.kt:95-109 | a node with a last child has a first child |
| PsiTree.PrevSiblingsShareParent | src/kotlin-intellij/main/uk/co/reecedunn/intellij/plugin/core/sequences/PsiElement.kt:111-116 | every node of a previous-sibling chain has the same parent as its start |
| PsiTree.Walk | src/kotlin-intellij/main/uk/co/reecedunn/intellij/plugin/core/sequences/PsiElement.kt:25-56 | `walkTree()` starts at the node and visits only the node and nodes after it (also lines 118-120) |
| PsiTree.PendingPush | src/kotlin-intellij/main/uk/co/reecedunn/intellij/plugin/core/sequences/PsiElement.kt:45-51 | pushing a node puts its walk in front of what is still pending |
| PsiTree.TreeIterator.constructor | src/kotlin-intellij/main/uk/co/reecedunn/intellij/plugin/core/sequences/PsiElement.kt:28-30 | a new tree iterator has the whole walk from its node still to yield |
| PsiTree.TreeIterator.Drained | src/kotlin-intellij/main/uk/co/reecedunn/intellij/plugin/core/sequences/PsiElement.kt:32 | nothing is left once the stack is empty |
| PsiTree.TreeIterator.Next | src/kotlin-intellij/main/uk/co/reecedunn/intellij/plugin/core/sequences/PsiElement.kt:34-55 | `next` pops a node, pushes its next sibling unless its parent is a directory, then its first child, and returns the popped node; what is left is the rest of the walk |
| PsiTree.PushedRight | src/kotlin-intellij/main/uk/co/reecedunn/intellij/plugin/core/sequences/PsiElement.kt:42-47 | the next sibling is pushed only when it exists and the parent is not a directory |
| PsiTree.PushedLeft | src/kotlin-intellij/main/uk/co/reecedunn/intellij/plugin/core/sequences/PsiElement.kt:49-52 | the first child is pushed only when it exists |
| PsiTree.PushRightPending | src/kotlin-intellij/main/uk/co/reecedunn/intellij/plugin/core/sequences/PsiElement.kt:42-47 | pushing the next sibling adds its walk, unless the parent is a directory |
| PsiTree.PushLeftPending | src/kotlin-intellij/main/uk/co/reecedunn/intellij/plugin/core/sequences/PsiElement.kt:49-52 | pushing the first child adds its walk in front |
| PsiTree.PopAndPush | src/kotlin-intellij/main/uk/co/reecedunn/intellij/plugin/core/sequences/PsiElement.kt:34-55 | one step of the tree iterator keeps what is pending, less the node it yields |
| PsiTree.WalkTree | src/kotlin-intellij/main/uk/co/reecedunn/intellij/plugin/core/sequences/PsiElement.kt:25-56 | with its loop, draining the tree iterator yields exactly the preorder walk (also lines 118-120) |
| PsiTree.WalkVisitsSiblings | src/kotlin-intellij/main/uk/co/reecedunn/intellij/plugin/core/sequences/PsiElement.kt:37-47 | the walk from a node whose parent is not a directory visits all its following siblings |
| PsiTree.WalkVisitsChildren | src/kotlin-intellij/main/uk/co/reecedunn/intellij/plugin/core/sequences/PsiElement.kt:49-52 | the walk from a node that is not a directory visits each of its children |
| PsiTree.Reversed | src/kotlin-intellij/main/uk/co/reecedunn/intellij/plugin/core/sequences/PsiElement.kt:78-80 | `reversed()` keeps the node and swaps the two generators |
| PsiTree.ReversedChildren | src/kotlin-intellij/main/uk/co/reecedunn/intellij/plugin/core/sequences/PsiElement.kt:71-109 | reversing twice gives the original sequence, and reversed `children()` yields the children backwards |
| PsiTree.FilterIsElementType | src/kotlin-intellij/main/uk/co/reecedunn/intellij/plugin/core/sequences/PsiElement.kt:134-140 | the filter keeps, in order, exactly the nodes whose element type is wanted |
| PsiTree.FilterAppend | src/kotlin-intellij/main/uk/co/reecedunn/intellij/plugin/core/sequences/PsiElement.kt:134-140 | filtering keeps order: the filter of a concatenation is the concatenation of the filters |
| CharacterClasses.ClassOf | src/lang-xquery/main/uk/co/reecedunn/intellij/plugin/xquery/lexer/XQDocLexer.kt:30-44 | `getCharClass`: `;`, `#`, digits, XML white space and name start characters are each told apart exactly (also line 84) |
| SchemaTypesParser.CommentContentsEnd | src/lang-xslt/main/uk/co/reecedunn/intellij/plugin/xslt/parser/XsltSchemaTypesParser.kt:54 | the comment text ends at the first token that is not comment text |
| SchemaTypesParser.SchemaComment | src/lang-xslt/main/uk/co/reecedunn/intellij/plugin/xslt/parser/XsltSchemaTypesParser.kt:50-65 | a comment or a stray `:)` matches exactly at those tokens, and becomes one "comment-in-schema-type" error node over what it consumed |
| SchemaTypesParser.XPathComment | src/lang-xslt/main/uk/co/reecedunn/intellij/plugin/xslt/parser/XsltSchemaTypesParser.kt:44-46 | the XPath comment rule matches exactly at a comment start or a stray comment end, and consumes it |
| SchemaTypesParser.Comment | src/lang-xslt/main/uk/co/reecedunn/intellij/plugin/xslt/parser/XsltSchemaTypesParser.kt:44-48 | `parseComment` matches exactly at a comment start or end, by the XPath rule in value templates and sequence types and by the schema rule elsewhere |
| SchemaTypesParser.Trivia | src/lang-xslt/main/uk/co/reecedunn/intellij/plugin/xslt/parser/XsltSchemaTypesParser.kt:38-79 | white space and comments are consumed without moving back or beyond the tokens |
| SchemaTypesParser.Item | src/lang-xslt/main/uk/co/reecedunn/intellij/plugin/xslt/parser/XsltSchemaTypesParser.kt:103-107 | a matched XPath item is one completed node over what it consumed |
| SchemaTypesParser.HashedKeyword | src/lang-xslt/main/uk/co/reecedunn/intellij/plugin/xslt/parser/XsltSchemaTypesParser.kt:113-123 | a hashed keyword matches exactly at `#` followed by an NCName, and is one completed node over both tokens |
| SchemaTypesParser.HashedKeywordAsWritten | src/lang-xslt/main/uk/co/reecedunn/intellij/plugin/xslt/parser/XsltSchemaTypesParser.kt:113-123 | as written, the rule returns true exactly when the corrected rule matches, with the same outcome |
| SchemaTypesParser.EQNameOrHashedKeyword | src/lang-xslt/main/uk/co/reecedunn/intellij/plugin/xslt/parser/XsltSchemaTypesParser.kt:109-111 | the alternative consumes what the chosen branch consumes |
| SchemaTypesParser.ListItem | src/lang-xslt/main/uk/co/reecedunn/intellij/plugin/xslt/parser/XsltSchemaTypesParser.kt:107-126 | a list item consumes at least one token |
| SchemaTypesParser.ListFrom | src/lang-xslt/main/uk/co/reecedunn/intellij/plugin/xslt/parser/XsltSchemaTypesParser.kt:75-82 | the list loop stays within the tokens |
| SchemaTypesParser.SchemaList | src/lang-xslt/main/uk/co/reecedunn/intellij/plugin/xslt/parser/XsltSchemaTypesParser.kt:75-82 | a list matches exactly when its first item does |
| SchemaTypesParser.ValueTemplatePart | src/lang-xslt/main/uk/co/reecedunn/intellij/plugin/xslt/parser/XsltSchemaTypesParser.kt:89-96 | each part of a value template consumes at least one token |
| SchemaTypesParser.ValueTemplateFrom | src/lang-xslt/main/uk/co/reecedunn/intellij/plugin/xslt/parser/XsltSchemaTypesParser.kt:87-101 | the value-template loop stays within the tokens |
| SchemaTypesParser.ValueTemplateOf | src/lang-xslt/main/uk/co/reecedunn/intellij/plugin/xslt/parser/XsltSchemaTypesParser.kt:87-101 | a value template matches exactly when its first part does |
| SchemaTypesParser.SchemaTypeOf | src/lang-xslt/main/uk/co/reecedunn/intellij/plugin/xslt/parser/XsltSchemaTypesParser.kt:67-73 | a language other than the four parses nothing; a match consumes tokens |
| SchemaTypesParser.ParseOf | src/lang-xslt/main/uk/co/reecedunn/intellij/plugin/xslt/parser/XsltSchemaTypesParser.kt:36-42 | `parse` succeeds exactly when the schema type does |
| SchemaTypesParser.ParseItem | src/lang-xslt/main/uk/co/reecedunn/intellij/plugin/xslt/parser/XsltSchemaTypesParser.kt:103-107 | the builder reaches exactly the outcome Item gives |
| SchemaTypesParser.ParseCommentContents | src/lang-xslt/main/uk/co/reecedunn/intellij/plugin/xslt/parser/XsltSchemaTypesParser.kt:54 | with its loop, the builder moves to the end of the comment text and adds no marker |
| SchemaTypesParser.ParseSchemaComment | src/lang-xslt/main/uk/co/reecedunn/intellij/plugin/xslt/parser/XsltSchemaTypesParser.kt:50-65 | the builder reaches exactly the outcome SchemaComment gives |
| SchemaTypesParser.ParseXPathComment | src/lang-xslt/main/uk/co/reecedunn/intellij/plugin/xslt/parser/XsltSchemaTypesParser.kt:44-46 | the builder reaches exactly the outcome XPathComment gives |
| SchemaTypesParser.ParseComment | src/lang-xslt/main/uk/co/reecedunn/intellij/plugin/xslt/parser/XsltSchemaTypesParser.kt:44-48 | the builder reaches exactly the outcome Comment gives |
| SchemaTypesParser.ParseWhiteSpaceAndCommentTokens | src/lang-xslt/main/uk/co/reecedunn/intellij/plugin/xslt/parser/XsltSchemaTypesParser.kt:38-79 | with its loop, the builder moves over the trivia and adds its nodes |
| SchemaTypesParser.ParseHashedKeyword | src/lang-xslt/main/uk/co/reecedunn/intellij/plugin/xslt/parser/XsltSchemaTypesParser.kt:113-123 | the builder reaches exactly the outcome HashedKeyword gives: unchanged when false |
| SchemaTypesParser.ParseHashedKeywordAsWritten | src/lang-xslt/main/uk/co/reecedunn/intellij/plugin/xslt/parser/XsltSchemaTypesParser.kt:113-123 | the builder reaches the outcome of the rule as written, open marker included |
| SchemaTypesParser.ParseEQNameOrHashedKeyword | src/lang-xslt/main/uk/co/reecedunn/intellij/plugin/xslt/parser/XsltSchemaTypesParser.kt:109-111 | the builder reaches exactly the outcome EQNameOrHashedKeyword gives |
| SchemaTypesParser.ParseListItem | src/lang-xslt/main/uk/co/reecedunn/intellij/plugin/xslt/parser/XsltSchemaTypesParser.kt:107-126 | the builder reaches exactly the outcome ListItem gives |
| SchemaTypesParser.ParseSchemaList | src/lang-xslt/main/uk/co/reecedunn/intellij/plugin/xslt/parser/XsltSchemaTypesParser.kt:75-82 | with its loop, the builder reaches exactly the outcome SchemaList gives |
| SchemaTypesParser.ParseValueTemplatePart | src/lang-xslt/main/uk/co/reecedunn/intellij/plugin/xslt/parser/XsltSchemaTypesParser.kt:89-96 | the builder reaches exactly the outcome ValueTemplatePart gives |
| SchemaTypesParser.ParseValueTemplate | src/lang-xslt/main/uk/co/reecedunn/intellij/plugin/xslt/parser/XsltSchemaTypesParser.kt:87-101 | with its loop, the builder reaches exactly the outcome ValueTemplateOf gives |
| SchemaTypesParser.ParseSchemaType | src/lang-xslt/main/uk/co/reecedunn/intellij/plugin/xslt/parser/XsltSchemaTypesParser.kt:67-73 | the builder reaches exactly the outcome SchemaTypeOf gives |
| SchemaTypesParser.Parse | src/lang-xslt/main/uk/co/reecedunn/intellij/plugin/xslt/parser/XsltSchemaTypesParser.kt:36-42 | the builder reaches exactly the outcome ParseOf gives |
| SchemaTypesParser.TriviaStops | src/lang-xslt/main/uk/co/reecedunn/intellij/plugin/xslt/parser/XsltSchemaTypesParser.kt:38-79 | the trivia loop stops at a token that is neither white space nor a comment token |
| SchemaTypesParser.ParseConsumesTrailingTrivia | src/lang-xslt/main/uk/co/reecedunn/intellij/plugin/xslt/parser/XsltSchemaTypesParser.kt:36-42 | after a schema type, `parse` has consumed all the white space and comments after it |
| SchemaTypesParser.ListFromStops | src/lang-xslt/main/uk/co/reecedunn/intellij/plugin/xslt/parser/XsltSchemaTypesParser.kt:77 | the list loop stops only where no further item matches |
| SchemaTypesParser.SchemaListMaximal | src/lang-xslt/main/uk/co/reecedunn/intellij/plugin/xslt/parser/XsltSchemaTypesParser.kt:75-82 | a matched list runs to a token where no item matches |
| SchemaTypesParser.SchemaListSkipsTrivia | src/lang-xslt/main/uk/co/reecedunn/intellij/plugin/xslt/parser/XsltSchemaTypesParser.kt:77-80 | each item of a list is followed by its trivia; the next item starts after them |
| SchemaTypesParser.ValueTemplateFromStops | src/lang-xslt/main/uk/co/reecedunn/intellij/plugin/xslt/parser/XsltSchemaTypesParser.kt:89-97 | the value-template loop stops only where no part matches |
| SchemaTypesParser.ValueTemplateMaximal | src/lang-xslt/main/uk/co/reecedunn/intellij/plugin/xslt/parser/XsltSchemaTypesParser.kt:87-101 | a value template ends at a token that is none of value contents, escaped brace or `}`, and where no enclosed expression starts |
| SchemaTypesParser.StrayBlockCloseIsMismatched | src/lang-xslt/main/uk/co/reecedunn/intellij/plugin/xslt/parser/XsltSchemaTypesParser.kt:92-95 | a stray `}` in a value template is consumed as a "mismatched enclosed expression" error node |
| SchemaTypesParser.CommentInSchemaIsError | src/lang-xslt/main/uk/co/reecedunn/intellij/plugin/xslt/parser/XsltSchemaTypesParser.kt:44-65 | outside value templates and sequence types a comment or stray `:)` is one "comment-in-schema-type" error node |
| SchemaTypesParser.EQNameTriedFirst | src/lang-xslt/main/uk/co/reecedunn/intellij/plugin/xslt/parser/XsltSchemaTypesParser.kt:109-111 | an EQName is tried first; the hashed keyword rule is used only when no EQName matches |
| SchemaTypesParser.HashedKeywordAsWrittenLeavesMarkerOpen | src/lang-xslt/main/uk/co/reecedunn/intellij/plugin/xslt/parser/XsltSchemaTypesParser.kt:113-123 | as written, a `#` without an NCName after it returns false having consumed the `#` and left its marker open |
| SchemaTypesParser.HashFollowedBySpace | src/lang-xslt/main/uk/co/reecedunn/intellij/plugin/xslt/parser/XsltSchemaTypesParser.kt:113-123 | on `# all` the rule as written leaves an open marker where the corrected rule gives nothing back |
| SchemaTypesParser.ParseLeavesNoOpenMarker | src/lang-xslt/main/uk/co/reecedunn/intellij/plugin/xslt/parser/XsltSchemaTypesParser.kt:36-42 | every marker the corrected parse adds is closed |
| TreeBuilder.Builder.constructor | src/main/java/uk/co/reecedunn/intellij/plugin/xquery/parser/XQueryParser.java:34-37 | a new builder is at the first token with no markers and none open |
| TreeBuilder.Builder.AdvanceLexer | src/main/java/uk/co/reecedunn/intellij/plugin/xquery/parser/XQueryParser.java:124-126 | `advanceLexer` moves to the next token, does nothing at the end, and leaves the markers alone |
| TreeBuilder.Builder.Mark | src/main/java/uk/co/reecedunn/intellij/plugin/xquery/parser/XQueryParser.java:116-118 | `mark` opens a new marker at the current token, on top of the open ones |
| TreeBuilder.Builder.Done | src/main/java/uk/co/reecedunn/intellij/plugin/xquery/parser/XQueryParser.java:70 | `done` completes the innermost open marker as a node ending at the current token |
| TreeBuilder.Builder.MarkerError | src/main/java/uk/co/reecedunn/intellij/plugin/xquery/parser/XQueryParser.java:78-80 | `error` on a marker completes it as an error node carrying the message |
| TreeBuilder.Builder.Drop | src/main/java/uk/co/reecedunn/intellij/plugin/xquery/parser/XQueryParser.java:162 | `drop` closes the marker without building a node |
| TreeBuilder.Builder.RollbackTo | src/lang-xslt/main/uk/co/reecedunn/intellij/plugin/xslt/parser/XsltSchemaTypesParser.kt:113-123 | `rollbackTo` returns the cursor to the marker and discards it with every marker after it; the source never calls it, and the corrected hashed-keyword parser uses it to undo the `#` marker when no NCName follows |
| TreeBuilder.Builder.Error | src/main/java/uk/co/reecedunn/intellij/plugin/xquery/parser/XQueryParser.java:128-130 | `builder.error` adds an empty error node at the current token |
| TreeBuilder.Builder.MatchTokenType | src/main/java/uk/co/reecedunn/intellij/plugin/xquery/parser/XQueryParser.java:89-95 | `matchTokenType` consumes the token exactly when it is the one asked for, and adds no marker |
| TreeBuilder.Builder.MatchTokenTypeWithMarker | src/main/java/uk/co/reecedunn/intellij/plugin/xquery/parser/XQueryParser.java:97-104 | on the token asked for, opens a marker there and consumes the token; otherwise changes nothing |
| TreeBuilder.Builder.ErrorOnTokenType | src/main/java/uk/co/reecedunn/intellij/plugin/xquery/parser/XQueryParser.java:106-114 | on the token asked for, consumes it as an error node carrying the message; otherwise changes nothing |
| XQuerySyntax.Match | src/main/java/uk/co/reecedunn/intellij/plugin/xquery/parser/XQueryParser.java:89-95 | `matchTokenType` stays within the tokens; it consumes one token exactly when that token is the one asked for |
| XQuerySyntax.MatchEither | src/main/java/uk/co/reecedunn/intellij/plugin/xquery/parser/XQueryParser.java:89-95 | either of two tokens, consumed; stays within the tokens |
| XQuerySyntax.Syntax | src/main/java/uk/co/reecedunn/intellij/plugin/xquery/parser/XQueryParser.java:57-87 | the trivia, string literal and QName rules stay within the tokens, and each rule but the local part consumes a token when it succeeds |
| XQuerySyntax.TriviaItem | src/main/java/uk/co/reecedunn/intellij/plugin/xquery/parser/XQueryParser.java:60-85 | one pass of the skipping loop succeeds exactly on white space, `(:`, `:)` or an entity reference outside a string, and then consumes it; otherwise it consumes and builds nothing |
| XQuerySyntax.Trivia | src/main/java/uk/co/reecedunn/intellij/plugin/xquery/parser/XQueryParser.java:57-87 | `skipWhiteSpaceAndCommentTokens` returns true exactly when it consumed something, and builds nothing when it returns false |
| XQuerySyntax.StringLiteralFrom | src/main/java/uk/co/reecedunn/intellij/plugin/xquery/parser/XQueryParser.java:1742-1758 | the loop of `parseStringLiteral` stays within the tokens and has consumed the closing delimiter when it returns true |
| XQuerySyntax.StringLiteral | src/main/java/uk/co/reecedunn/intellij/plugin/xquery/parser/XQueryParser.java:1740-1760 | `parseStringLiteral` matches exactly at an opening delimiter and then consumes it; otherwise it consumes and builds nothing |
| XQuerySyntax.LocalPart | src/main/java/uk/co/reecedunn/intellij/plugin/xquery/parser/XQueryParser.java:1784-1799 | the part after a QName's `:` always succeeds and stays within the tokens |
| XQuerySyntax.AfterPrefix | src/main/java/uk/co/reecedunn/intellij/plugin/xquery/parser/XQueryParser.java:1767-1805 | the rest of a QName after its first name stays within the tokens and consumes the `:` when it finds one |
| XQuerySyntax.QName | src/main/java/uk/co/reecedunn/intellij/plugin/xquery/parser/XQueryParser.java:1762-1824 | `parseQName` matches exactly at a name or a `:`; when it does not match it consumes nothing and its marker is dropped |
| XQuerySyntax.TriviaStep | src/main/java/uk/co/reecedunn/intellij/plugin/xquery/parser/XQueryParser.java:57-87 | a skipped item is followed by the rest of the skipping loop, and the loop's result is true |
| XQuerySyntax.StringLiteralStep | src/main/java/uk/co/reecedunn/intellij/plugin/xquery/parser/XQueryParser.java:1743-1757 | one pass of the literal loop: a content token or an entity reference continues (an incomplete or empty reference adds its error node), the end delimiter stops with success, anything else stops with "incomplete-string" |
| XQuerySyntax.StringLiteralStarts | src/main/java/uk/co/reecedunn/intellij/plugin/xquery/parser/XQueryParser.java:1740-1760 | a literal at its opening delimiter is one node spanning the delimiter and the loop after it |
| XQuerySyntax.StringLiteralAbsent | src/main/java/uk/co/reecedunn/intellij/plugin/xquery/parser/XQueryParser.java:1741-1759 | without an opening delimiter `parseStringLiteral` returns false and builds nothing |
| XQuerySyntax.QNamePrefixed | src/main/java/uk/co/reecedunn/intellij/plugin/xquery/parser/XQueryParser.java:1764-1806 | a QName starting with a name is one node, QName when the rest finds a `:` and NCName otherwise |
| XQuerySyntax.QNameMissingPrefix | src/main/java/uk/co/reecedunn/intellij/plugin/xquery/parser/XQueryParser.java:1809-1820 | a QName starting with `:` is an error node over the `:` and the trivia after it |
| XQuerySyntax.QNameAbsent | src/main/java/uk/co/reecedunn/intellij/plugin/xquery/parser/XQueryParser.java:1822-1823 | with neither a name nor a `:` `parseQName` returns false and its marker is dropped |
| XQuerySyntax.LocalPartStep | src/main/java/uk/co/reecedunn/intellij/plugin/xquery/parser/XQueryParser.java:1784-1799 | the local part: white space after the `:` is reported, then a missing local name is reported when no name follows |
| XQuerySyntax.AfterPrefixStep | src/main/java/uk/co/reecedunn/intellij/plugin/xquery/parser/XQueryParser.java:1767-1805 | after the first name: white space, then either a `:` (white space before it reported, an NCName asked for reported) and the local part, or no `:` with the white-space marker dropped |
| XQueryPaths.EnclosedExprAbsent | src/main/java/uk/co/reecedunn/intellij/plugin/xquery/parser/XQueryParser.java:951-972 | without `{` `parseEnclosedExpr` returns false, drops its marker and consumes nothing |
| XQueryPaths.EnclosedExprFound | src/main/java/uk/co/reecedunn/intellij/plugin/xquery/parser/XQueryParser.java:951-973 | at `{`: the trivia, the expression (or "expected expression"), the trivia, and `}` (or "expected }" only when no error was reported before) |
| XQueryPaths.LocationHintsStep | src/main/java/uk/co/reecedunn/intellij/plugin/xquery/parser/XQueryParser.java:693-700 | one location hint: the trivia, a URI literal, or "expected-uri-string" when no error was reported before, then the trivia and another pass only on a `,` |
| XQueryPaths.AtClauseStep | src/main/java/uk/co/reecedunn/intellij/plugin/xquery/parser/XQueryParser.java:692-701 | an optional `at` followed by the location hints; no `at` leaves the outcome unchanged |
| XQueryProperties.TriviaMessagesOnly | src/main/java/uk/co/reecedunn/intellij/plugin/xquery/parser/XQueryParser.java:57-87 | skipping white space and comments reports only an unclosed comment, a stray `:)` or an entity reference outside a string |
| XQueryProperties.StringContentsEnd | src/main/java/uk/co/reecedunn/intellij/plugin/xquery/parser/XQueryParser.java:1742-1758 | the literal loop ends just after the end delimiter with no "incomplete-string", or at the first token that cannot continue a literal with "incomplete-string" reported there last; it reports only entity and string errors |
| XQueryProperties.StringLiteralClosed | src/main/java/uk/co/reecedunn/intellij/plugin/xquery/parser/XQueryParser.java:1740-1760 | a string literal node is always closed: it spans from the opening delimiter to the closing one, or to the token it stopped at where "incomplete-string" is reported |
| XQueryProperties.LocalPartMessages | src/main/java/uk/co/reecedunn/intellij/plugin/xquery/parser/XQueryParser.java:1784-1799 | the local part reports white space after the `:`, and a missing local name, exactly when the tokens hold them |
| XQueryProperties.AfterPrefixNoColon | src/main/java/uk/co/reecedunn/intellij/plugin/xquery/parser/XQueryParser.java:1767-1773 | without a `:` the rest of a QName returns false and reports only what the white space does |
| XQueryProperties.AfterPrefixColon | src/main/java/uk/co/reecedunn/intellij/plugin/xquery/parser/XQueryParser.java:1767-1802 | with a `:` the rest of a QName reports exactly: white space before it, an NCName asked for, and what the local part reports |
| XQueryProperties.AfterPrefixColonParts | src/main/java/uk/co/reecedunn/intellij/plugin/xquery/parser/XQueryParser.java:1767-1802 | with a `:` the rest of a QName succeeds, and its messages split into white space before it, what the trivia reports, an NCName asked for, and what the local part reports (white space after the `:` exactly when there is some, a missing local name exactly when no name follows) |
| XQueryProperties.AfterPrefixColonMessages | src/main/java/uk/co/reecedunn/intellij/plugin/xquery/parser/XQueryParser.java:1767-1802 | with a `:` each QName error is reported exactly when the tokens hold it, and a missing prefix never is |
| XQueryProperties.AfterPrefixNoColonMessages | src/main/java/uk/co/reecedunn/intellij/plugin/xquery/parser/XQueryParser.java:1767-1773 | without a `:` the rest of a QName returns false and reports none of the QName errors |
| XQueryProperties.AfterPrefixMessages | src/main/java/uk/co/reecedunn/intellij/plugin/xquery/parser/XQueryParser.java:1767-1805 | after the first name, each QName error is reported exactly when the tokens hold it, and a missing prefix never is |
| XQueryProperties.QNameAfterName | src/main/java/uk/co/reecedunn/intellij/plugin/xquery/parser/XQueryParser.java:1762-1806 | a QName starting with a name is one node, QName exactly when a `:` follows; its four errors are each reported exactly when the tokens hold them and "missing prefix" never is |
| XQueryProperties.QNameLeadingColon | src/main/java/uk/co/reecedunn/intellij/plugin/xquery/parser/XQueryParser.java:1809-1820 | a QName starting with `:` is one error node: "missing prefix", or the NCName-not-QName error when an NCName was asked for |
| XQueryRules.Item | src/main/java/uk/co/reecedunn/intellij/plugin/xquery/parser/XQueryParser.java:977 | a construct found by a rule this model does not spell out (an ExprSingle, a type declaration, a sequence type, a direct comment, a CDATA section) is one node that consumes at least one token; when not found, nothing is consumed or built |
| XQueryRules.PartOf | src/main/java/uk/co/reecedunn/intellij/plugin/xquery/parser/XQueryParser.java:413-426 | a token, a QName, a literal or an item parser as a part of a declaration stays within the tokens from the cursor |
| XQueryRules.Basic | src/main/java/uk/co/reecedunn/intellij/plugin/xquery/parser/XQueryParser.java:951-995 | the expression, enclosed expression, location-hint and required-part rules stays within the tokens from the cursor; an expression found consumes a token (behaviour: XQueryPaths.EnclosedExprFound, XQueryRules.ExprFound) |
| XQueryRules.Require | src/main/java/uk/co/reecedunn/intellij/plugin/xquery/parser/XQueryParser.java:418-422 | `skipWhiteSpaceAndCommentTokens` then a required part, reported missing only when nothing was reported before; stays within the tokens from the cursor (the reporting is XQueryDeclProperties.RequireMessages) |
| XQueryRules.Optional | src/main/java/uk/co/reecedunn/intellij/plugin/xquery/parser/XQueryParser.java:808 | `skipWhiteSpaceAndCommentTokens` then an optional part such as a type declaration; stays within the tokens from the cursor |
| XQueryRules.HeaderKeyword | src/main/java/uk/co/reecedunn/intellij/plugin/xquery/parser/XQueryParser.java:401-408 | the keyword of a header-only declaration with its "expected-prolog-body" marker; stays within the tokens from the cursor (behaviour: XQueryPrologProperties.HeaderSettingFlagged) |
| XQueryRules.ExprTail | src/main/java/uk/co/reecedunn/intellij/plugin/xquery/parser/XQueryParser.java:981-989 | the `, ExprSingle` loop of `parseExpr` stays within the tokens from the cursor (behaviour: XQueryRules.ExprTailStop, XQueryRules.ExprTailComma) |
| XQueryRules.Expr | src/main/java/uk/co/reecedunn/intellij/plugin/xquery/parser/XQueryParser.java:975-995 | `parseExpr` stays within the tokens from the cursor and consumes a token when it finds an expression |
| XQueryRules.EnclosedExpr | src/main/java/uk/co/reecedunn/intellij/plugin/xquery/parser/XQueryParser.java:951-973 | `parseEnclosedExpr` stays within the tokens from the cursor (behaviour: XQueryPaths.EnclosedExprAbsent, XQueryPaths.EnclosedExprFound) |
| XQueryRules.LocationHints | src/main/java/uk/co/reecedunn/intellij/plugin/xquery/parser/XQueryParser.java:693-700 | the location-hint loop of an import stays within the tokens from the cursor (behaviour: XQueryPaths.LocationHintsStep) |
| XQueryRules.AtClause | src/main/java/uk/co/reecedunn/intellij/plugin/xquery/parser/XQueryParser.java:692-701 | the optional `at` clause of an import stays within the tokens from the cursor (behaviour: XQueryPaths.AtClauseStep) |
| XQueryRules.Terminated | src/main/java/uk/co/reecedunn/intellij/plugin/xquery/parser/XQueryParser.java:212-224 | the end of a version or module declaration always completes its node and consumes a token (the reporting is XQueryDeclProperties.TerminatedReports) |
| XQueryRules.Head | src/main/java/uk/co/reecedunn/intellij/plugin/xquery/parser/XQueryParser.java:166-294 | the version and module declaration rules stays within the tokens from the cursor, and a declaration found consumes a token |
| XQueryRules.EncodingString | src/main/java/uk/co/reecedunn/intellij/plugin/xquery/parser/XQueryParser.java:201-209 | the string after `encoding` stays within the tokens from the cursor (the reporting is XQueryDeclProperties.EncodingStringReports) |
| XQueryRules.VersionEncoding | src/main/java/uk/co/reecedunn/intellij/plugin/xquery/parser/XQueryParser.java:188-209 | `version S (encoding S)?` stays within the tokens from the cursor (the reporting is XQueryDeclProperties.VersionEncodingReports) |
| XQueryRules.VersionBody | src/main/java/uk/co/reecedunn/intellij/plugin/xquery/parser/XQueryParser.java:171-210 | the body of a version declaration stays within the tokens from the cursor (the reporting is XQueryDeclProperties.VersionBodyReports) |
| XQueryRules.VersionDecl | src/main/java/uk/co/reecedunn/intellij/plugin/xquery/parser/XQueryParser.java:166-227 | `parseVersionDecl` stays within the tokens from the cursor and consumes a token when it matches (XQueryDeclProperties.VersionDeclTerminated) |
| XQueryRules.ModuleDeclBody | src/main/java/uk/co/reecedunn/intellij/plugin/xquery/parser/XQueryParser.java:252-277 | the parts of a module declaration after `module` stays within the tokens from the cursor (XQueryDeclProperties.ModuleDeclBodyReports) |
| XQueryRules.ModuleDecl | src/main/java/uk/co/reecedunn/intellij/plugin/xquery/parser/XQueryParser.java:249-294 | `parseModuleDecl` stays within the tokens from the cursor and consumes a token when it matches (XQueryDeclProperties.ModuleDeclTerminated) |
| XQueryRules.Setting | src/main/java/uk/co/reecedunn/intellij/plugin/xquery/parser/XQueryParser.java:401-677 | the setting declarations stays within the tokens from the cursor |
| XQueryRules.SettingDecl | src/main/java/uk/co/reecedunn/intellij/plugin/xquery/parser/XQueryParser.java:437-457 | `parseBoundarySpaceDecl`, `parseConstructionDecl`, `parseOrderingModeDecl`: a header keyword and one of two keywords; stays within the tokens from the cursor |
| XQueryRules.BaseUriDecl | src/main/java/uk/co/reecedunn/intellij/plugin/xquery/parser/XQueryParser.java:621-641 | `parseBaseURIDecl` stays within the tokens from the cursor |
| XQueryRules.CopyNamespacesDecl | src/main/java/uk/co/reecedunn/intellij/plugin/xquery/parser/XQueryParser.java:572-606 | `parseCopyNamespacesDecl` stays within the tokens from the cursor |
| XQueryRules.NamespaceDecl | src/main/java/uk/co/reecedunn/intellij/plugin/xquery/parser/XQueryParser.java:401-435 | `parseNamespaceDecl` stays within the tokens from the cursor |
| XQueryRules.DefaultNamespaceDecl | src/main/java/uk/co/reecedunn/intellij/plugin/xquery/parser/XQueryParser.java:487-506 | `parseDefaultNamespaceDecl` stays within the tokens from the cursor |
| XQueryRules.EmptyOrderDecl | src/main/java/uk/co/reecedunn/intellij/plugin/xquery/parser/XQueryParser.java:551-570 | `parseEmptyOrderDecl` stays within the tokens from the cursor |
| XQueryRules.DefaultCollationDecl | src/main/java/uk/co/reecedunn/intellij/plugin/xquery/parser/XQueryParser.java:608-619 | `parseDefaultCollationDecl` stays within the tokens from the cursor |
| XQueryRules.OptionDecl | src/main/java/uk/co/reecedunn/intellij/plugin/xquery/parser/XQueryParser.java:508-527 | `parseOptionDecl` stays within the tokens from the cursor |
| XQueryRules.UnknownDecl | src/main/java/uk/co/reecedunn/intellij/plugin/xquery/parser/XQueryParser.java:643-677 | `parseUnknownDecl` stays within the tokens from the cursor (the recovery is XQueryPrologProperties.UnknownDeclRecovers) |
| XQueryRules.Signature | src/main/java/uk/co/reecedunn/intellij/plugin/xquery/parser/XQueryParser.java:791-949 | the variable and function declaration rules stays within the tokens from the cursor, and a parameter found consumes a token |
| XQueryRules.VarValue | src/main/java/uk/co/reecedunn/intellij/plugin/xquery/parser/XQueryParser.java:810-822 | `:= ExprSingle`, `external` or "expected-variable-value" with an expression skipped; stays within the tokens from the cursor |
| XQueryRules.VarDecl | src/main/java/uk/co/reecedunn/intellij/plugin/xquery/parser/XQueryParser.java:791-826 | `parseVarDecl` stays within the tokens from the cursor |
| XQueryRules.Param | src/main/java/uk/co/reecedunn/intellij/plugin/xquery/parser/XQueryParser.java:923-949 | `parseParam` stays within the tokens from the cursor and consumes a token when it finds a parameter |
| XQueryRules.ParamsFrom | src/main/java/uk/co/reecedunn/intellij/plugin/xquery/parser/XQueryParser.java:907-918 | the loop of `parseParamList` stays within the tokens from the cursor |
| XQueryRules.ParamList | src/main/java/uk/co/reecedunn/intellij/plugin/xquery/parser/XQueryParser.java:904-921 | `parseParamList` stays within the tokens from the cursor |
| XQueryRules.ReturnType | src/main/java/uk/co/reecedunn/intellij/plugin/xquery/parser/XQueryParser.java:882-886 | a return type is parsed exactly when `as` follows the parameters; it ends in a sequence-type node, or in the expected-QName-or-keyword error where the sequence type is missing (also lines 1382-1410); it stays within the tokens from the cursor |
| XQueryRules.FunctionBody | src/main/java/uk/co/reecedunn/intellij/plugin/xquery/parser/XQueryParser.java:888-895 | `external` or an enclosed expression, else the error and a skipped expression and `}`; stays within the tokens from the cursor |
| XQueryRules.FunctionTail | src/main/java/uk/co/reecedunn/intellij/plugin/xquery/parser/XQueryParser.java:876-899 | a function declaration after its `(` and parameters; stays within the tokens from the cursor |
| XQueryRules.FunctionSignature | src/main/java/uk/co/reecedunn/intellij/plugin/xquery/parser/XQueryParser.java:868-899 | a function declaration from its `(`; stays within the tokens from the cursor |
| XQueryRules.NodeOf | src/main/java/uk/co/reecedunn/intellij/plugin/xquery/parser/XQueryParser.java:459-485 | the function and default declaration rules stays within the tokens from the cursor |
| XQueryRules.FunctionDecl | src/main/java/uk/co/reecedunn/intellij/plugin/xquery/parser/XQueryParser.java:850-902 | `parseFunctionDecl` stays within the tokens from the cursor (what it builds: XQueryPrologProperties.BodyDeclsAt) |
| XQueryRules.DefaultDecl | src/main/java/uk/co/reecedunn/intellij/plugin/xquery/parser/XQueryParser.java:459-485 | `parseDefaultDecl` stays within the tokens from the cursor (XQueryPrologProperties.DefaultDeclFlagged) |
| XQueryRules.DeclaredOf | src/main/java/uk/co/reecedunn/intellij/plugin/xquery/parser/XQueryParser.java:365-399 | the declaration rules after `declare` stays within the tokens from the cursor |
| XQueryRules.LaterDecl | src/main/java/uk/co/reecedunn/intellij/plugin/xquery/parser/XQueryParser.java:378-395 | the declarations `parseDecl` tries after the first five stays within the tokens from the cursor (XQueryPrologProperties.LaterDeclUnknown) |
| XQueryRules.DeclBody | src/main/java/uk/co/reecedunn/intellij/plugin/xquery/parser/XQueryParser.java:369-396 | the declarations `parseDecl` tries, in its order, stays within the tokens from the cursor (XQueryPrologProperties.DeclBodyUnknown) |
| XQueryRules.ImportPart | src/main/java/uk/co/reecedunn/intellij/plugin/xquery/parser/XQueryParser.java:679-789 | the schema and module import rules stays within the tokens from the cursor |
| XQueryRules.SchemaPrefix | src/main/java/uk/co/reecedunn/intellij/plugin/xquery/parser/XQueryParser.java:707-746 | `parseSchemaPrefix` stays within the tokens from the cursor |
| XQueryRules.SchemaImport | src/main/java/uk/co/reecedunn/intellij/plugin/xquery/parser/XQueryParser.java:679-705 | `parseSchemaImport` stays within the tokens from the cursor |
| XQueryRules.ModuleImportPrefix | src/main/java/uk/co/reecedunn/intellij/plugin/xquery/parser/XQueryParser.java:754-768 | the `namespace NCName =` of a module import stays within the tokens from the cursor |
| XQueryRules.ModuleImport | src/main/java/uk/co/reecedunn/intellij/plugin/xquery/parser/XQueryParser.java:748-789 | `parseModuleImport` stays within the tokens from the cursor |
| XQueryRules.Effective | src/main/java/uk/co/reecedunn/intellij/plugin/xquery/parser/XQueryParser.java:301-303 | the state a declaration is parsed in is never NOT_MATCHED, and is the prolog's state once something matched |
| XQueryRules.Transition | src/main/java/uk/co/reecedunn/intellij/plugin/xquery/parser/XQueryParser.java:306-325 | the prolog state after a match is never NOT_MATCHED: BODY after a BODY declaration, otherwise the state the declaration was parsed in |
| XQueryRules.StateOf | src/main/java/uk/co/reecedunn/intellij/plugin/xquery/parser/XQueryParser.java:296-399 | the declaration, import and prolog loop rules stays within the tokens from the cursor; a declaration or import that matched consumes a token, and the prolog loop started after a match ends matched |
| XQueryRules.Decl | src/main/java/uk/co/reecedunn/intellij/plugin/xquery/parser/XQueryParser.java:365-399 | `parseDecl` stays within the tokens from the cursor and consumes a token when it matches |
| XQueryRules.Import | src/main/java/uk/co/reecedunn/intellij/plugin/xquery/parser/XQueryParser.java:337-363 | `parseImport` stays within the tokens from the cursor and consumes a token when it matches |
| XQueryRules.PrologDecl | src/main/java/uk/co/reecedunn/intellij/plugin/xquery/parser/XQueryParser.java:301-304 | a declaration, else an import; stays within the tokens from the cursor and consumes a token when one matches |
| XQueryRules.PrologSeparator | src/main/java/uk/co/reecedunn/intellij/plugin/xquery/parser/XQueryParser.java:327-332 | the `;` after a declaration is matched exactly when it is there; a missing one is reported and a `:` in its place skipped |
| XQueryRules.PrologFrom | src/main/java/uk/co/reecedunn/intellij/plugin/xquery/parser/XQueryParser.java:300-334 | the loop of `parseProlog` stays within the tokens from the cursor; started after a match it ends matched, and it consumes a token when it first matches |
| XQueryRules.Top | src/main/java/uk/co/reecedunn/intellij/plugin/xquery/parser/XQueryParser.java:44-52 | the module, prolog and parse-loop rules stays within the tokens from the cursor; a pass of the loop before the end consumes a token, and the loop parses to the end |
| XQueryRules.Prolog | src/main/java/uk/co/reecedunn/intellij/plugin/xquery/parser/XQueryParser.java:296-335 | `parseProlog` stays within the tokens from the cursor and consumes a token when it builds a PROLOG (XQueryPrologProperties.PrologPresent) |
| XQueryRules.MainModule | src/main/java/uk/co/reecedunn/intellij/plugin/xquery/parser/XQueryParser.java:229-238 | `parseMainModule` stays within the tokens from the cursor and consumes a token when it matches |
| XQueryRules.LibraryModule | src/main/java/uk/co/reecedunn/intellij/plugin/xquery/parser/XQueryParser.java:240-247 | `parseLibraryModule` stays within the tokens from the cursor and consumes a token when it matches |
| XQueryRules.Module | src/main/java/uk/co/reecedunn/intellij/plugin/xquery/parser/XQueryParser.java:142-164 | `parseModule` stays within the tokens from the cursor and consumes a token when it matches |
| XQueryRules.ParseStep | src/main/java/uk/co/reecedunn/intellij/plugin/xquery/parser/XQueryParser.java:45-51 | a pass of the loop of `parse` before the end consumes at least one token |
| XQueryRules.ParseFrom | src/main/java/uk/co/reecedunn/intellij/plugin/xquery/parser/XQueryParser.java:44-52 | `parse` always runs to the end of the tokens |
| XQueryRules.ExprAbsent | src/main/java/uk/co/reecedunn/intellij/plugin/xquery/parser/XQueryParser.java:975-977 | with no ExprSingle `parseExpr` returns false and drops its marker, consuming nothing |
| XQueryRules.ExprFound | src/main/java/uk/co/reecedunn/intellij/plugin/xquery/parser/XQueryParser.java:975-992 | with an ExprSingle `parseExpr` builds one node over it, the trivia and the comma loop |
| XQueryRules.ExprTailStop | src/main/java/uk/co/reecedunn/intellij/plugin/xquery/parser/XQueryParser.java:981 | the comma loop ends, unchanged, at a token other than `,` |
| XQueryRules.ExprTailComma | src/main/java/uk/co/reecedunn/intellij/plugin/xquery/parser/XQueryParser.java:981-989 | on a `,` the loop consumes it, requires an ExprSingle (reported only when nothing was reported before), skips the trivia and goes on |
| XQueryParser.Parser.constructor | src/main/java/uk/co/reecedunn/intellij/plugin/xquery/parser/XQueryParser.java:34-37 | a parser over the tokens starts at the first token with no markers |
| XQueryParser.Parser.SkipItem | src/main/java/uk/co/reecedunn/intellij/plugin/xquery/parser/XQueryParser.java:60-85 | one pass of the skipping loop returns the result, moves the cursor to the end and appends exactly the markers given by `XQuerySyntax.TriviaItem` |
| XQueryParser.Parser.Skip | src/main/java/uk/co/reecedunn/intellij/plugin/xquery/parser/XQueryParser.java:57-87 | `skipWhiteSpaceAndCommentTokens` returns the result, moves the cursor to the end and appends exactly the markers given by the trivia rule of `XQuerySyntax.Syntax` |
| XQueryParser.Parser.ParseStringPart | src/main/java/uk/co/reecedunn/intellij/plugin/xquery/parser/XQueryParser.java:1743-1753 | consumes one token exactly when it continues a string literal, adding the incomplete- or empty-entity error node it calls for |
| XQueryParser.Parser.CloseStringLiteral | src/main/java/uk/co/reecedunn/intellij/plugin/xquery/parser/XQueryParser.java:1748-1756 | completes the literal's node over the end delimiter, or at the token it stopped at followed by "incomplete-string" |
| XQueryParser.Parser.ParseStringLiteral | src/main/java/uk/co/reecedunn/intellij/plugin/xquery/parser/XQueryParser.java:1740-1760 | `parseStringLiteral` returns the result, moves the cursor to the end and appends exactly the markers given by the string literal rule |
| XQueryParser.Parser.Report | src/main/java/uk/co/reecedunn/intellij/plugin/xquery/parser/XQueryParser.java:418-422 | reports `message` at the cursor exactly when the part was not found and nothing was reported before; the new `haveErrors` is the old one or the part missing |
| XQueryParser.Parser.ParseItem | src/main/java/uk/co/reecedunn/intellij/plugin/xquery/parser/XQueryParser.java:977 | a construct found by an item parser returns the result, moves the cursor to the end and appends exactly the markers given by `XQueryRules.Item` |
| XQueryParser.Parser.ParseLocalPart | src/main/java/uk/co/reecedunn/intellij/plugin/xquery/parser/XQueryParser.java:1784-1799 | the local part of a QName returns the result, moves the cursor to the end and appends exactly the markers given by the local-part rule |
| XQueryParser.Parser.ErrorOrDrop | src/main/java/uk/co/reecedunn/intellij/plugin/xquery/parser/XQueryParser.java:1767-1773 | a marker becomes an error node with `message` when the condition failed and is dropped otherwise; nothing else changes |
| XQueryParser.Parser.ParseSeparator | src/main/java/uk/co/reecedunn/intellij/plugin/xquery/parser/XQueryParser.java:1775-1782 | consumes the `:`, as an error node "expected-ncname-not-qname" exactly when an NCName was asked for |
| XQueryParser.Parser.ParseAfterPrefix | src/main/java/uk/co/reecedunn/intellij/plugin/xquery/parser/XQueryParser.java:1767-1805 | the rest of a QName after its first name returns the result, moves the cursor to the end and appends exactly the markers given by the after-prefix rule |
| XQueryParser.Parser.ParsePrefixedQName | src/main/java/uk/co/reecedunn/intellij/plugin/xquery/parser/XQueryParser.java:1764-1806 | a QName that starts with a name is completed as one node, QNAME when a `:` was found and NCNAME otherwise |
| XQueryParser.Parser.ParseMissingPrefix | src/main/java/uk/co/reecedunn/intellij/plugin/xquery/parser/XQueryParser.java:1809-1820 | a QName that starts with `:` is one error node over the trivia and the local name |
| XQueryParser.Parser.ParseQName | src/main/java/uk/co/reecedunn/intellij/plugin/xquery/parser/XQueryParser.java:1762-1824 | `parseQName` returns the result, moves the cursor to the end and appends exactly the markers given by the QName rule |
| XQueryParser.Parser.ParseHeaderKeyword | src/main/java/uk/co/reecedunn/intellij/plugin/xquery/parser/XQueryParser.java:401-408 | a header declaration's keyword returns the result, moves the cursor to the end and appends exactly the markers given by the header-keyword rule |
| XQueryParser.Parser.ParsePart | src/main/java/uk/co/reecedunn/intellij/plugin/xquery/parser/XQueryParser.java:413-426 | a part of a declaration returns the result, moves the cursor to the end and appends exactly the markers given by `XQueryRules.PartOf` |
| XQueryParser.Parser.ParseRequired | src/main/java/uk/co/reecedunn/intellij/plugin/xquery/parser/XQueryParser.java:418-422 | the trivia and a required part returns the result, moves the cursor to the end and appends exactly the markers given by `XQueryRules.Require` |
| XQueryParser.Parser.ParseOptional | src/main/java/uk/co/reecedunn/intellij/plugin/xquery/parser/XQueryParser.java:807-808 | the trivia and an optional part returns the result, moves the cursor to the end and appends exactly the markers given by `XQueryRules.Optional` |
| XQueryParser.Parser.ParseExprAfterComma | src/main/java/uk/co/reecedunn/intellij/plugin/xquery/parser/XQueryParser.java:982-988 | after a `,`: a required ExprSingle and the trivia, as the rule gives them |
| XQueryParser.Parser.ResumeAfterComma | src/main/java/uk/co/reecedunn/intellij/plugin/xquery/parser/XQueryParser.java:981-989 | one pass of the comma loop consumes input and leaves the rest of the loop still to go equal to the rule's |
| XQueryParser.Parser.ParseExprTail | src/main/java/uk/co/reecedunn/intellij/plugin/xquery/parser/XQueryParser.java:981-989 | the comma loop of `parseExpr` returns the result, moves the cursor to the end and appends exactly the markers given by the expression-tail rule |
| XQueryParser.Parser.ParseExpr | src/main/java/uk/co/reecedunn/intellij/plugin/xquery/parser/XQueryParser.java:975-995 | `parseExpr` returns the result, moves the cursor to the end and appends exactly the markers given by the expression rule |
| XQueryParser.Parser.ParseEnclosedBody | src/main/java/uk/co/reecedunn/intellij/plugin/xquery/parser/XQueryParser.java:955-965 | the body of an enclosed expression: trivia, the expression or "expected expression", trivia and `}` as the rule gives them |
| XQueryParser.Parser.ParseEnclosedExpr | src/main/java/uk/co/reecedunn/intellij/plugin/xquery/parser/XQueryParser.java:951-973 | `parseEnclosedExpr` returns the result, moves the cursor to the end and appends exactly the markers given by the enclosed-expression rule |
| XQueryParser.Parser.ResumeHint | src/main/java/uk/co/reecedunn/intellij/plugin/xquery/parser/XQueryParser.java:693-700 | one pass of the location-hint loop consumes input when it goes on, and when it stops the outcome is the rule's |
| XQueryParser.Parser.ParseLocationHints | src/main/java/uk/co/reecedunn/intellij/plugin/xquery/parser/XQueryParser.java:693-700 | the location hints returns the result, moves the cursor to the end and appends exactly the markers given by the location-hints rule |
| XQueryParser.Parser.ParseAtClause | src/main/java/uk/co/reecedunn/intellij/plugin/xquery/parser/XQueryParser.java:692-701 | the optional `at` clause returns the result, moves the cursor to the end and appends exactly the markers given by the at-clause rule |
| XQueryDeclProperties.QNameMessagesOnly | src/main/java/uk/co/reecedunn/intellij/plugin/xquery/parser/XQueryParser.java:1762-1824 | `parseQName` reports only QName errors and those of the trivia inside it |
| XQueryDeclProperties.StringLiteralMessagesOnly | src/main/java/uk/co/reecedunn/intellij/plugin/xquery/parser/XQueryParser.java:1740-1760 | `parseStringLiteral` reports only entity-reference and incomplete-string errors |
| XQueryDeclProperties.PartMessagesOnly | src/main/java/uk/co/reecedunn/intellij/plugin/xquery/parser/XQueryParser.java:413-426 | a part of a declaration reports only what a QName, a string literal or the trivia can |
| XQueryDeclProperties.RequireMessages | src/main/java/uk/co/reecedunn/intellij/plugin/xquery/parser/XQueryParser.java:418-422 | a required part adds its own message exactly when it is missing and nothing was reported before, and the new `haveErrors` is true exactly when an error was reported before or now |
| XQueryDeclProperties.ModuleDeclMessagesApart | src/main/java/uk/co/reecedunn/intellij/plugin/xquery/parser/XQueryParser.java:255-276 | the four errors of a module declaration are distinct from every error its parts can report |
| XQueryDeclProperties.ModuleDeclBodyStep | src/main/java/uk/co/reecedunn/intellij/plugin/xquery/parser/XQueryParser.java:254-278 | after `module`: `namespace`, an NCName, `=` and a URI literal, each required in turn, then the trivia |
| XQueryDeclProperties.ModuleDeclBodyReports | src/main/java/uk/co/reecedunn/intellij/plugin/xquery/parser/XQueryParser.java:252-277 | the body of a module declaration returns `haveErrors` exactly when one of its own four errors was reported |
| XQueryDeclProperties.TerminatedReports | src/main/java/uk/co/reecedunn/intellij/plugin/xquery/parser/XQueryParser.java:212-224 | the declaration node is completed over the `;` when it is there; "expected ;" is added exactly when the `;` is missing and the body reported nothing, and nothing else is added |
| XQueryDeclProperties.ModuleDeclStep | src/main/java/uk/co/reecedunn/intellij/plugin/xquery/parser/XQueryParser.java:249-294 | `module`, then the body, ended by the `;` handling shared with version declarations |
| XQueryDeclProperties.ModuleDeclTerminated | src/main/java/uk/co/reecedunn/intellij/plugin/xquery/parser/XQueryParser.java:249-294 | `parseModuleDecl` always builds a MODULE_DECL from `module`, including the `;` when present; "expected ;" is reported exactly when the `;` is missing and none of the declaration's own errors was |
| XQueryDeclProperties.VersionDeclMessagesApart | src/main/java/uk/co/reecedunn/intellij/plugin/xquery/parser/XQueryParser.java:189-205 | the errors of a version declaration are distinct from each other, from the version gate, and from those of its parts |
| XQueryDeclProperties.EncodingStringReports | src/main/java/uk/co/reecedunn/intellij/plugin/xquery/parser/XQueryParser.java:201-209 | after `encoding`: `haveErrors` afterwards is true exactly when it was before or "expected-encoding-string" is reported now |
| XQueryDeclProperties.VersionEncodingStep | src/main/java/uk/co/reecedunn/intellij/plugin/xquery/parser/XQueryParser.java:188-209 | `version`, the version string and the trivia, then `encoding S` only when `encoding` follows |
| XQueryDeclProperties.OptionalEncodingReports | src/main/java/uk/co/reecedunn/intellij/plugin/xquery/parser/XQueryParser.java:200-209 | the optional `encoding S`: `haveErrors` is true exactly when it was before or "expected-encoding-string" is reported |
| XQueryDeclProperties.VersionStringReports | src/main/java/uk/co/reecedunn/intellij/plugin/xquery/parser/XQueryParser.java:189-198 | `version S`: `haveErrors` is true exactly when "expected version" or "expected-version-string" is reported |
| XQueryDeclProperties.VersionEncodingReports | src/main/java/uk/co/reecedunn/intellij/plugin/xquery/parser/XQueryParser.java:188-209 | `version S (encoding S)?` returns `haveErrors` exactly when one of its own errors was reported |
| XQueryDeclProperties.EncodingOnlyReports | src/main/java/uk/co/reecedunn/intellij/plugin/xquery/parser/XQueryParser.java:172-186 | the short form `encoding S` opens with the version gate, which is an error exactly before XQuery 3.0 |
| XQueryDeclProperties.VersionBodyReports | src/main/java/uk/co/reecedunn/intellij/plugin/xquery/parser/XQueryParser.java:171-210 | the body reports "version-decl.3.0" exactly for the short form before XQuery 3.0, and `haveErrors` exactly when one of the declaration's own errors was reported |
| XQueryDeclProperties.VersionDeclStep | src/main/java/uk/co/reecedunn/intellij/plugin/xquery/parser/XQueryParser.java:166-227 | `xquery`, the trivia and the body, ended by the `;` handling shared with module declarations |
| XQueryDeclProperties.VersionDeclTerminated | src/main/java/uk/co/reecedunn/intellij/plugin/xquery/parser/XQueryParser.java:166-227 | `parseVersionDecl` always builds a VERSION_DECL from `xquery`, including the `;` when present; "expected ;" is reported exactly when the `;` is missing and none of the declaration's own errors was |
| XQueryDeclProperties.VersionDeclShortForm | src/main/java/uk/co/reecedunn/intellij/plugin/xquery/parser/XQueryParser.java:172-178 | `xquery encoding S` carries the version gate after the trivia, an error "version-decl.3.0" exactly when the configured version is before 3.0 |
| XQueryPrologProperties.LaterDeclAgrees | src/main/java/uk/co/reecedunn/intellij/plugin/xquery/parser/XQueryParser.java:378-395 | the declarations tried after the first five return a state that agrees with the node they build |
| XQueryPrologProperties.DeclBodyAgrees | src/main/java/uk/co/reecedunn/intellij/plugin/xquery/parser/XQueryParser.java:369-396 | every declaration after `declare`: function, variable and option declarations return BODY, header declarations HEADER, and UNKNOWN only an unknown declaration |
| XQueryPrologProperties.DefaultDeclKinds | src/main/java/uk/co/reecedunn/intellij/plugin/xquery/parser/XQueryParser.java:469-479 | the default declarations build a header declaration or an unknown one |
| XQueryPrologProperties.DeclAgrees | src/main/java/uk/co/reecedunn/intellij/plugin/xquery/parser/XQueryParser.java:365-399 | `parseDecl` matches exactly at `declare`, building nothing otherwise; when it matches it builds one node from `declare` whose kind agrees with the state it returns |
| XQueryPrologProperties.ImportFlagged | src/main/java/uk/co/reecedunn/intellij/plugin/xquery/parser/XQueryParser.java:337-363 | `parseImport` matches exactly at `import`; `import` is flagged "expected-prolog-body" unless the state is HEADER; a schema or module import returns HEADER, and anything else is an IMPORT node reported "expected schema, module" returning UNKNOWN |
| XQueryPrologProperties.PrologDeclAbsent | src/main/java/uk/co/reecedunn/intellij/plugin/xquery/parser/XQueryParser.java:301-304 | neither a declaration nor an import matched exactly when neither `declare` nor `import` is next, and then nothing is consumed or built |
| XQueryPrologProperties.PrologPresent | src/main/java/uk/co/reecedunn/intellij/plugin/xquery/parser/XQueryParser.java:296-313 | `parseProlog` builds a PROLOG exactly when `declare` or `import` comes first; otherwise its marker is dropped and nothing is consumed |
| XQueryPrologProperties.PrologStates | src/main/java/uk/co/reecedunn/intellij/plugin/xquery/parser/XQueryParser.java:300-334 | the prolog state only moves forward: the loop ends in its starting state, HEADER, or BODY, and once in BODY it stays there |
| XQueryPrologProperties.BodyDeclSticks | src/main/java/uk/co/reecedunn/intellij/plugin/xquery/parser/XQueryParser.java:320-324 | after a BODY declaration the whole prolog ends in BODY |
| XQueryPrologProperties.HeaderSettingFlagged | src/main/java/uk/co/reecedunn/intellij/plugin/xquery/parser/XQueryParser.java:437-457 | a header-only setting declaration matches exactly at its keyword, flagged "expected-prolog-body" unless the state is HEADER; otherwise it consumes and builds nothing |
| XQueryPrologProperties.DefaultDeclFlagged | src/main/java/uk/co/reecedunn/intellij/plugin/xquery/parser/XQueryParser.java:459-485 | `parseDefaultDecl` matches exactly at `default`, flagged "expected-prolog-body" unless the state is HEADER |
| XQueryPrologProperties.BodyDeclsAt | src/main/java/uk/co/reecedunn/intellij/plugin/xquery/parser/XQueryParser.java:508-526 | function, option and variable declarations match exactly at their keyword and otherwise consume and build nothing; a function declaration builds FUNCTION_DECL or UNKNOWN_DECL |
| XQueryPrologProperties.LaterDeclUnknown | src/main/java/uk/co/reecedunn/intellij/plugin/xquery/parser/XQueryParser.java:378-395 | after the first five, the unknown declaration is taken exactly when none of function, namespace, option, ordering, variable is next, and is reported with the keyword list of `declare` |
| XQueryPrologProperties.LaterDeclFlagged | src/main/java/uk/co/reecedunn/intellij/plugin/xquery/parser/XQueryParser.java:401-408 | a namespace or ordering-mode declaration seen outside HEADER is flagged "expected-prolog-body" |
| XQueryPrologProperties.DeclBodyFlagged | src/main/java/uk/co/reecedunn/intellij/plugin/xquery/parser/XQueryParser.java:369-396 | every declaration that keeps the prolog in HEADER is flagged "expected-prolog-body" when seen in another state |
| XQueryPrologProperties.LaterDeclKinds | src/main/java/uk/co/reecedunn/intellij/plugin/xquery/parser/XQueryParser.java:378-395 | the later declarations build only function, unknown, namespace, option, ordering-mode or variable declarations |
| XQueryPrologProperties.DeclBodyUnknown | src/main/java/uk/co/reecedunn/intellij/plugin/xquery/parser/XQueryParser.java:390-395 | after `declare` the unknown declaration is taken exactly when none of the ten keywords follows, and is reported with their list |
| XQueryPrologProperties.DeclReports | src/main/java/uk/co/reecedunn/intellij/plugin/xquery/parser/XQueryParser.java:365-399 | at `declare`: one node from `declare`; UNKNOWN_DECL with "expected base-uri, …" exactly when no known keyword follows; a header declaration outside HEADER is flagged |
| XQueryPrologProperties.UnknownDeclRecovers | src/main/java/uk/co/reecedunn/intellij/plugin/xquery/parser/XQueryParser.java:643-677 | the recovery loop always succeeds, consumes something exactly when it can go on at its start, and stops where it cannot go on |
| XQueryPrologProperties.MainModuleAbsent | src/main/java/uk/co/reecedunn/intellij/plugin/xquery/parser/XQueryParser.java:229-238 | a main module not found consumed and built nothing |
| XQueryPrologProperties.ModuleAbsent | src/main/java/uk/co/reecedunn/intellij/plugin/xquery/parser/XQueryParser.java:142-164 | a module not found consumed and built nothing, so `parse` goes on at the same token |
| XQueryPrologProperties.ParseStepSkips | src/main/java/uk/co/reecedunn/intellij/plugin/xquery/parser/XQueryParser.java:45-50 | a pass of `parse` that finds nothing advances exactly one token and builds nothing |

## Left out

- The XQuery lexer is not part of this model. The parsers work on token sequences. Comment text is hidden by the tree builder, as the IDE's builder hides it.
- The XQuery expression grammar below `ExprSingle` is not spelled out. Neither are type declarations, sequence types, direct comment constructors or CDATA sections, nor the XPath rules the schema-types parser calls. Each is an "item parser" parameter. It may match one construct, which becomes one node, or match nothing.
- The `XQueryParser.Parser` methods run only the lower rules on the builder: white space and comments, string literals, QNames, expressions, enclosed expressions and location hints.
  - The higher rules are `parse`, `parseModule`, `parseVersionDecl`, `parseModuleDecl`, `parseProlog`, `parseDecl`, `parseImport`, the declaration rules, `parseUnknownDecl` and `parseParamList`. They are given as the functions of `XQueryRules`, which call the lower rules' functions.
  - Their builder steps (marker order, in-place update) are captured by those functions' outcomes, not by methods.
- XQueryRules: most rule functions state in their own contracts only that the outcome stays within the tokens, and that a match consumes a token. What each rule reports and builds is proved in the lemmas of `XQueryPaths`, `XQueryDeclProperties` and `XQueryPrologProperties` named in the table.
- The IntelliJ PSI, references, caching (`CacheableProperty`), `subtreeChanged` and extension points are not modelled. PSI elements are values or arena indices. The tree builder's internals beyond markers and the cursor are not modelled.
- The tree builder's `open` stack of marker indices is ghost. The source has no such list; it only closes markers in nesting order.
- The value-template and xqDoc lexers hand some states to the XPath or XQuery lexer, which is not part of this model. The value-template lexer reports such a state as delegated.
- SaxonProfiler:
  - the clock (`System.nanoTime`) and the creation date are parameters;
  - the report's `frame` field and date formatting are left out;
  - Kotlin `Long` overflow of the accumulated times is not modelled;
  - the order of the result map is an input permutation.
- JavaModulePath follows `JavaModulePath.create` as written. The test file expects `null` for file names such as `test.xq` (JavaModulePathTest.kt lines 106-184), which this code does not do.
- SchemaTypesParser.ValueTemplatePart: an enclosed expression in a value template is recorded as one `EnclosedExprNode`. The source calls `parseEnclosedExprOrBlock` with a null node type (XsltSchemaTypesParser.kt line 96); that XPath rule is not part of this model, so the nodes it actually builds are not captured.
- WordsScanner: positions count code points of the token text. The source's `CodePointRange` offsets count UTF-16 code units, so the two differ after a character outside the Basic Multilingual Plane.
- UriLiteral.ReferenceRange: for a literal shorter than two characters (an unterminated one-character literal), the range `(1, length - 1)` ends before it starts. The source builds the same improper `TextRange`, and the model states nothing more about it.
- ZipFile: the file system is held through a `WeakReference` in the source. When it has been collected, `parent` and `children` give null. The model always has the file system.
- The user interface, query processors, networking, concurrency and the XML and zip library wrappers are outside the modelled core.

## Findings

| source | as written | input that shows it | evidently intended | confidence | as-written member | corrected member |
|---|---|---|---|---|---|---|
| src/lang-xslt/main/uk/co/reecedunn/intellij/plugin/xslt/parser/XsltSchemaTypesParser.kt:113-123 | `parseHashedKeyword` on a `#` not followed by an NCName returns false. It has already consumed the `#` and leaves the HASHED_KEYWORD marker open. | the schema text `# all` (a `#`, white space, then a name) | on no match, roll back to the marker: consume nothing and leave no marker open | not executed | SchemaTypesParser.ParseHashedKeywordAsWritten, SchemaTypesParser.HashedKeywordAsWrittenLeavesMarkerOpen, SchemaTypesParser.HashFollowedBySpace | SchemaTypesParser.ParseHashedKeyword, SchemaTypesParser.ParseLeavesNoOpenMarker |
