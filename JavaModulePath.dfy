/**
 * Classification of a URI as a Java class module path, as BaseX, eXist-db and
 * Saxon allow a namespace URI to name a Java class.
 */
module JavaModulePath {
  import opened Wrappers
  import opened Text
  import opened XdmModel

  /** A resolved Java module path: the class named and whether `?void=this` was given. */
  datatype JavaPath = JavaPath(classPath: string, voidThis: bool)

  const Scheme: string := "java:"
  const VoidThisSuffix: string := "?void=this"

  /** The URI contexts in which a URI may name a Java class. */
  predicate IsNamespaceContext(context: UriContext) {
    context == Namespace || context == TargetNamespace || context == NamespaceDeclaration
  }

  /** The URI written with the `java:` scheme for a Java path (the Saxon 9.7 form when `voidThis`). */
  function SchemeUri(p: JavaPath): string {
    Scheme + p.classPath + (if p.voidThis then VoidThisSuffix else "")
  }

  /**
   * `JavaModulePath.create`: outside the namespace contexts there is no Java path;
   * a result is either read from a `java:` URI, or is a plain BaseX class name
   * that is non-empty and contains neither `/` nor `:`.
   */
  function Create(context: UriContext, path: string): (r: Option<JavaPath>)
    ensures r.Some? ==> IsNamespaceContext(context)
    ensures r.Some? && StartsWith(path, Scheme) ==> path == SchemeUri(r.value)
    ensures r.Some? && !StartsWith(path, Scheme) ==>
      r.value == JavaPath(path, false) && path != "" && '/' !in path && ':' !in path
  {
    if !IsNamespaceContext(context) then None
    else if StartsWith(path, Scheme) then
      if EndsWith(path, VoidThisSuffix) && |Scheme| <= |path| - |VoidThisSuffix| then
        Some(JavaPath(path[|Scheme|..|path| - |VoidThisSuffix|], true))
      else
        Some(JavaPath(path[|Scheme|..], false))
    else if '/' in path || ':' in path || path == "" then None
    else Some(JavaPath(path, false))
  }

  /** A `java:` URI always yields a path (in a namespace context), however short it is. */
  lemma SchemeAlwaysResolves(context: UriContext, path: string)
    requires IsNamespaceContext(context) && StartsWith(path, Scheme)
    ensures Create(context, path).Some?
    ensures Create(context, path).value.voidThis <==> EndsWith(path, VoidThisSuffix)
  {
    if EndsWith(path, VoidThisSuffix) {
      // The `?` that starts the suffix cannot lie inside the `java:` prefix.
      assert path[|path| - |VoidThisSuffix|] == '?';
      assert path[..|Scheme|] == Scheme;
    }
  }

  /** `"java:" + C` is never mistaken for the Saxon 9.7 form unless `C` itself ends with the suffix. */
  lemma SchemeSuffixLiesInClassPath(c: string)
    requires EndsWith(Scheme + c, VoidThisSuffix)
    ensures EndsWith(c, VoidThisSuffix)
  {
    var u := Scheme + c;
    assert u[|u| - |VoidThisSuffix|] == '?';
    assert u[|u| - |VoidThisSuffix|..] == c[|c| - |VoidThisSuffix|..];
  }

  /**
   * Round trip: every Java path whose class name does not itself end with
   * `?void=this` is recovered from its `java:` URI in each namespace context.
   */
  lemma {:induction false} CreateSchemeUri(context: UriContext, p: JavaPath)
    requires IsNamespaceContext(context)
    requires p.voidThis || !EndsWith(p.classPath, VoidThisSuffix)
    ensures Create(context, SchemeUri(p)) == Some(p)
  {
    var u := SchemeUri(p);
    assert u[..|Scheme|] == Scheme;
    if p.voidThis {
      assert u[|u| - |VoidThisSuffix|..] == VoidThisSuffix;
      assert u[|Scheme|..|u| - |VoidThisSuffix|] == p.classPath;
    } else {
      assert u == Scheme + p.classPath;
      if EndsWith(u, VoidThisSuffix) {
        SchemeSuffixLiesInClassPath(p.classPath);
      }
      assert u[|Scheme|..] == p.classPath;
    }
  }

  /**
   * A URI outside the `java:` scheme that contains no `:` resolves exactly when
   * it is non-empty and has no `/`, and then it is the class path itself.
   */
  lemma PlainClassName(context: UriContext, path: string)
    requires IsNamespaceContext(context) && ':' !in path
    ensures Create(context, path).Some? <==> path != "" && '/' !in path
    ensures Create(context, path).Some? ==> Create(context, path) == Some(JavaPath(path, false))
  {
  }
}
