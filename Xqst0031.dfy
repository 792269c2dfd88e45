/**
 * The XQST0031 inspection: every XQuery version declaration of a module (one
 * per transaction) must name a version the configured implementation
 * supports, and all transactions must use the first one's version.
 */
module Xqst0031 {
  import opened Wrappers

  /**
   * One entry of the module's XQuery versions. `version` is the recognised
   * version id (None for an unrecognised string or no declaration),
   * `declaration` the version declaration node, and `versionOrDefault` the
   * specification the entry stands for, defaulted when it has none.
   */
  datatype VersionEntry = VersionEntry(version: Option<string>, declaration: Option<nat>, versionOrDefault: string)

  datatype ProblemKind = UnsupportedVersion | DifferentVersionForTransaction

  /** A problem reported on a version declaration node. */
  datatype Problem = Problem(at: nat, kind: ProblemKind)

  /** Reporting on an entry without a declaration node: `declaration as PsiElement` throws. */
  datatype Exception = TypeCastException

  /**
   * `XQuerySpec.versionForXQuery` for the configured product and product
   * version: the specification a version id maps to, if it is supported.
   */
  type Supported = map<string, string>

  /** The state the source keeps across entries: the main version and whether the first version is still to be fixed. */
  datatype State = State(mainVersion: Option<string>, isFirstVersion: bool)

  /** What one entry does to the state, and the problem it raises, if any. */
  function Step(e: VersionEntry, supported: Supported, s: State): (State, Option<ProblemKind>) {
    var main := if s.isFirstVersion then Some(e.versionOrDefault) else s.mainVersion;
    if e.version.None? && e.declaration.None? then (State(main, s.isFirstVersion), None)
    else if e.version.None? then (State(main, s.isFirstVersion), Some(UnsupportedVersion))
    else if e.version.value !in supported then (State(main, s.isFirstVersion), Some(UnsupportedVersion))
    else
      var x := supported[e.version.value];
      (State(main, false), if !s.isFirstVersion && main != Some(x) then Some(DifferentVersionForTransaction) else None)
  }

  /** The problems for the entries from state `s` on, or the exception that stops the check. */
  function Check(entries: seq<VersionEntry>, supported: Supported, s: State): Result<seq<Problem>, Exception> {
    if |entries| == 0 then Ok([])
    else
      var (s', kind) := Step(entries[0], supported, s);
      if kind.Some? && entries[0].declaration.None? then Err(TypeCastException)
      else
        var here := if kind.Some? then [Problem(entries[0].declaration.value, kind.value)] else [];
        Prepend(here, Check(entries[1..], supported, s'))
  }

  const Initial: State := State(None, true)

  /**
   * `checkFile`: null for a file that is not an XQuery module; otherwise the
   * problems found walking its version entries in order.
   */
  method CheckFile(isXQueryModule: bool, entries: seq<VersionEntry>, supported: Supported)
    returns (r: Result<Option<seq<Problem>>, Exception>)
    ensures !isXQueryModule ==> r == Ok(None)
    ensures isXQueryModule ==> match Check(entries, supported, Initial)
      case Ok(ps) => r == Ok(Some(ps))
      case Err(x) => r == Err(x)
  {
    if !isXQueryModule {
      return Ok(None);
    }
    var descriptors: seq<Problem> := [];
    var mainVersion: Option<string> := None;
    var isFirstVersion := true;
    var i := 0;
    assert entries[0..] == entries;
    PrependNothing(descriptors, Check(entries, supported, Initial));
    while i < |entries|
      invariant 0 <= i <= |entries|
      invariant Check(entries, supported, Initial) == Prepend(descriptors, Check(entries[i..], supported, State(mainVersion, isFirstVersion)))
    {
      var version := entries[i];
      assert entries[i..][1..] == entries[i + 1..];
      ghost var before := State(mainVersion, isFirstVersion);
      if isFirstVersion {
        mainVersion := Some(version.versionOrDefault);
      }
      var kind: Option<ProblemKind> := None;
      if version.version.None? && version.declaration.None? {
        // skipped: neither a version nor a declaration
      } else if version.version.None? {
        kind := Some(UnsupportedVersion);
      } else if version.version.value !in supported {
        kind := Some(UnsupportedVersion);
      } else {
        var xqueryVersion := supported[version.version.value];
        if !isFirstVersion && mainVersion != Some(xqueryVersion) {
          kind := Some(DifferentVersionForTransaction);
        }
        isFirstVersion := false;
      }
      assert Step(version, supported, before) == (State(mainVersion, isFirstVersion), kind);
      if kind.None? {
        PrependNothing(descriptors, Check(entries[i + 1..], supported, State(mainVersion, isFirstVersion)));
      }
      if kind.Some? {
        if version.declaration.None? {
          return Err(TypeCastException);
        }
        PrependTwice(descriptors, [Problem(version.declaration.value, kind.value)], Check(entries[i + 1..], supported, State(mainVersion, isFirstVersion)));
        descriptors := descriptors + [Problem(version.declaration.value, kind.value)];
      }
      i := i + 1;
    }
    assert entries[i..] == [];
    PrependNothing(descriptors, Check(entries[i..], supported, State(mainVersion, isFirstVersion)));
    return Ok(Some(descriptors));
  }

  /** `descriptors` put in front of the problems still to come, unless the check stopped. */
  function Prepend(descriptors: seq<Problem>, rest: Result<seq<Problem>, Exception>): Result<seq<Problem>, Exception> {
    match rest
    case Ok(ps) => Ok(descriptors + ps)
    case Err(x) => Err(x)
  }

  lemma PrependNothing(d: seq<Problem>, rest: Result<seq<Problem>, Exception>)
    ensures Prepend([], rest) == rest
    ensures rest == Ok([]) ==> Prepend(d, rest) == Ok(d)
  {
    if rest.Ok? {
      assert [] + rest.value == rest.value;
      assert d + [] == d;
    }
  }

  lemma PrependTwice(a: seq<Problem>, b: seq<Problem>, rest: Result<seq<Problem>, Exception>)
    ensures Prepend(a, Prepend(b, rest)) == Prepend(a + b, rest)
  {
    if rest.Ok? {
      assert a + (b + rest.value) == (a + b) + rest.value;
    }
  }

  /** Whether every entry names a supported version that maps to `spec`. */
  predicate AllAt(entries: seq<VersionEntry>, supported: Supported, spec: string) {
    forall k :: 0 <= k < |entries| ==>
      entries[k].version.Some? && entries[k].version.value in supported && supported[entries[k].version.value] == spec
  }

  /** Once the main version is fixed at `spec`, further entries at `spec` raise nothing. */
  lemma {:induction false} SameVersionLater(entries: seq<VersionEntry>, supported: Supported, spec: string)
    requires AllAt(entries, supported, spec)
    ensures Check(entries, supported, State(Some(spec), false)) == Ok([])
  {
    if |entries| > 0 {
      assert AllAt(entries[1..], supported, spec) by {
        forall k | 0 <= k < |entries[1..]| ensures entries[1..][k] == entries[k + 1] { }
      }
      SameVersionLater(entries[1..], supported, spec);
      assert Step(entries[0], supported, State(Some(spec), false)) == (State(Some(spec), false), None);
      PrependNothing([], Check(entries[1..], supported, State(Some(spec), false)));
    }
  }

  /**
   * A module whose version declarations all name one supported version, the
   * one the first transaction stands for, has no XQST0031 problems.
   */
  lemma ConsistentVersionsAreAccepted(entries: seq<VersionEntry>, supported: Supported, spec: string)
    requires |entries| > 0 && entries[0].versionOrDefault == spec
    requires AllAt(entries, supported, spec)
    ensures Check(entries, supported, Initial) == Ok([])
  {
    assert AllAt(entries[1..], supported, spec) by {
      forall k | 0 <= k < |entries[1..]| ensures entries[1..][k] == entries[k + 1] { }
    }
    SameVersionLater(entries[1..], supported, spec);
    assert entries[0].version.Some? && entries[0].version.value in supported;
    assert Step(entries[0], supported, Initial) == (State(Some(spec), false), None);
    PrependNothing([], Check(entries[1..], supported, State(Some(spec), false)));
  }

  /** The first entry that passes both support checks fixes the main version; a later one at another version is reported. */
  lemma {:induction false} LaterDifferentVersionReported(a: VersionEntry, b: VersionEntry, supported: Supported, d: nat)
    requires a.version.Some? && a.version.value in supported
    requires b.version.Some? && b.version.value in supported && b.declaration == Some(d)
    requires supported[b.version.value] != a.versionOrDefault
    requires a.declaration.Some? || supported[a.version.value] == a.versionOrDefault
    ensures Check([a, b], supported, Initial) == Ok([Problem(d, DifferentVersionForTransaction)])
  {
    assert [a, b][1..] == [b];
    assert [b][1..] == [];
    var s := State(Some(a.versionOrDefault), false);
    assert Step(a, supported, Initial) == (s, None);
    assert Step(b, supported, s) == (s, Some(DifferentVersionForTransaction));
    PrependNothing([Problem(d, DifferentVersionForTransaction)], Check([b][1..], supported, s));
    PrependNothing([], Check([b], supported, s));
  }

  /**
   * At most one problem per entry, each on the declaration of an entry; an
   * unrecognised version string is always reported as unsupported.
   */
  lemma {:induction false} ProblemsOnDeclarations(entries: seq<VersionEntry>, supported: Supported, s: State)
    requires Check(entries, supported, s).Ok?
    ensures |Check(entries, supported, s).value| <= |entries|
    ensures forall p :: p in Check(entries, supported, s).value ==>
      exists k :: 0 <= k < |entries| && entries[k].declaration == Some(p.at)
    ensures forall k :: 0 <= k < |entries| && entries[k].version.None? && entries[k].declaration.Some? ==>
      Problem(entries[k].declaration.value, UnsupportedVersion) in Check(entries, supported, s).value
  {
    if |entries| > 0 {
      var (s', kind) := Step(entries[0], supported, s);
      ProblemsOnDeclarations(entries[1..], supported, s');
      forall p | p in Check(entries[1..], supported, s').value
        ensures exists k :: 0 <= k < |entries| && entries[k].declaration == Some(p.at)
      {
        var k :| 0 <= k < |entries[1..]| && entries[1..][k].declaration == Some(p.at);
        assert entries[k + 1].declaration == Some(p.at);
      }
      forall k | 0 <= k < |entries| && entries[k].version.None? && entries[k].declaration.Some?
        ensures Problem(entries[k].declaration.value, UnsupportedVersion) in Check(entries, supported, s).value
      {
        if k > 0 {
          assert entries[1..][k - 1] == entries[k];
        }
      }
    }
  }
}
