/**
 * A file or directory entry of a zip archive seen as a virtual file: its name
 * and parent are computed from the entry path, where a trailing `/` marks a
 * directory and the empty path is the archive root.
 */
module ZipFile {
  import opened Wrappers
  import opened Text

  /**
   * A `java.util.zip.ZipEntry`. The source compares entries by identity, which
   * `id` stands for; `name` is the entry path.
   */
  datatype ZipEntry = ZipEntry(id: nat, name: string)

  datatype Zip = Zip(entry: ZipEntry, contents: seq<bv8>)

  /** The exception thrown when the contents of a directory are read. */
  datatype ZipError = UnsupportedOperation

  /**
   * The archive a file belongs to: its non-directory entries, its directory
   * objects (in the directory map's iteration order), and `findFileByPath`.
   */
  datatype FileSystem = FileSystem(entries: seq<Zip>, directories: seq<Zip>, files: map<string, Zip>)

  function Path(f: Zip): string { f.entry.name }

  /** Kotlin `s.split("/")`: the `/`-free segments of `s`, keeping empty ones. */
  function Split(s: string): (r: seq<string>)
    ensures |r| >= 1
    ensures JoinWith("/", r) == s
    ensures forall i :: 0 <= i < |r| ==> '/' !in r[i]
  {
    if |s| == 0 then [""]
    else
      var t := Split(s[..|s| - 1]);
      var c := s[|s| - 1];
      assert s == s[..|s| - 1] + [c];
      if c == '/' then
        JoinSeparator(t);
        t + [""]
      else
        JoinExtended(t, c);
        t[..|t| - 1] + [t[|t| - 1] + [c]]
  }

  /** A new empty last segment adds a separator to the joined text. */
  lemma JoinSeparator(t: seq<string>)
    requires |t| >= 1
    ensures JoinWith("/", t + [""]) == JoinWith("/", t) + "/"
  {
    assert (t + [""])[..|t|] == t;
  }

  /** Extending the last segment extends the joined text. */
  lemma JoinExtended(t: seq<string>, c: char)
    requires |t| >= 1
    ensures JoinWith("/", t[..|t| - 1] + [t[|t| - 1] + [c]]) == JoinWith("/", t) + [c]
  {
    var u := t[..|t| - 1] + [t[|t| - 1] + [c]];
    if |t| > 1 {
      assert u[..|u| - 1] == t[..|t| - 1];
      var j := JoinWith("/", t[..|t| - 1]);
      assert JoinWith("/", u) == j + "/" + (t[|t| - 1] + [c]);
      assert j + "/" + (t[|t| - 1] + [c]) == j + "/" + t[|t| - 1] + [c];
    }
  }

  /** `isDirectory`: the path ends with `/` or is the root. */
  predicate IsDirectory(path: string) {
    EndsWith(path, "/") || path == ""
  }

  /** `filename`: the last segment, ignoring one trailing `/`. */
  function Name(path: string): (r: string)
    ensures '/' !in r
  {
    var parts := Split(path);
    if EndsWith(path, "/") then
      assert |parts| >= 2 by { SplitTrailingSlash(path); }
      parts[|parts| - 2]
    else parts[|parts| - 1]
  }

  /** `parentPath`: the segments before the name, joined and followed by `/`, or "" if none remain. */
  function ParentPath(path: string): string {
    var all := Split(path);
    var parts := if EndsWith(path, "/") then all[..if |all| >= 2 then |all| - 2 else 0] else all[..|all| - 1];
    if |parts| == 0 then "" else JoinWith("/", parts) + "/"
  }

  /** A path that ends with `/` splits into the segments before it and a final "". */
  lemma SplitTrailingSlash(path: string)
    requires EndsWith(path, "/")
    ensures Split(path) == Split(path[..|path| - 1]) + [""]
  {
    assert path[|path| - 1] == '/';
  }

  /** Joining all segments but the last, and then the last, gives back the string. */
  lemma SplitLast(s: string)
    ensures var r := Split(s);
      s == (if |r| == 1 then "" else JoinWith("/", r[..|r| - 1]) + "/") + r[|r| - 1]
  {
  }

  /** A joined prefix followed by `/` ends with `/`. */
  lemma EndsWithSlash(j: string)
    ensures EndsWith(j + "/", "/")
  {
    assert (j + "/")[|j + "/"| - 1..] == "/";
  }

  /** The decomposition of a path that names a file. */
  lemma FileDecomposition(path: string)
    requires !EndsWith(path, "/")
    ensures path == ParentPath(path) + Name(path)
    ensures ParentPath(path) == "" || EndsWith(ParentPath(path), "/")
  {
    var r := Split(path);
    SplitLast(path);
    assert Name(path) == r[|r| - 1];
    if |r| > 1 {
      assert ParentPath(path) == JoinWith("/", r[..|r| - 1]) + "/";
      EndsWithSlash(JoinWith("/", r[..|r| - 1]));
    }
  }

  /** The decomposition of a path that names a directory other than the root. */
  lemma DirectoryDecomposition(path: string)
    requires EndsWith(path, "/")
    ensures path == ParentPath(path) + Name(path) + "/"
    ensures ParentPath(path) == "" || EndsWith(ParentPath(path), "/")
  {
    var p := path[..|path| - 1];
    assert path == p + "/";
    SplitTrailingSlash(path);
    var r := Split(p);
    var all := Split(path);
    assert all == r + [""];
    assert all[..|all| - 2] == r[..|r| - 1];
    assert Name(path) == r[|r| - 1];
    SplitLast(p);
    if |r| > 1 {
      assert ParentPath(path) == JoinWith("/", r[..|r| - 1]) + "/";
      EndsWithSlash(JoinWith("/", r[..|r| - 1]));
    } else {
      assert ParentPath(path) == "";
    }
  }

  /**
   * Every path is its parent path, then its name, then `/` if it names a
   * directory other than the root: name and parent split the path exactly.
   */
  lemma PathDecomposition(path: string)
    ensures path == ParentPath(path) + Name(path) + (if EndsWith(path, "/") then "/" else "")
    ensures ParentPath(path) == "" || EndsWith(ParentPath(path), "/")
  {
    if EndsWith(path, "/") {
      DirectoryDecomposition(path);
    } else {
      FileDecomposition(path);
    }
  }

  /** The parent path always names a directory, and is shorter than any non-root path. */
  lemma ParentIsDirectory(path: string)
    requires path != ""
    ensures IsDirectory(ParentPath(path))
    ensures |ParentPath(path)| < |path|
  {
    PathDecomposition(path);
  }

  /** `getParent`: the root has none; otherwise the file found at the parent path, if any. */
  function Parent(fs: FileSystem, f: Zip): (r: Option<Zip>)
    ensures Path(f) == "" ==> r == None
    ensures r.Some? ==> ParentPath(Path(f)) in fs.files && r.value == fs.files[ParentPath(Path(f))]
  {
    if Path(f) == "" then None
    else if ParentPath(Path(f)) in fs.files then Some(fs.files[ParentPath(Path(f))])
    else None
  }

  function FilterChildren(fs: FileSystem, dir: Zip, files: seq<Zip>, onlyFiles: bool): (r: seq<Zip>)
    ensures forall c :: c in r <==> c in files && (!onlyFiles || !IsDirectory(Path(c))) && Parent(fs, c) == Some(dir)
  {
    if |files| == 0 then []
    else
      var rest := FilterChildren(fs, dir, files[1..], onlyFiles);
      assert files == [files[0]] + files[1..];
      if (!onlyFiles || !IsDirectory(Path(files[0]))) && Parent(fs, files[0]) == Some(dir) then [files[0]] + rest
      else rest
  }

  /**
   * `getChildren`: a non-directory has none; a directory has the non-directory
   * entries whose parent is it, followed by the directories whose parent is it.
   */
  function Children(fs: FileSystem, dir: Zip): (r: seq<Zip>)
    ensures !IsDirectory(Path(dir)) ==> r == []
    ensures IsDirectory(Path(dir)) ==> forall c :: c in r <==>
      Parent(fs, c) == Some(dir) &&
      ((c in fs.entries && !IsDirectory(Path(c))) || c in fs.directories)
  {
    if !IsDirectory(Path(dir)) then []
    else FilterChildren(fs, dir, fs.entries, true) + FilterChildren(fs, dir, fs.directories, false)
  }

  /** `contentsToByteArray` and `getInputStream`: the bytes of a file; a directory throws. */
  function Contents(f: Zip): (r: Result<seq<bv8>, ZipError>)
    ensures r.Err? <==> IsDirectory(Path(f))
    ensures r.Ok? ==> r.value == f.contents
  {
    if IsDirectory(Path(f)) then Err(UnsupportedOperation) else Ok(f.contents)
  }

  /** `equals`: the same entry and the same content bytes. */
  predicate Equals(a: Zip, b: Zip) {
    a.entry.id == b.entry.id && a.contents == b.contents
  }

  /** `equals` is an equivalence relation. */
  lemma EqualsIsEquivalence(a: Zip, b: Zip, c: Zip)
    ensures Equals(a, a)
    ensures Equals(a, b) ==> Equals(b, a)
    ensures Equals(a, b) && Equals(b, c) ==> Equals(a, c)
  {
  }
}
