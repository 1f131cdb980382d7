/** The factory that prepares a conversion into a new yWriter project
    (src/aeon3ywlib/new_project_factory.py): it refuses the files Aeon's own
    exports are not meant to be imported from, names the new project after
    the source file, and picks the first file class whose suffix and
    extension end the source path.

    Paths are POSIX paths: `/` separates directories, and the extension is
    what `os.path.splitext` splits off. */
module ProjectFactory {
  import opened Wrappers
  import opened Strings

  /** File-name suffixes of exports that are not meant to be imported. */
  const DoNotImport: seq<string> := ["_xref", "_brf_synopsis"]

  /** The extension of a yWriter 7 project. */
  const Yw7Extension := ".yw7"

  /** A class the factory can instantiate for a source file: its suffix
      (`None` for classes that are never picked by suffix) and extension. */
  datatype FileClass = FileClass(suffix: Option<string>, extension: string)

  /** What the factory creates: the class chosen for the source, and the
      path of the new project. */
  datatype Objects = Objects(source: FileClass, targetPath: string)

  /** `s.rfind(c)`: the last index of `c`, or -1. */
  function RFind(s: string, c: char): (r: int)
    ensures -1 <= r < |s|
    ensures r >= 0 ==> s[r] == c
    ensures forall k | r < k < |s| :: s[k] != c
    decreases |s|
  {
    if |s| == 0 then -1
    else if s[|s| - 1] == c then |s| - 1
    else RFind(s[..|s| - 1], c)
  }

  /** The loop that skips the leading dots of a file name: is there a
      character other than a dot at an index in `[i, end)`? */
  function HasNameChar(p: string, i: int, end: int): (r: bool)
    requires 0 <= i && end <= |p|
    ensures r <==> exists k | i <= k < end :: p[k] != '.'
    decreases end - i
  {
    if i >= end then false
    else if p[i] != '.' then true
    else HasNameChar(p, i + 1, end)
  }

  /** `os.path.splitext` for POSIX paths: the extension starts at the last
      dot of the file name, unless every character before that dot in the
      file name is a dot too. */
  function SplitExt(p: string): (r: (string, string))
  {
    var sepIndex := RFind(p, '/');
    var dotIndex := RFind(p, '.');
    if dotIndex > sepIndex && HasNameChar(p, sepIndex + 1, dotIndex) then (p[..dotIndex], p[dotIndex..])
    else (p, "")
  }

  /** An extension: empty, or a dot followed by characters other than a
      dot and a slash. */
  predicate IsExtension(e: string) {
    e == "" || (e[0] == '.' && forall k | 1 <= k < |e| :: e[k] != '.' && e[k] != '/')
  }

  /** The file name of a path (what follows its last slash) has a
      character that is not a dot. */
  predicate NamedFile(root: string) {
    exists k | RFind(root, '/') < k < |root| :: root[k] != '.'
  }

  /** The two parts make up the path, the second is an extension, and a
      non-empty extension leaves a named file in front of it. */
  lemma SplitExtParts(p: string)
    ensures SplitExt(p).0 + SplitExt(p).1 == p
    ensures IsExtension(SplitExt(p).1)
    ensures SplitExt(p).1 != "" ==> NamedFile(SplitExt(p).0)
  {
    var sepIndex := RFind(p, '/');
    var dotIndex := RFind(p, '.');
    if dotIndex > sepIndex && HasNameChar(p, sepIndex + 1, dotIndex) {
      var root := p[..dotIndex];
      assert p == root + p[dotIndex..];
      assert forall k | 0 <= k < |root| :: root[k] == p[k];
      RFindPrefix(p, dotIndex, '/');
      var k :| sepIndex + 1 <= k < dotIndex && p[k] != '.';
      assert root[k] != '.';
    }
  }

  /** Cutting a string before the last occurrence of another character
      keeps that character's last index. */
  lemma RFindPrefix(p: string, n: nat, c: char)
    requires RFind(p, c) < n <= |p|
    ensures RFind(p[..n], c) == RFind(p, c)
  {
    var q := p[..n];
    assert forall k | 0 <= k < n :: q[k] == p[k];
  }

  /** Splitting a path built from a named file and an extension gives both
      back. */
  lemma SplitExtOf(root: string, ext: string)
    requires NamedFile(root) && ext != "" && IsExtension(ext)
    ensures SplitExt(root + ext) == (root, ext)
  {
    var p := root + ext;
    assert forall k | 0 <= k < |root| :: p[k] == root[k];
    assert forall k | |root| < k < |p| :: p[k] != '.' && p[k] != '/' by {
      forall k | |root| < k < |p| ensures p[k] != '.' && p[k] != '/' {
        assert p[k] == ext[k - |root|];
      }
    }
    assert RFind(p, '.') == |root| by {
      assert p[|root|] == '.';
    }
    assert p[|root|] != '/';
    assert RFind(p, '/') == RFind(root, '/') by {
      assert RFind(p, '/') < |root|;
      assert p[..|root|] == root;
      RFindPrefix(p, |root|, '/');
    }
    var k :| RFind(root, '/') < k < |root| && root[k] != '.';
    assert p[k] != '.';
    assert p[..|root|] == root;
  }

  /** `os.path.splitext(path)[0]`: the path without its extension. */
  function Root(path: string): string {
    SplitExt(path).0
  }

  /** The file name without its extension ends with none of the suffixes. */
  function Importable(name: string, suffixes: seq<string>): (r: bool)
    ensures r <==> forall k | 0 <= k < |suffixes| :: !EndsWith(name, suffixes[k])
    decreases |suffixes|
  {
    if |suffixes| == 0 then true
    else if EndsWith(name, suffixes[0]) then false
    else
      var r := Importable(name, suffixes[1..]);
      assert forall k | 1 <= k < |suffixes| :: suffixes[k] == suffixes[1..][k - 1];
      r
  }

  /** A path is importable unless, without its extension, it ends with a
      suffix of the exports not meant to be imported. */
  function CanImport(path: string): (r: bool)
    ensures !r <==> EndsWith(Root(path), "_xref") || EndsWith(Root(path), "_brf_synopsis")
  {
    Importable(Root(path), DoNotImport)
  }

  /** The path of the new project: the source path with ".yw7" in place of
      its extension. */
  function TargetPath(sourcePath: string): (r: string)
    ensures EndsWith(r, Yw7Extension)
    ensures NamedFile(Root(sourcePath)) ==> SplitExt(r) == (Root(sourcePath), Yw7Extension)
  {
    var r := Root(sourcePath) + Yw7Extension;
    assert r[|r| - 4..] == Yw7Extension;
    ProjectSplits(Root(sourcePath));
    r
  }

  lemma ProjectSplits(root: string)
    ensures NamedFile(root) ==> SplitExt(root + Yw7Extension) == (root, Yw7Extension)
  {
    if NamedFile(root) {
      SplitExtOf(root, Yw7Extension);
    }
  }

  /** The class is picked for this path: it has a suffix, and suffix plus
      extension end the path. */
  predicate Matches(c: FileClass, sourcePath: string) {
    c.suffix.Some? && EndsWith(sourcePath, c.suffix.value + c.extension)
  }

  /** The first class that matches, if any. */
  function FirstMatch(classes: seq<FileClass>, sourcePath: string): (r: Option<nat>)
    ensures r.Some? ==> r.value < |classes| && Matches(classes[r.value], sourcePath)
    ensures r.Some? ==> forall k | 0 <= k < r.value :: !Matches(classes[k], sourcePath)
    ensures r.None? ==> forall k | 0 <= k < |classes| :: !Matches(classes[k], sourcePath)
    decreases |classes|
  {
    if |classes| == 0 then None
    else if Matches(classes[0], sourcePath) then Some(0)
    else
      match FirstMatch(classes[1..], sourcePath)
      case None => None
      case Some(k) => Some(k + 1)
  }

  /** The factory: refuse a file not meant to be imported, then pick the
      first matching class, or report the path as unsupported. */
  function MakeFileObjects(classes: seq<FileClass>, sourcePath: string): (r: Result<Objects>)
    ensures r == Err(NotMeantToBeImported) <==> !CanImport(sourcePath)
    ensures r == Err(Unsupported(sourcePath)) <==>
      CanImport(sourcePath) && forall k | 0 <= k < |classes| :: !Matches(classes[k], sourcePath)
    ensures r.Err? ==> r.error in {NotMeantToBeImported, Unsupported(sourcePath)}
    ensures r.Ok? ==>
      && r.value.targetPath == Root(sourcePath) + Yw7Extension
      && exists i | 0 <= i < |classes| :: && classes[i] == r.value.source
                                           && Matches(classes[i], sourcePath)
                                           && forall k | 0 <= k < i :: !Matches(classes[k], sourcePath)
  {
    if !CanImport(sourcePath) then Err(NotMeantToBeImported)
    else
      var target := TargetPath(sourcePath);
      match FirstMatch(classes, sourcePath)
      case None => Err(Unsupported(sourcePath))
      case Some(i) => Ok(Objects(classes[i], target))
  }

  /** Whether a file can be imported depends on its name without the
      extension alone. */
  lemma CanImportOf(root: string, ext: string)
    requires NamedFile(root) && ext != "" && IsExtension(ext)
    ensures CanImport(root + ext) <==> !EndsWith(root, "_xref") && !EndsWith(root, "_brf_synopsis")
  {
    SplitExtOf(root, ext);
  }
}
