/** The parts of Python's `pathlib` the tools use: a path's final component
    (`name`), its extension (`suffix`), replacing the extension (`with_suffix`),
    building a path from text, and the filter both tools apply to a directory
    listing (regular files with a supported extension). */
module Paths {
  import opened Text

  /** A path as text: `dir` is everything up to and including the last `/`
      (empty for a bare file name) and `name` is the final component. */
  datatype Path = Path(dir: string, name: string)

  /** `str(path)`. */
  function PathText(p: Path): string {
    p.dir + p.name
  }

  /** A `dir` part as `ParsePath` produces it: empty or ending in the separator. */
  predicate WellFormedDir(dir: string) {
    dir == [] || dir[|dir| - 1] == '/'
  }

  /** `s.rfind(c)`: the index of the last `c` in `s`, or -1 when there is none. */
  function LastIndex(s: string, c: char): (r: int)
    ensures -1 <= r < |s|
    ensures r >= 0 ==> s[r] == c
    ensures forall k :: r < k < |s| ==> s[k] != c
  {
    if s == [] then -1
    else if s[|s| - 1] == c then |s| - 1
    else LastIndex(s[..|s| - 1], c)
  }

  /** `Path(s)`: the text is cut after its last separator. */
  function ParsePath(s: string): Path {
    var i := LastIndex(s, '/');
    Path(s[..i + 1], s[i + 1..])
  }

  /** `SEARCH_DIR / name`: a file name placed in a directory given without a
      trailing separator. */
  function InDir(dir: string, name: string): Path {
    Path(dir + "/", name)
  }

  /** `path.suffix`: from the last `.` of the name to its end, provided that dot is
      neither the first nor the last character of the name; otherwise empty. */
  function Suffix(name: string): (r: string)
    ensures r == [] || (2 <= |r| < |name| && r == name[|name| - |r|..])
    ensures r != [] ==> r[0] == '.' && '.' !in r[1..]
  {
    var i := LastIndex(name, '.');
    if 0 < i < |name| - 1 then name[i..] else ""
  }

  /** The name without its suffix (`path.stem`). */
  function Stem(name: string): string {
    name[..|name| - |Suffix(name)|]
  }

  /** `path.with_suffix(suffix)` on the name; pathlib raises `ValueError` when the
      name is empty, which callers must rule out. */
  function WithSuffix(name: string, suffix: string): string
    requires name != []
  {
    Stem(name) + suffix
  }

  /** The extensions both tools accept, compared after lower-casing. */
  const SupportedExtensions: set<string> := {".pdf", ".docx", ".pptx", ".png"}

  /** `path.suffix.lower() in supported`. */
  predicate HasSupportedSuffix(name: string) {
    Lower(Suffix(name)) in SupportedExtensions
  }

  /** One entry of a directory listing (`iterdir` or `glob`) with its `is_file()` flag. */
  datatype DirEntry = DirEntry(path: Path, isFile: bool)

  /** `[f for f in listing if f.is_file() and f.suffix.lower() in supported]`. */
  function SupportedFiles(listing: seq<DirEntry>): (files: seq<Path>)
    ensures |files| <= |listing|
    ensures forall f :: f in files <==> DirEntry(f, true) in listing && HasSupportedSuffix(f.name)
  {
    if listing == [] then []
    else
      var e := listing[0];
      var rest := SupportedFiles(listing[1..]);
      assert forall x :: x in listing <==> x == e || x in listing[1..];
      if e.isFile && HasSupportedSuffix(e.path.name) then [e.path] + rest else rest
  }

  // ---------------------------------------------------------------------------

  /** A parsed path prints back as the text it came from; its directory part is
      empty or ends in the separator, and its name holds no separator. */
  lemma ParsePathParts(s: string)
    ensures PathText(ParsePath(s)) == s
    ensures WellFormedDir(ParsePath(s).dir)
    ensures '/' !in ParsePath(s).name
  {
    var i := LastIndex(s, '/');
    var dir, name := s[..i + 1], s[i + 1..];
    assert ParsePath(s) == Path(dir, name);
    assert dir + name == s;
    if i >= 0 {
      assert dir[i] == s[i];
    } else {
      assert dir == [];
    }
    NameAfterLast(s, '/', i);
  }

  /** What follows the last occurrence of `c` holds no `c`. */
  lemma NameAfterLast(s: string, c: char, i: int)
    requires -1 <= i < |s|
    requires forall k :: i < k < |s| ==> s[k] != c
    ensures c !in s[i + 1..]
  {
    var name := s[i + 1..];
    forall k | 0 <= k < |name| ensures name[k] != c {
      assert name[k] == s[i + 1 + k];
    }
  }

  /** Reading back the text of a path gives the path again. */
  lemma ParsePathText(p: Path)
    requires WellFormedDir(p.dir)
    requires '/' !in p.name
    ensures ParsePath(PathText(p)) == p
  {
    var s := PathText(p);
    var i := LastIndex(s, '/');
    if p.dir == [] {
      assert i == -1;
    } else {
      assert s[|p.dir| - 1] == '/';
      assert i == |p.dir| - 1;
    }
  }

  /** A supported suffix is a real suffix, so the name is not empty. */
  lemma SupportedNameNonEmpty(name: string)
    requires HasSupportedSuffix(name)
    ensures name != []
  {
    assert Lower("") == "";
  }

  /** The default output name of the converter: `with_suffix('.pdf')` keeps the stem
      and ends in the suffix `.pdf`. */
  lemma {:induction false} WithPdfSuffix(name: string)
    requires name != []
    ensures Suffix(WithSuffix(name, ".pdf")) == ".pdf"
    ensures Stem(WithSuffix(name, ".pdf")) == Stem(name)
  {
    var stem := Stem(name);
    var out := WithSuffix(name, ".pdf");
    assert stem != [];
    assert out == stem + ".pdf";
    var i := LastIndex(out, '.');
    assert out[|stem|] == '.';
    assert i == |stem|;
    assert out[i..] == ".pdf";
  }
}
