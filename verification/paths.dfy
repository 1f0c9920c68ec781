/** Slash-separated file paths, enough of Rust's `PathBuf` to state what
    `with_file_name` does. A path is a list of components plus whether it
    starts at the root; empty and `.` components are dropped when text is
    read, so the rendered text is the canonical spelling of the path. */
module Paths {
  import opened Common

  datatype Path = Path(absolute: bool, parts: seq<string>)

  /** A component as it appears in a canonical path. */
  predicate ValidPart(part: string) {
    |part| > 0 && '/' !in part && part != "."
  }

  predicate WellFormed(p: Path) {
    forall i :: 0 <= i < |p.parts| ==> ValidPart(p.parts[i])
  }

  /** The fields of `s` between slashes, like `str::split('/')`. */
  function Split(s: string): (fields: seq<string>)
    ensures |fields| > 0
    ensures forall i :: 0 <= i < |fields| ==> '/' !in fields[i]
  {
    var fields := SplitOn(s, "/");
    forall i | 0 <= i < |fields|
      ensures '/' !in fields[i]
    {
      ContainsChar(fields[i], '/');
    }
    fields
  }

  /** The fields that name components: no empty ones and no `.`. */
  function Components(fields: seq<string>): (parts: seq<string>)
    requires forall i :: 0 <= i < |fields| ==> '/' !in fields[i]
    ensures forall i :: 0 <= i < |parts| ==> ValidPart(parts[i])
  {
    if fields == [] then []
    else if fields[0] == [] || fields[0] == "." then Components(fields[1..])
    else [fields[0]] + Components(fields[1..])
  }

  /** The path a piece of text names. */
  function Parse(s: string): (p: Path)
    ensures WellFormed(p)
  {
    Path(|s| > 0 && s[0] == '/', Components(Split(s)))
  }

  /** The canonical text of a path. */
  function Render(p: Path): string {
    if p.absolute then "/" + JoinOn(p.parts, "/") else JoinOn(p.parts, "/")
  }

  /** `Path::file_name`: the last component unless it is `..` (or there is
      none). */
  function FileName(p: Path): Option<string> {
    if p.parts != [] && p.parts[|p.parts| - 1] != ".." then Some(p.parts[|p.parts| - 1])
    else None
  }

  /** `PathBuf::pop`: drop the last component. */
  function Pop(p: Path): Path {
    if p.parts == [] then p else Path(p.absolute, p.parts[..|p.parts| - 1])
  }

  /** `PathBuf::push`: an absolute path replaces the whole path, a relative
      one is appended. */
  function Push(p: Path, q: Path): Path {
    if q.absolute then q else Path(p.absolute, p.parts + q.parts)
  }

  /** `Path::with_file_name`: drop the file name, if there is one, then
      push the new name. */
  function WithFileName(base: Path, name: Path): Path {
    Push(if FileName(base).Some? then Pop(base) else base, name)
  }

  lemma SplitJoin(fields: seq<string>)
    requires |fields| > 0
    requires forall i :: 0 <= i < |fields| ==> '/' !in fields[i]
    ensures Split(JoinOn(fields, "/")) == fields
  {
    forall i | 0 <= i < |fields|
      ensures !Contains(fields[i], "/")
    {
      ContainsChar(fields[i], '/');
    }
    SplitOnJoin(fields, "/");
  }

  lemma {:induction false} ComponentsOfValid(parts: seq<string>)
    requires forall i :: 0 <= i < |parts| ==> ValidPart(parts[i])
    ensures forall i :: 0 <= i < |parts| ==> '/' !in parts[i]
    ensures Components(parts) == parts
    decreases |parts|
  {
    forall i | 0 <= i < |parts|
      ensures '/' !in parts[i]
    {
      assert ValidPart(parts[i]);
    }
    if parts != [] {
      ComponentsOfValid(parts[1..]);
      assert [parts[0]] + parts[1..] == parts;
    }
  }

  lemma {:induction false} JoinStart(fields: seq<string>)
    requires |fields| > 0 && |fields[0]| > 0
    ensures |JoinOn(fields, "/")| > 0 && JoinOn(fields, "/")[0] == fields[0][0]
  {
  }

  /** The root alone is the text `/`. */
  lemma ParseRoot()
    ensures Parse("/") == Path(true, [])
  {
    var fields: seq<string> := [[], []];
    assert JoinOn(fields, "/") == "/";
    SplitJoin(fields);
    assert Components(fields[1..]) == [];
  }

  lemma SlashFirst(parts: seq<string>)
    requires parts != [] && forall i :: 0 <= i < |parts| ==> '/' !in parts[i]
    ensures JoinOn([[]] + parts, "/") == "/" + JoinOn(parts, "/")
    ensures forall i :: 0 <= i < |[[]] + parts| ==> '/' !in ([[]] + parts)[i]
  {
    JoinOnCons([], parts, "/");
    var fields := [[]] + parts;
    forall i | 0 <= i < |fields|
      ensures '/' !in fields[i]
    {
      if i > 0 {
        assert fields[i] == parts[i - 1];
      }
    }
  }

  lemma SkipEmpty(parts: seq<string>)
    requires forall i :: 0 <= i < |parts| ==> '/' !in parts[i]
    ensures Components([[]] + parts) == Components(parts)
  {
    assert ([[]] + parts)[1..] == parts;
  }

  lemma ParseAbsolute(parts: seq<string>)
    requires parts != [] && forall i :: 0 <= i < |parts| ==> ValidPart(parts[i])
    ensures Parse("/" + JoinOn(parts, "/")) == Path(true, parts)
  {
    ComponentsOfValid(parts);
    SlashFirst(parts);
    SplitJoin([[]] + parts);
    SkipEmpty(parts);
  }

  lemma ParseRelative(parts: seq<string>)
    requires parts != [] && forall i :: 0 <= i < |parts| ==> ValidPart(parts[i])
    ensures Parse(JoinOn(parts, "/")) == Path(false, parts)
  {
    ComponentsOfValid(parts);
    SplitJoin(parts);
    JoinStart(parts);
  }

  /** Reading back the canonical text of a path gives the same path. */
  lemma ParseRender(p: Path)
    requires WellFormed(p)
    ensures Parse(Render(p)) == p
  {
    if p.absolute && p.parts == [] {
      ParseRoot();
    } else if p.absolute {
      ParseAbsolute(p.parts);
    } else if p.parts == [] {
      SplitJoin([[]]);
    } else {
      ParseRelative(p.parts);
    }
  }
}
