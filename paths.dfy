/** java.nio.file paths on a Unix file system: Paths.get, toString,
    getFileName, toAbsolutePath and normalize. */
module Paths {
  import opened Wrappers
  import opened JavaStrings

  /** A parsed path: whether it starts at the root, and its name elements. */
  datatype Path = Path(absolute: bool, names: seq<string>)

  datatype PathError =
    | NullArgument   // a null component: NullPointerException
    | InvalidPath    // a NUL character: InvalidPathException

  /** A name element as the parser produces it. */
  predicate ValidName(n: string) {
    n != "" && '/' !in n && '\0' !in n
  }

  predicate ValidPath(p: Path) {
    forall i :: 0 <= i < |p.names| ==> ValidName(p.names[i])
  }

  function NonEmpty(fs: seq<string>): (r: seq<string>)
    ensures forall i :: 0 <= i < |r| ==> r[i] != ""
  {
    if fs == [] then []
    else if fs[0] == "" then NonEmpty(fs[1..])
    else [fs[0]] + NonEmpty(fs[1..])
  }

  /** Parsing a path string: redundant and trailing slashes disappear, and a NUL
      character is rejected. */
  function Parse(s: string): (r: Result<Path, PathError>)
    ensures r.Err? <==> '\0' in s
    ensures r.Ok? ==> ValidPath(r.value) && (r.value.absolute <==> |s| > 0 && s[0] == '/')
  {
    if '\0' in s then Err(InvalidPath)
    else
      FieldsNoNul(s);
      FieldsJoin(s, '/');
      NonEmptyKeeps(Fields(s, '/'));
      Ok(Path(|s| > 0 && s[0] == '/', NonEmpty(Fields(s, '/'))))
  }

  lemma FieldsNoNul(s: string)
    requires '\0' !in s
    ensures forall f :: f in Fields(s, '/') ==> '\0' !in f
  {
    FieldsJoin(s, '/');
    forall f | f in Fields(s, '/') ensures '\0' !in f {
      var fs := Fields(s, '/');
      var k :| 0 <= k < |fs| && fs[k] == f;
      JoinContains(fs, '/', k);
    }
  }

  lemma {:induction false} JoinContains(fs: seq<string>, sep: char, k: nat)
    requires k < |fs|
    ensures forall c :: c in fs[k] ==> c in Join(fs, sep)
  {
    if |fs| > 1 && k > 0 {
      JoinContains(fs[1..], sep, k - 1);
    }
  }

  lemma {:induction false} NonEmptyKeeps(fs: seq<string>)
    ensures forall f :: f in NonEmpty(fs) ==> f in fs
  {
    if fs != [] {
      NonEmptyKeeps(fs[1..]);
    }
  }

  /** The string form of a path. */
  function ToString(p: Path): string {
    (if p.absolute then "/" else "") + Join(p.names, '/')
  }

  /** Paths.get(first, more...): the non-empty components are joined with '/'
      and the result parsed; a null component is a NullPointerException. */
  function Get(first: Option<string>, more: seq<Option<string>>): (r: Result<Path, PathError>)
    ensures (first.None? || exists i :: 0 <= i < |more| && more[i].None?) ==> r == Err(NullArgument)
  {
    if first.None? then Err(NullArgument)
    else
      match Concat(first.value, more)
      case None => Err(NullArgument)
      case Some(s) => Parse(s)
  }

  /** The string StringBuilder assembles in Paths.get. */
  function Concat(acc: string, more: seq<Option<string>>): (r: Option<string>)
    ensures r.None? <==> exists i :: 0 <= i < |more| && more[i].None?
    decreases |more|
  {
    if more == [] then Some(acc)
    else if more[0].None? then None
    else
      var seg := more[0].value;
      var r := Concat(if seg == "" then acc else if acc == "" then seg else acc + "/" + seg, more[1..]);
      assert forall i :: 1 <= i < |more| ==> more[i] == more[1..][i - 1];
      r
  }

  /** Path.getFileName().toString(): the last name; the empty path names
      itself; the root has no file name (null). */
  function FileName(p: Path): (r: Option<string>)
    ensures r.None? <==> p.absolute && p.names == []
    ensures p.names != [] ==> r == Some(p.names[|p.names| - 1])
  {
    if p.names != [] then Some(p.names[|p.names| - 1])
    else if p.absolute then None
    else Some("")
  }

  /** Path.toAbsolutePath(): a relative path is appended to the working
      directory, without normalisation. */
  function ToAbsolute(p: Path, workingDir: seq<string>): (r: Path)
    ensures r.absolute
    ensures p.absolute ==> r == p
    ensures !p.absolute ==> r.names == workingDir + p.names
  {
    if p.absolute then p else Path(true, workingDir + p.names)
  }

  /** One step of Path.normalize(): "." vanishes, ".." cancels the preceding
      ordinary name, disappears at the root of an absolute path, and is kept
      at the start of a relative one. */
  function Step(absolute: bool, acc: seq<string>, name: string): seq<string> {
    if name == "." then acc
    else if name == ".." then
      if |acc| > 0 && acc[|acc| - 1] != ".." then acc[..|acc| - 1]
      else if absolute then acc
      else acc + [name]
    else acc + [name]
  }

  function NormalizeNames(absolute: bool, names: seq<string>): seq<string> {
    if names == [] then []
    else Step(absolute, NormalizeNames(absolute, names[..|names| - 1]), names[|names| - 1])
  }

  /** Path.normalize(). */
  function Normalize(p: Path): Path {
    Path(p.absolute, NormalizeNames(p.absolute, p.names))
  }

  /** The shape of a normalised name list: no "." at all, and every ".." in a
      leading run, which an absolute path does not have. */
  predicate NormalForm(absolute: bool, ns: seq<string>) {
    && (forall i :: 0 <= i < |ns| ==> ns[i] != ".")
    && (forall i :: 0 <= i < |ns| && ns[i] == ".." ==> !absolute && forall j :: 0 <= j < i ==> ns[j] == "..")
  }

  lemma StepKeepsNormalForm(absolute: bool, acc: seq<string>, name: string)
    requires NormalForm(absolute, acc)
    ensures NormalForm(absolute, Step(absolute, acc, name))
  {
    if name == ".." && !(|acc| > 0 && acc[|acc| - 1] != "..") && !absolute {
      var r := acc + [name];
      forall i | 0 <= i < |r| && r[i] == ".." ensures forall j :: 0 <= j < i ==> r[j] == ".." {
        if i == |acc| && |acc| > 0 {
          assert acc[|acc| - 1] == "..";
        }
      }
    }
  }

  lemma {:induction false} NormalizeNamesNormalForm(absolute: bool, names: seq<string>)
    ensures NormalForm(absolute, NormalizeNames(absolute, names))
  {
    if names != [] {
      NormalizeNamesNormalForm(absolute, names[..|names| - 1]);
      StepKeepsNormalForm(absolute, NormalizeNames(absolute, names[..|names| - 1]), names[|names| - 1]);
    }
  }

  lemma {:induction false} NormalFormIsFixed(absolute: bool, ns: seq<string>)
    requires NormalForm(absolute, ns)
    ensures NormalizeNames(absolute, ns) == ns
  {
    if ns != [] {
      var init := ns[..|ns| - 1];
      NormalFormInit(absolute, ns);
      NormalFormIsFixed(absolute, init);
      StepAppends(absolute, ns);
      assert init + [ns[|ns| - 1]] == ns;
    }
  }

  /** Dropping the last name keeps the normal form. */
  lemma NormalFormInit(absolute: bool, ns: seq<string>)
    requires NormalForm(absolute, ns) && ns != []
    ensures NormalForm(absolute, ns[..|ns| - 1])
  {
    var init := ns[..|ns| - 1];
    forall i | 0 <= i < |init| ensures init[i] == ns[i] {
    }
  }

  /** In normal form, the last name is appended by its normalisation step. */
  lemma StepAppends(absolute: bool, ns: seq<string>)
    requires NormalForm(absolute, ns) && ns != []
    ensures Step(absolute, ns[..|ns| - 1], ns[|ns| - 1]) == ns[..|ns| - 1] + [ns[|ns| - 1]]
  {
    var init, last := ns[..|ns| - 1], ns[|ns| - 1];
    assert last != ".";
    if last == ".." && |init| > 0 {
      assert init[|init| - 1] == ns[|ns| - 2] == "..";
    }
  }

  /** A normalised path has no "." element, an absolute one no ".." either,
      and normalising again changes nothing. */
  lemma NormalizeProperties(p: Path)
    ensures Normalize(p).absolute == p.absolute
    ensures "." !in Normalize(p).names
    ensures p.absolute ==> ".." !in Normalize(p).names
    ensures Normalize(Normalize(p)) == Normalize(p)
  {
    NormalizeNamesNormalForm(p.absolute, p.names);
    NormalFormIsFixed(p.absolute, Normalize(p).names);
  }

  /** Normalising keeps only names that were in the path. */
  lemma {:induction false} NormalizeNamesFrom(absolute: bool, names: seq<string>)
    ensures forall n :: n in NormalizeNames(absolute, names) ==> n in names
  {
    if names != [] {
      NormalizeNamesFrom(absolute, names[..|names| - 1]);
    }
  }

  lemma {:induction false} FieldsOfJoin(names: seq<string>, sep: char)
    requires |names| >= 1
    requires forall i :: 0 <= i < |names| ==> sep !in names[i]
    ensures Fields(Join(names, sep), sep) == names
  {
    if |names| == 1 {
      FieldsOfSepFree(names[0], sep);
    } else {
      FieldsOfJoin(names[1..], sep);
      FieldsWithSep(names[0], Join(names[1..], sep), sep);
    }
  }

  lemma {:induction false} NonEmptyOfNonEmpty(fs: seq<string>)
    requires forall i :: 0 <= i < |fs| ==> fs[i] != ""
    ensures NonEmpty(fs) == fs
  {
    if fs != [] {
      NonEmptyOfNonEmpty(fs[1..]);
    }
  }

  lemma {:induction false} JoinNoNul(names: seq<string>, sep: char)
    requires sep != '\0'
    requires forall i :: 0 <= i < |names| ==> '\0' !in names[i]
    ensures '\0' !in Join(names, sep)
  {
    if |names| > 1 {
      JoinNoNul(names[1..], sep);
    }
  }

  /** Printing a path and parsing the text back gives the same path, so two
      distinct paths never render alike. */
  lemma ParseToString(p: Path)
    requires ValidPath(p)
    ensures Parse(ToString(p)) == Ok(p)
  {
    var j := Join(p.names, '/');
    JoinNoNul(p.names, '/');
    var s := ToString(p);
    assert '\0' !in s;
    if p.names == [] {
      if p.absolute {
        assert s == "/";
        assert Fields(s, '/') == ["", ""];
      }
    } else {
      FieldsOfJoin(p.names, '/');
      NonEmptyOfNonEmpty(p.names);
      if p.absolute {
        assert s == "/" + j;
        assert Fields(s, '/') == [""] + Fields(j, '/');
        assert NonEmpty([""] + p.names) == p.names;
      } else {
        assert s == j;
        assert s[0] == p.names[0][0];
      }
    }
  }

  lemma ToStringInjective(p: Path, q: Path)
    requires ValidPath(p) && ValidPath(q)
    requires ToString(p) == ToString(q)
    ensures p == q
  {
    ParseToString(p);
    ParseToString(q);
  }
}
