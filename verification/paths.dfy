/**
 * The slice of Python's `pathlib.PurePosixPath` the add-on uses: joining with `/`,
 * `name`, `parent`, `stem`, `suffix`, `with_suffix` and `str()`.
 */
module Paths {
  import Text

  const Sep: char := '/'

  /** A component as pathlib stores it: never empty, never `.`, never holding a separator. */
  predicate IsPart(s: string)
  {
    s != "" && s != "." && Sep !in s
  }

  datatype PurePath = PurePath(absolute: bool, parts: seq<string>)

  predicate Valid(p: PurePath)
  {
    forall i :: 0 <= i < |p.parts| ==> IsPart(p.parts[i])
  }

  /** Every path pathlib can hold. */
  type Path = p: PurePath | Valid(p) witness PurePath(false, [])

  /** The fields of a split that pathlib keeps. */
  function KeepParts(xs: seq<string>): (r: seq<string>)
    ensures forall i :: 0 <= i < |r| ==> IsPart(r[i])
  {
    if |xs| == 0 then []
    else if IsPart(xs[0]) then [xs[0]] + KeepParts(xs[1..])
    else KeepParts(xs[1..])
  }

  function Components(s: string): (r: seq<string>)
    ensures forall i :: 0 <= i < |r| ==> IsPart(r[i])
  {
    KeepParts(Text.Split(s, Sep))
  }

  /** `Path(s)`: repeated and trailing separators and `.` components vanish. */
  function Parse(s: string): (p: Path)
    ensures p.absolute <==> |s| > 0 && s[0] == Sep
  {
    PurePath(|s| > 0 && s[0] == Sep, Components(s))
  }

  /** `p / s`: an absolute `s` replaces `p`, otherwise its components are appended. */
  function Join(p: Path, s: string): Path
  {
    if |s| > 0 && s[0] == Sep then Parse(s)
    else PurePath(p.absolute, p.parts + Components(s))
  }

  /** `p.name`: the last component, or the empty string for a root or `.`. */
  function Name(p: Path): string
  {
    if |p.parts| == 0 then "" else p.parts[|p.parts| - 1]
  }

  /** `p.parent`: a root or `.` is its own parent. */
  function Parent(p: Path): Path
  {
    if |p.parts| == 0 then p else PurePath(p.absolute, p.parts[..|p.parts| - 1])
  }

  /** `str(p)`. */
  function ToString(p: Path): string
  {
    if p.absolute then [Sep] + Text.Join(p.parts, Sep)
    else if |p.parts| == 0 then "."
    else Text.Join(p.parts, Sep)
  }

  /** `name.suffix`: from the last dot, unless the dot leads or ends the name. */
  function Suffix(name: string): (r: string)
    ensures r == "" || (2 <= |r| < |name| && r == name[|name| - |r|..] && r[0] == '.')
  {
    var i := Text.RFind(name, '.');
    if 0 < i < |name| - 1 then name[i..] else ""
  }

  /** `name.stem`: the name without its suffix. */
  function Stem(name: string): (r: string)
    ensures r + Suffix(name) == name
    ensures name != "" ==> r != ""
  {
    var i := Text.RFind(name, '.');
    if 0 < i < |name| - 1 then name[..i] else name
  }

  /** `p.with_suffix(suffix)`; pathlib raises on a path with an empty name. */
  function WithSuffix(p: Path, suffix: string): (r: Path)
    requires Name(p) != ""
    requires Sep !in suffix && suffix != "" && suffix[0] == '.' && suffix != "."
    ensures Parent(r) == Parent(p)
    ensures Name(r) == Stem(Name(p)) + suffix
  {
    PurePath(p.absolute, Parent(p).parts + [Stem(Name(p)) + suffix])
  }

  /** A component joined onto a path is its name, and the path is its parent. */
  lemma JoinName(p: Path, name: string)
    requires IsPart(name)
    ensures Join(p, name) == PurePath(p.absolute, p.parts + [name])
    ensures Name(Join(p, name)) == name && Parent(Join(p, name)) == p
  {
    Text.SplitNoSep(name, Sep);
    assert KeepParts([name]) == [name];
    assert (p.parts + [name])[..|p.parts|] == p.parts;
  }

  /** Joining the name back onto the parent rebuilds the path. */
  lemma ParentJoinName(p: Path)
    requires |p.parts| > 0
    ensures Join(Parent(p), Name(p)) == p
  {
    JoinName(Parent(p), Name(p));
    assert p.parts[..|p.parts| - 1] + [Name(p)] == p.parts;
  }

  lemma {:induction false} KeepValid(xs: seq<string>)
    requires forall i :: 0 <= i < |xs| ==> IsPart(xs[i])
    ensures KeepParts(xs) == xs
  {
    if |xs| > 0 {
      KeepValid(xs[1..]);
      assert [xs[0]] + xs[1..] == xs;
    }
  }

  /** `Path(str(p)) == p`: printing a path and parsing it again loses nothing. */
  lemma ParseToString(p: Path)
    ensures Parse(ToString(p)) == p
  {
    var s := ToString(p);
    if |p.parts| == 0 {
      if p.absolute {
        assert s == [Sep] && s[1..] == "";
        assert Text.Split(s, Sep) == ["", ""];
        assert KeepParts(["", ""]) == [];
      } else {
        assert s == "." && s[1..] == "";
        assert Text.Split(s[1..], Sep) == [""];
        assert Text.Split(s, Sep) == [[s[0]] + ""];
        assert KeepParts(["."]) == [];
      }
    } else {
      var body := Text.Join(p.parts, Sep);
      Text.SplitJoin(p.parts, Sep);
      KeepValid(p.parts);
      if p.absolute {
        assert s == [] + [Sep] + body;
        Text.SplitCons("", Sep, body);
        assert s[0] == Sep;
      } else {
        assert p.parts[0] != "" && Sep !in p.parts[0];
        assert body[0] != Sep by {
          if |p.parts| == 1 {
          } else {
            assert body == p.parts[0] + [Sep] + Text.Join(p.parts[1..], Sep);
          }
          assert body[0] == p.parts[0][0];
        }
      }
    }
  }

  /** `with_suffix('.vtf')` always yields a name whose suffix is `.vtf`, and keeps the stem. */
  lemma WithSuffixVtf(p: Path)
    requires Name(p) != ""
    ensures Suffix(Name(WithSuffix(p, ".vtf"))) == ".vtf"
    ensures Stem(Name(WithSuffix(p, ".vtf"))) == Stem(Name(p))
  {
    var stem := Stem(Name(p));
    var n := stem + ".vtf";
    assert n[|stem|] == '.';
    assert forall j :: |stem| < j < |n| ==> n[j] != '.';
    assert Text.RFind(n, '.') == |stem| by {
      var i := Text.RFind(n, '.');
      assert i >= |stem|;
    }
    assert n[|stem|..] == ".vtf";
    assert n[..|stem|] == stem;
  }
}
