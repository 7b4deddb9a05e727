/**
 * The parts of `pathlib.PurePath` the script uses. A path is the sequence of
 * its components; joining a directory with a child name (`dir / name`)
 * appends one component.
 */
module PathNames {
  import opened PyStr

  type Path = seq<string>

  /** `p / name`. */
  function Join(dir: Path, name: string): (p: Path)
    ensures |p| == |dir| + 1 && p[..|dir|] == dir && p[|dir|] == name
  {
    dir + [name]
  }

  /** `p.name`: the final component, empty for an empty path. */
  function Name(p: Path): (r: string)
    ensures |p| > 0 ==> r == p[|p| - 1]
    ensures |p| == 0 ==> r == ""
  {
    if |p| == 0 then "" else p[|p| - 1]
  }

  /**
   * `p.suffix`, computed on the final component: the text from its last '.'
   * onwards, provided that dot is neither the first character (a name such
   * as ".xlsx" has no suffix) nor the last one; otherwise empty.
   */
  function Suffix(name: string): (r: string)
  {
    var i := RFind(name, '.');
    if 0 < i < |name| - 1 then name[i..] else ""
  }

  /**
   * A suffix is empty, or a proper tail of the name after a non-empty stem
   * that starts with its only '.' and has at least one character after it.
   */
  lemma SuffixShape(name: string)
    ensures var r := Suffix(name);
      && (r == "" || (|r| >= 2 && r[0] == '.' && |r| < |name|))
      && (r != "" ==> name[|name| - |r|..] == r)
      && (forall j :: 0 < j < |r| ==> r[j] != '.')
  {
  }

  /** A dot-led extension without further dots, as written in the script's lists. */
  predicate IsExtension(ext: string) {
    |ext| >= 2 && ext[0] == '.' && (forall j :: 0 < j < |ext| ==> ext[j] != '.') && Lower(ext) == ext
  }

  /**
   * The independent reading of "the lowered suffix is `ext`": some proper,
   * non-initial tail of the name, lowered, spells `ext`.
   */
  ghost predicate EndsWithExtension(name: string, ext: string) {
    exists i :: 0 < i < |name| && Lower(name[i..]) == ext
  }

  /** Lowering commutes with taking the suffix. */
  lemma SuffixOfLower(name: string)
    ensures Suffix(Lower(name)) == Lower(Suffix(name))
  {
    RFindLower(name);
    var i := RFind(name, '.');
    if 0 < i < |name| - 1 {
      LowerSlice(name, i);
    }
  }

  /**
   * The lowered suffix of a name is a given extension exactly when some
   * non-initial tail of the name spells that extension, ignoring case.
   */
  lemma {:induction false} SuffixIsExtension(name: string, ext: string)
    requires IsExtension(ext)
    ensures Lower(Suffix(name)) == ext <==> EndsWithExtension(name, ext)
  {
    var s := Suffix(name);
    SuffixShape(name);
    if Lower(s) == ext {
      var i := |name| - |s|;
      assert name[i..] == s;
      assert 0 < i < |name|;
    }
    if EndsWithExtension(name, ext) {
      var i :| 0 < i < |name| && Lower(name[i..]) == ext;
      var t := name[i..];
      assert Lower(t)[0] == '.';
      LowerKeepsDots(t, 0);
      assert name[i] == '.';
      forall j | i < j < |name|
        ensures name[j] != '.'
      {
        assert Lower(t)[j - i] != '.';
        LowerKeepsDots(t, j - i);
      }
      RFindAt(name, '.', i);
      assert s == name[i..];
    }
  }

  /** Appending an extension to any non-empty stem, dotted or not, yields that extension as the suffix. */
  lemma SuffixOfJoinedExtension(stem: string, ext: string)
    requires |stem| > 0 && IsExtension(ext)
    ensures Suffix(stem + ext) == ext
  {
    var name := stem + ext;
    assert name[|stem|] == '.';
    forall j | |stem| < j < |name|
      ensures name[j] != '.'
    {
      assert name[j] == ext[j - |stem|];
    }
    RFindAt(name, '.', |stem|);
    assert name[|stem|..] == ext;
  }
}
