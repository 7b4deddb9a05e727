/**
 * What `resolve_excel_file` promises: an independent statement of its result
 * over the filesystem snapshot, and the individual guarantees about explicit
 * files, missing paths and directory scans.
 */
module ResolverProperties {
  import opened Results
  import opened PyStr
  import opened PathNames
  import opened Resolver

  /** The allow-list test, read as "the name ends in one of the three extensions, ignoring case, after a non-empty stem". */
  lemma ExcelNameIff(name: string)
    ensures IsExcelName(name) <==>
      EndsWithExtension(name, ".xlsx") || EndsWithExtension(name, ".xls") || EndsWithExtension(name, ".xlsm")
  {
    assert IsExtension(".xlsx") && IsExtension(".xls") && IsExtension(".xlsm");
    SuffixIsExtension(name, ".xlsx");
    SuffixIsExtension(name, ".xls");
    SuffixIsExtension(name, ".xlsm");
  }

  /** Names that differ only in the case of ASCII letters are accepted or refused alike. */
  lemma ExcelNameIgnoresCase(a: string, b: string)
    requires Lower(a) == Lower(b)
    ensures IsExcelName(a) == IsExcelName(b)
  {
    SuffixOfLower(a);
    SuffixOfLower(b);
    LowerIdempotent(Suffix(a));
    LowerIdempotent(Suffix(b));
  }

  /**
   * An existing regular file is returned unchanged exactly when its lowered
   * suffix is allowed, and refused as "Not an Excel file" otherwise; its
   * modification time plays no part.
   */
  lemma ExplicitFile(fs: FileSystem, p: Path, m: int)
    requires IsFile(fs, p)
    ensures Resolve(fs, p) == Ok(p) <==> IsExcelName(Name(p))
    ensures !IsExcelName(Name(p)) ==> Resolve(fs, p) == Err(NotAnExcelFile(p))
    ensures Resolve(fs[p := File(m)], p) == Resolve(fs, p)
  {
  }

  /** A path that is neither a regular file nor a directory fails with "Path does not exist". */
  lemma MissingPath(fs: FileSystem, p: Path)
    requires !IsFile(fs, p) && !IsDir(fs, p)
    ensures Resolve(fs, p) == Err(PathDoesNotExist(p))
  {
  }

  /** A directory's result, when there is one, is one of its listed entries, a regular file with an allowed suffix, one level down. */
  lemma DirectoryResultIsListedCandidate(fs: FileSystem, dir: Path)
    requires IsDir(fs, dir) && Resolve(fs, dir).Ok?
    ensures var r := Resolve(fs, dir).value;
      && |r| == |dir| + 1 && r[..|dir|] == dir
      && r[|dir|] in fs[dir].children
      && IsFile(fs, r) && !IsDir(fs, r)
      && IsExcelName(r[|dir|])
  {
    var cs := Candidates(fs, dir, fs[dir].children);
    ResolveDirectory(fs, dir);
    assert ListedCandidate(fs, dir, fs[dir].children, Resolve(fs, dir).value);
  }

  /** A directory fails with "No Excel files found" exactly when none of its entries qualifies. */
  lemma NoExcelFiles(fs: FileSystem, dir: Path)
    requires IsDir(fs, dir)
    ensures var ch := fs[dir].children;
      Resolve(fs, dir) == Err(NoExcelFilesFound(dir)) <==>
      forall k :: 0 <= k < |ch| ==> !IsCandidate(fs, dir, ch[k])
  {
    var ch := fs[dir].children;
    var cs := Candidates(fs, dir, ch);
    if |cs| > 0 {
      assert ListedCandidate(fs, dir, ch, cs[0]);
    }
    if k :| 0 <= k < |ch| && IsCandidate(fs, dir, ch[k]) {
      CandidatesComplete(fs, dir, ch, k);
    }
  }

  /** The entry at index `i` is a qualifying file, no qualifying entry is newer, and every qualifying entry listed before it is strictly older. */
  ghost predicate FirstNewestEntry(fs: FileSystem, dir: Path, ch: seq<string>, i: nat) {
    && i < |ch| && IsCandidate(fs, dir, ch[i])
    && (forall j :: 0 <= j < |ch| && IsCandidate(fs, dir, ch[j]) ==>
          Mtime(fs, Join(dir, ch[j])) <= Mtime(fs, Join(dir, ch[i])))
    && (forall j :: 0 <= j < i && IsCandidate(fs, dir, ch[j]) ==>
          Mtime(fs, Join(dir, ch[j])) < Mtime(fs, Join(dir, ch[i])))
  }

  /** A directory resolves to the candidate `max` picks, or fails when it lists no candidate. */
  lemma ResolveDirectory(fs: FileSystem, dir: Path)
    requires IsDir(fs, dir)
    ensures var cs := Candidates(fs, dir, fs[dir].children);
      Resolve(fs, dir) == if |cs| == 0 then Err(NoExcelFilesFound(dir)) else Ok(cs[Newest(fs, cs)])
  {
  }

  /** The candidate list around a qualifying entry: those listed before it, then it, then those after it. */
  lemma CandidatesAround(fs: FileSystem, dir: Path, ch: seq<string>, i: nat)
    requires i < |ch| && IsCandidate(fs, dir, ch[i])
    ensures Candidates(fs, dir, ch) ==
      Candidates(fs, dir, ch[..i]) + [Join(dir, ch[i])] + Candidates(fs, dir, ch[i + 1..])
  {
    assert ch == ch[..i] + ([ch[i]] + ch[i + 1..]);
    CandidatesAppend(fs, dir, ch[..i], [ch[i]] + ch[i + 1..]);
    CandidatesAppend(fs, dir, [ch[i]], ch[i + 1..]);
    assert Candidates(fs, dir, [ch[i]]) == [Join(dir, ch[i])];
  }

  /** `max` returns the index of a candidate when none is newer and every earlier one is strictly older. */
  lemma NewestIsFirstMaximal(fs: FileSystem, cs: seq<Path>, n: nat)
    requires AllFiles(fs, cs) && n < |cs|
    requires forall j :: 0 <= j < |cs| ==> Mtime(fs, cs[j]) <= Mtime(fs, cs[n])
    requires forall j :: 0 <= j < n ==> Mtime(fs, cs[j]) < Mtime(fs, cs[n])
    ensures Newest(fs, cs) == n
  {
  }

  /**
   * The newest qualifying entry is chosen, and among entries sharing the
   * newest modification time the one enumerated first, as Python's `max`
   * keeps the first maximal element.
   */
  lemma {:induction false} FirstNewestChosen(fs: FileSystem, dir: Path, i: nat)
    requires IsDir(fs, dir) && FirstNewestEntry(fs, dir, fs[dir].children, i)
    ensures Resolve(fs, dir) == Ok(Join(dir, fs[dir].children[i]))
  {
    var ch := fs[dir].children;
    var cs := Candidates(fs, dir, ch);
    var before := Candidates(fs, dir, ch[..i]);
    CandidatesAround(fs, dir, ch, i);
    var n := |before|;
    var mine := Join(dir, ch[i]);
    assert cs[n] == mine;
    forall j | 0 <= j < |cs|
      ensures Mtime(fs, cs[j]) <= Mtime(fs, mine)
    {
      assert ListedCandidate(fs, dir, ch, cs[j]);
    }
    forall j | 0 <= j < n
      ensures Mtime(fs, cs[j]) < Mtime(fs, mine)
    {
      assert cs[j] == before[j];
      assert ListedCandidate(fs, dir, ch[..i], before[j]);
      var h :| 0 <= h < i && before[j] == Join(dir, ch[..i][h]) && IsCandidate(fs, dir, ch[..i][h]);
      assert ch[..i][h] == ch[h];
    }
    NewestIsFirstMaximal(fs, cs, n);
    ResolveDirectory(fs, dir);
  }

  /** The result of a directory scan has a modification time at least that of every qualifying entry. */
  lemma NewestCandidateWins(fs: FileSystem, dir: Path, k: nat)
    requires IsDir(fs, dir) && k < |fs[dir].children| && IsCandidate(fs, dir, fs[dir].children[k])
    ensures Resolve(fs, dir).Ok?
    ensures Mtime(fs, Join(dir, fs[dir].children[k])) <= Mtime(fs, Resolve(fs, dir).value)
  {
    var ch := fs[dir].children;
    var cs := Candidates(fs, dir, ch);
    CandidatesComplete(fs, dir, ch, k);
  }

  /** Among the qualifying entries with modification time `m`, one at or before index `k` that no earlier one shares `m` with. */
  lemma {:induction false} EarliestWithMtime(fs: FileSystem, dir: Path, ch: seq<string>, k: nat, m: int) returns (i: nat)
    requires k < |ch| && IsCandidate(fs, dir, ch[k]) && Mtime(fs, Join(dir, ch[k])) == m
    ensures i <= k && IsCandidate(fs, dir, ch[i]) && Mtime(fs, Join(dir, ch[i])) == m
    ensures forall h :: 0 <= h < i && IsCandidate(fs, dir, ch[h]) ==> Mtime(fs, Join(dir, ch[h])) != m
  {
    if h :| 0 <= h < k && IsCandidate(fs, dir, ch[h]) && Mtime(fs, Join(dir, ch[h])) == m {
      i := EarliestWithMtime(fs, dir, ch, h, m);
    } else {
      i := k;
    }
  }

  /** The resolver's result stated without reference to how it is computed. */
  ghost predicate ResolvedAsSpecified(fs: FileSystem, p: Path, r: Result<Path, ResolveError>) {
    if IsFile(fs, p) then
      r == (if IsExcelName(Name(p)) then Ok(p) else Err(NotAnExcelFile(p)))
    else if IsDir(fs, p) then
      var ch := fs[p].children;
      if forall k :: 0 <= k < |ch| ==> !IsCandidate(fs, p, ch[k]) then r == Err(NoExcelFilesFound(p))
      else exists i: nat :: FirstNewestEntry(fs, p, ch, i) && r == Ok(Join(p, ch[i]))
    else
      r == Err(PathDoesNotExist(p))
  }

  /** `Resolve` meets the statement above on every snapshot and path. */
  lemma ResolveMeetsSpec(fs: FileSystem, p: Path)
    ensures ResolvedAsSpecified(fs, p, Resolve(fs, p))
  {
    if !IsFile(fs, p) && IsDir(fs, p) {
      var ch := fs[p].children;
      NoExcelFiles(fs, p);
      if !forall k :: 0 <= k < |ch| ==> !IsCandidate(fs, p, ch[k]) {
        var r := Resolve(fs, p).value;
        DirectoryResultIsListedCandidate(fs, p);
        assert ListedCandidate(fs, p, ch, r);
        var k :| 0 <= k < |ch| && r == Join(p, ch[k]) && IsCandidate(fs, p, ch[k]);
        forall j | 0 <= j < |ch| && IsCandidate(fs, p, ch[j])
          ensures Mtime(fs, Join(p, ch[j])) <= Mtime(fs, r)
        {
          NewestCandidateWins(fs, p, j);
        }
        var i := EarliestWithMtime(fs, p, ch, k, Mtime(fs, r));
        assert FirstNewestEntry(fs, p, ch, i);
        FirstNewestChosen(fs, p, i);
      }
    }
  }

  /** Two first-newest entries of one listing are the same entry. */
  lemma FirstNewestEntryIsUnique(fs: FileSystem, dir: Path, ch: seq<string>, i1: nat, i2: nat)
    requires FirstNewestEntry(fs, dir, ch, i1) && FirstNewestEntry(fs, dir, ch, i2)
    ensures i1 == i2
  {
  }

  /** The statement determines the result: no two different results meet it. */
  lemma ResolvedAsSpecifiedIsUnique(fs: FileSystem, p: Path, r1: Result<Path, ResolveError>, r2: Result<Path, ResolveError>)
    requires ResolvedAsSpecified(fs, p, r1) && ResolvedAsSpecified(fs, p, r2)
    ensures r1 == r2
  {
    if !IsFile(fs, p) && IsDir(fs, p) {
      var ch := fs[p].children;
      if !forall k :: 0 <= k < |ch| ==> !IsCandidate(fs, p, ch[k]) {
        var i1: nat :| FirstNewestEntry(fs, p, ch, i1) && r1 == Ok(Join(p, ch[i1]));
        var i2: nat :| FirstNewestEntry(fs, p, ch, i2) && r2 == Ok(Join(p, ch[i2]));
        FirstNewestEntryIsUnique(fs, p, ch, i1, i2);
      }
    }
  }

  /** `p` holds the same entry, or is absent, in both snapshots. */
  predicate SameEntry(fs: FileSystem, fs': FileSystem, p: Path) {
    (p in fs <==> p in fs') && (p in fs ==> fs[p] == fs'[p])
  }

  /** The candidate list depends only on the entries at the joined paths. */
  lemma {:induction false} CandidatesFrame(fs: FileSystem, fs': FileSystem, dir: Path, names: seq<string>)
    requires forall k :: 0 <= k < |names| ==> SameEntry(fs, fs', Join(dir, names[k]))
    ensures Candidates(fs, dir, names) == Candidates(fs', dir, names)
  {
    if |names| > 0 {
      assert SameEntry(fs, fs', Join(dir, names[0]));
      assert forall k :: 0 <= k < |names[1..]| ==> names[1..][k] == names[k + 1];
      CandidatesFrame(fs, fs', dir, names[1..]);
    }
  }

  /** The choice among candidates depends only on the entries of the candidates. */
  lemma {:induction false} NewestFromFrame(fs: FileSystem, fs': FileSystem, cs: seq<Path>, best: nat, i: nat)
    requires AllFiles(fs, cs) && best < i <= |cs|
    requires forall j :: 0 <= j < |cs| ==> SameEntry(fs, fs', cs[j])
    requires forall j :: 0 <= j < i ==> Mtime(fs, cs[j]) <= Mtime(fs, cs[best])
    requires forall j :: 0 <= j < best ==> Mtime(fs, cs[j]) < Mtime(fs, cs[best])
    ensures AllFiles(fs', cs)
    ensures forall j :: 0 <= j < |cs| ==> Mtime(fs, cs[j]) == Mtime(fs', cs[j])
    ensures NewestFrom(fs, cs, best, i) == NewestFrom(fs', cs, best, i)
    decreases |cs| - i
  {
    assert forall j :: 0 <= j < |cs| ==> fs[cs[j]] == fs'[cs[j]];
    if i < |cs| {
      if Mtime(fs, cs[i]) > Mtime(fs, cs[best]) {
        NewestFromFrame(fs, fs', cs, i, i + 1);
      } else {
        NewestFromFrame(fs, fs', cs, best, i + 1);
      }
    }
  }

  /** The listing of `dir` with one more name `c` at position `q`, among the names already listed. */
  function InsertAt(ch: seq<string>, q: nat, c: string): (ch': seq<string>)
    requires q <= |ch|
    ensures |ch'| == |ch| + 1 && ch'[q] == c
    ensures forall j :: 0 <= j < q ==> ch'[j] == ch[j]
    ensures forall j :: q < j < |ch'| ==> ch'[j] == ch[j - 1]
  {
    ch[..q] + ([c] + ch[q..])
  }

  /** The snapshot after one more entry `c`, holding `e`, appears at position `q` of the listing of directory `dir`. */
  function WithEntry(fs: FileSystem, dir: Path, q: nat, c: string, e: Entry): (fs': FileSystem)
    requires IsDir(fs, dir) && q <= |fs[dir].children|
    ensures IsDir(fs', dir) && fs'[dir].children == InsertAt(fs[dir].children, q, c)
    ensures Join(dir, c) in fs' && fs'[Join(dir, c)] == e
  {
    fs[dir := Dir(InsertAt(fs[dir].children, q, c))][Join(dir, c) := e]
  }

  /** Adding the entry changes nothing at the paths of the other listed entries. */
  lemma WithEntryKeepsListed(fs: FileSystem, dir: Path, q: nat, c: string, e: Entry)
    requires IsDir(fs, dir) && q <= |fs[dir].children| && c !in fs[dir].children
    ensures var ch := fs[dir].children;
      forall k :: 0 <= k < |ch| ==> SameEntry(fs, WithEntry(fs, dir, q, c, e), Join(dir, ch[k]))
  {
    var ch := fs[dir].children;
    forall k | 0 <= k < |ch|
      ensures SameEntry(fs, WithEntry(fs, dir, q, c, e), Join(dir, ch[k]))
    {
      assert Join(dir, ch[k]) != Join(dir, c) by {
        assert Join(dir, ch[k])[|dir|] != Join(dir, c)[|dir|];
      }
      assert |Join(dir, ch[k])| != |dir|;
    }
  }

  /** Two directories with the same candidate list, whose candidates hold the same entries, resolve alike. */
  lemma SameCandidatesSameResult(fs: FileSystem, fs': FileSystem, dir: Path)
    requires IsDir(fs, dir) && IsDir(fs', dir)
    requires Candidates(fs, dir, fs[dir].children) == Candidates(fs', dir, fs'[dir].children)
    requires var cs := Candidates(fs, dir, fs[dir].children);
      forall j :: 0 <= j < |cs| ==> SameEntry(fs, fs', cs[j])
    ensures Resolve(fs, dir) == Resolve(fs', dir)
  {
    var cs := Candidates(fs, dir, fs[dir].children);
    if |cs| > 0 {
      assert AllFiles(fs', cs);
      NewestFromFrame(fs, fs', cs, 0, 1);
      assert Newest(fs, cs) == Newest(fs', cs);
    }
    ResolveDirectory(fs, dir);
    ResolveDirectory(fs', dir);
  }

  /**
   * A new entry that is not a regular file with an allowed suffix (a
   * subdirectory, or a file of another type however recent) leaves the
   * directory's result unchanged.
   */
  lemma NonCandidateIgnored(fs: FileSystem, dir: Path, q: nat, c: string, e: Entry)
    requires IsDir(fs, dir) && q <= |fs[dir].children| && c !in fs[dir].children
    requires !(e.File? && IsExcelName(c))
    ensures Resolve(WithEntry(fs, dir, q, c, e), dir) == Resolve(fs, dir)
  {
    var ch := fs[dir].children;
    var fs' := WithEntry(fs, dir, q, c, e);
    WithEntryKeepsListed(fs, dir, q, c, e);
    CandidatesFrame(fs, fs', dir, ch);
    assert ch == ch[..q] + ch[q..];
    CandidatesAppend(fs', dir, ch[..q], ch[q..]);
    CandidatesAppend(fs', dir, ch[..q], [c] + ch[q..]);
    CandidatesAppend(fs', dir, [c], ch[q..]);
    assert !IsCandidate(fs', dir, c);
    assert Candidates(fs', dir, [c]) == [];
    assert Candidates(fs', dir, fs'[dir].children) == Candidates(fs, dir, ch);
    var cs := Candidates(fs, dir, ch);
    forall j | 0 <= j < |cs| ensures SameEntry(fs, fs', cs[j]) {
      assert ListedCandidate(fs, dir, ch, cs[j]);
    }
    SameCandidatesSameResult(fs, fs', dir);
  }

  /** A new allowed-suffix file strictly newer than every qualifying entry is the one chosen, wherever it is listed. */
  lemma NewerExcelFileChosen(fs: FileSystem, dir: Path, q: nat, c: string, m: int)
    requires IsDir(fs, dir) && q <= |fs[dir].children| && c !in fs[dir].children && IsExcelName(c)
    requires forall k :: 0 <= k < |fs[dir].children| && IsCandidate(fs, dir, fs[dir].children[k]) ==>
      Mtime(fs, Join(dir, fs[dir].children[k])) < m
    ensures Resolve(WithEntry(fs, dir, q, c, File(m)), dir) == Ok(Join(dir, c))
  {
    var ch := fs[dir].children;
    var fs' := WithEntry(fs, dir, q, c, File(m));
    WithEntryKeepsListed(fs, dir, q, c, File(m));
    var ch' := fs'[dir].children;
    forall j | 0 <= j < |ch'| && j != q && IsCandidate(fs', dir, ch'[j])
      ensures Mtime(fs', Join(dir, ch'[j])) < m
    {
      var k := if j < q then j else j - 1;
      assert ch'[j] == ch[k];
      assert SameEntry(fs, fs', Join(dir, ch[k]));
    }
    assert FirstNewestEntry(fs', dir, ch', q);
    FirstNewestChosen(fs', dir, q);
  }

  /** Concrete names: the suffix is matched ignoring case, a text file is no spreadsheet, and neither is a name that is only an extension. */
  lemma ExcelNameExamples()
    ensures IsExcelName("B.XLSM") && IsExcelName("c.xls")
    ensures !IsExcelName("notes.txt") && !IsExcelName(".xlsx")
  {
    RFindAt("B.XLSM", '.', 1);
    assert Suffix("B.XLSM") == ".XLSM";
    assert Lower(".XLSM") == ".xlsm";
    RFindAt("c.xls", '.', 1);
    assert Suffix("c.xls") == ".xls";
    assert Lower(".xls") == ".xls";
    RFindAt("notes.txt", '.', 5);
    assert Suffix("notes.txt") == ".txt";
    assert Lower(".txt")[1] == 't';
    RFindAt(".xlsx", '.', 0);
  }

  /** A directory "d" listing a text file and two spreadsheets, all modified at the same time. */
  function SampleSnapshot(): (fs: FileSystem)
    ensures IsDir(fs, ["d"])
  {
    map[["d"] := Dir(["notes.txt", "B.XLSM", "c.xls"]),
        ["d", "notes.txt"] := File(9), ["d", "B.XLSM"] := File(9), ["d", "c.xls"] := File(9)]
  }

  /** The candidates of the sample directory: the two spreadsheets, in listing order. */
  lemma SampleCandidates()
    ensures Candidates(SampleSnapshot(), ["d"], SampleSnapshot()[["d"]].children) == [["d", "B.XLSM"], ["d", "c.xls"]]
  {
    var fs := SampleSnapshot();
    var d: Path := ["d"];
    ExcelNameExamples();
    assert Join(d, "c.xls") == ["d", "c.xls"];
    assert Join(d, "B.XLSM") == ["d", "B.XLSM"];
    assert Join(d, "notes.txt") == ["d", "notes.txt"];
    assert IsCandidate(fs, d, "c.xls") && IsCandidate(fs, d, "B.XLSM") && !IsCandidate(fs, d, "notes.txt");
    assert ["c.xls"][1..] == [];
    assert ["B.XLSM", "c.xls"][1..] == ["c.xls"];
    assert ["notes.txt", "B.XLSM", "c.xls"][1..] == ["B.XLSM", "c.xls"];
  }

  /**
   * The sample directory: the text file is skipped although it is as new as
   * any, and of the two spreadsheets sharing the newest time the one listed
   * first is chosen.
   */
  lemma DirectoryExample()
    ensures Resolve(SampleSnapshot(), ["d"]) == Ok(["d", "B.XLSM"])
  {
    var fs := SampleSnapshot();
    SampleCandidates();
    ResolveDirectory(fs, ["d"]);
    NewestIsFirstMaximal(fs, [["d", "B.XLSM"], ["d", "c.xls"]], 0);
  }
}
