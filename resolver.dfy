/**
 * `resolve_excel_file`: from a user-supplied path to the spreadsheet that is
 * read, over a snapshot of the filesystem.
 */
module Resolver {
  import opened Results
  import opened PyStr
  import opened PathNames

  /** What the filesystem holds at a path: a regular file with its modification time, or a directory with its entry names in enumeration order. */
  datatype Entry = File(mtime: int) | Dir(children: seq<string>)

  /** A snapshot of the filesystem; a path that is not a key does not exist. */
  type FileSystem = map<Path, Entry>

  /** `EXCEL_SUFFIXES`. */
  const ExcelSuffixes: set<string> := {".xlsx", ".xls", ".xlsm"}

  /** The three errors the resolver raises, each carrying the path it was given. */
  datatype ResolveError =
    | NotAnExcelFile(path: Path)
    | PathDoesNotExist(path: Path)
    | NoExcelFilesFound(path: Path)

  /** `p.is_file()`. */
  predicate IsFile(fs: FileSystem, p: Path) {
    p in fs && fs[p].File?
  }

  /** `p.is_dir()`. */
  predicate IsDir(fs: FileSystem, p: Path) {
    p in fs && fs[p].Dir?
  }

  /** `p.stat().st_mtime`. */
  function Mtime(fs: FileSystem, p: Path): (m: int)
    requires IsFile(fs, p)
  {
    fs[p].mtime
  }

  /** `p.suffix.lower() in EXCEL_SUFFIXES`, for the final component `name` of `p`. */
  predicate IsExcelName(name: string) {
    Lower(Suffix(name)) in ExcelSuffixes
  }

  /**
   * The list-comprehension test: `dir / name` is a regular file with an
   * allowed suffix (the final component of `dir / name` is `name`).
   */
  predicate IsCandidate(fs: FileSystem, dir: Path, name: string) {
    IsFile(fs, Join(dir, name)) && IsExcelName(Name(Join(dir, name)))
  }

  /** Every entry of a candidate list is a regular file. */
  predicate AllFiles(fs: FileSystem, cs: seq<Path>) {
    forall j :: 0 <= j < |cs| ==> IsFile(fs, cs[j])
  }

  /** `p` is `dir / names[k]` for some qualifying entry `names[k]`. */
  ghost predicate ListedCandidate(fs: FileSystem, dir: Path, names: seq<string>, p: Path) {
    exists k :: 0 <= k < |names| && p == Join(dir, names[k]) && IsCandidate(fs, dir, names[k])
  }

  /** The candidate list: the qualifying entries of `names`, joined to `dir`, in enumeration order. */
  function Candidates(fs: FileSystem, dir: Path, names: seq<string>): (cs: seq<Path>)
    ensures |cs| <= |names|
    ensures forall i :: 0 <= i < |cs| ==> ListedCandidate(fs, dir, names, cs[i])
    ensures AllFiles(fs, cs)
  {
    if |names| == 0 then []
    else
      var rest := Candidates(fs, dir, names[1..]);
      assert forall i :: 0 <= i < |rest| ==> ListedCandidate(fs, dir, names, rest[i]) by {
        forall i | 0 <= i < |rest|
          ensures ListedCandidate(fs, dir, names, rest[i])
        {
          var k :| 0 <= k < |names[1..]| && rest[i] == Join(dir, names[1..][k]) && IsCandidate(fs, dir, names[1..][k]);
          assert names[1..][k] == names[k + 1];
        }
      }
      if IsCandidate(fs, dir, names[0]) then [Join(dir, names[0])] + rest else rest
  }

  /** Every qualifying entry appears in the candidate list. */
  lemma {:induction false} CandidatesComplete(fs: FileSystem, dir: Path, names: seq<string>, k: nat)
    requires k < |names| && IsCandidate(fs, dir, names[k])
    ensures Join(dir, names[k]) in Candidates(fs, dir, names)
  {
    if k > 0 {
      assert names[1..][k - 1] == names[k];
      CandidatesComplete(fs, dir, names[1..], k - 1);
    }
  }

  /** The candidate list of a concatenation is the concatenation of the candidate lists: enumeration order is kept. */
  lemma {:induction false} CandidatesAppend(fs: FileSystem, dir: Path, a: seq<string>, b: seq<string>)
    ensures Candidates(fs, dir, a + b) == Candidates(fs, dir, a) + Candidates(fs, dir, b)
  {
    if |a| > 0 {
      assert (a + b)[1..] == a[1..] + b;
      CandidatesAppend(fs, dir, a[1..], b);
    } else {
      assert a + b == b;
    }
  }

  /**
   * `max(candidates, key=mtime)` as Python computes it: scan left to right and
   * replace the best so far only by a strictly newer file. `best` is the best
   * index among the first `i` candidates.
   */
  function NewestFrom(fs: FileSystem, cs: seq<Path>, best: nat, i: nat): (k: nat)
    requires AllFiles(fs, cs)
    requires best < i <= |cs|
    requires forall j :: 0 <= j < i ==> Mtime(fs, cs[j]) <= Mtime(fs, cs[best])
    requires forall j :: 0 <= j < best ==> Mtime(fs, cs[j]) < Mtime(fs, cs[best])
    ensures best <= k < |cs|
    ensures forall j :: 0 <= j < |cs| ==> Mtime(fs, cs[j]) <= Mtime(fs, cs[k])
    ensures forall j :: 0 <= j < k ==> Mtime(fs, cs[j]) < Mtime(fs, cs[k])
    decreases |cs| - i
  {
    if i == |cs| then best
    else if Mtime(fs, cs[i]) > Mtime(fs, cs[best]) then NewestFrom(fs, cs, i, i + 1)
    else NewestFrom(fs, cs, best, i + 1)
  }

  /** The index `max` returns: the first candidate whose mtime is at least every candidate's. */
  function Newest(fs: FileSystem, cs: seq<Path>): (k: nat)
    requires AllFiles(fs, cs) && |cs| > 0
    ensures k < |cs|
    ensures forall j :: 0 <= j < |cs| ==> Mtime(fs, cs[j]) <= Mtime(fs, cs[k])
    ensures forall j :: 0 <= j < k ==> Mtime(fs, cs[j]) < Mtime(fs, cs[k])
  {
    NewestFrom(fs, cs, 0, 1)
  }

  /**
   * `resolve_excel_file(path)`. A successful result is always an existing
   * regular file whose lowered suffix is in the allow-list.
   */
  function Resolve(fs: FileSystem, path: Path): (r: Result<Path, ResolveError>)
    ensures r.Ok? ==> IsFile(fs, r.value) && IsExcelName(Name(r.value))
    ensures r.Err? && r.error.NotAnExcelFile? ==> IsFile(fs, path)
    ensures r.Err? && r.error.NoExcelFilesFound? ==> IsDir(fs, path)
    ensures r.Err? ==> r.error.path == path
  {
    if IsFile(fs, path) then
      if !IsExcelName(Name(path)) then Err(NotAnExcelFile(path)) else Ok(path)
    else if !IsDir(fs, path) then Err(PathDoesNotExist(path))
    else
      var cs := Candidates(fs, path, fs[path].children);
      if |cs| == 0 then Err(NoExcelFilesFound(path))
      else
        var k := Newest(fs, cs);
        assert IsExcelName(Name(cs[k])) by {
          assert ListedCandidate(fs, path, fs[path].children, cs[k]);
        }
        Ok(cs[k])
  }
}
