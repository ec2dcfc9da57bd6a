/**
 * The co-change matrix: for every pair of files, how often they changed in the same commit.
 *
 * Each commit SHA is processed once, however many bead histories list it. A commit's files
 * are its normalised, non-empty paths, in order; every ordered pair of distinct positions
 * counts once, and every position counts once for the file's commit total.
 */
module CoChange {
  import opened Wrappers
  import opened History

  datatype CoChangeMatrix = CoChangeMatrix(matrix: map<string, map<string, nat>>,
                                           fileCommitCounts: map<string, nat>,
                                           commitFiles: map<string, seq<string>>)

  /** A missing entry reads as zero, as Go's maps do. */
  function Get(mx: map<string, map<string, nat>>, a: string, b: string): nat
  {
    if a in mx && b in mx[a] then mx[a][b] else 0
  }

  function Count(m: map<string, nat>, f: string): nat
  {
    if f in m then m[f] else 0
  }

  // ---------------------------------------------------------------- one commit

  /** The commit's normalised paths, the empty ones dropped, in order. */
  function CommitPaths(fcs: seq<FileChange>): (fs: seq<string>)
    ensures |fs| <= |fcs|
    ensures forall i :: 0 <= i < |fs| ==> fs[i] != ""
  {
    if fcs == [] then []
    else
      var n := NormalizePath(fcs[|fcs| - 1].path);
      CommitPaths(fcs[..|fcs| - 1]) + (if n != "" then [n] else [])
  }

  /** The number of positions holding `f`. */
  function Occ(fs: seq<string>, f: string): (n: nat)
    ensures n <= |fs|
  {
    if fs == [] then 0 else Occ(fs[..|fs| - 1], f) + (if fs[|fs| - 1] == f then 1 else 0)
  }

  lemma OccStep(fs: seq<string>, k: nat, f: string)
    requires k < |fs|
    ensures Occ(fs[..k + 1], f) == Occ(fs[..k], f) + (if fs[k] == f then 1 else 0)
  {
    assert fs[..k + 1][..k] == fs[..k];
  }

  /** A file no position holds occurs nowhere. */
  lemma {:induction false} OccAbsent(fs: seq<string>, f: string)
    requires forall i :: 0 <= i < |fs| ==> fs[i] != f
    ensures Occ(fs, f) == 0
  {
    if fs != [] {
      OccAbsent(fs[..|fs| - 1], f);
    }
  }

  /**
   * The pairs counted by rows `0 .. k-1`: row `i` adds, for the file at `i`, one per other
   * position holding `b`.
   */
  function RowsUpTo(fs: seq<string>, k: nat, a: string, b: string): int
    requires k <= |fs|
  {
    if k == 0 then 0
    else RowsUpTo(fs, k - 1, a, b) + (if fs[k - 1] == a then Occ(fs, b) - (if fs[k - 1] == b then 1 else 0) else 0)
  }

  /** Ordered pairs of distinct positions holding `a` and `b`. */
  function PairCount(fs: seq<string>, a: string, b: string): int
  {
    RowsUpTo(fs, |fs|, a, b)
  }

  /** The rows counted so far, in closed form. */
  lemma {:induction false} RowsClosedForm(fs: seq<string>, k: nat, a: string, b: string)
    requires k <= |fs|
    ensures RowsUpTo(fs, k, a, b) == Occ(fs[..k], a) * Occ(fs, b) - (if a == b then Occ(fs[..k], a) else 0)
  {
    if k > 0 {
      RowsClosedForm(fs, k - 1, a, b);
      OccStep(fs, k - 1, a);
      var o := Occ(fs[..k - 1], a);
      if fs[k - 1] == a {
        assert (o + 1) * Occ(fs, b) == o * Occ(fs, b) + Occ(fs, b);
      }
    }
  }

  /** The pair count: occurrences of `a` times occurrences of `b`, less the diagonal when `a == b`. */
  lemma PairCountClosedForm(fs: seq<string>, a: string, b: string)
    ensures PairCount(fs, a, b) == Occ(fs, a) * Occ(fs, b) - (if a == b then Occ(fs, a) else 0)
    ensures PairCount(fs, a, b) >= 0
  {
    RowsClosedForm(fs, |fs|, a, b);
    assert fs[..|fs|] == fs;
    ProductAtLeast(Occ(fs, a), Occ(fs, b), a == b);
  }

  /** `x * y` is never negative, and at least `x` when `x == y`. */
  lemma ProductAtLeast(x: nat, y: nat, same: bool)
    requires same ==> x == y
    ensures x * y - (if same then x else 0) >= 0
  {
    if same && x > 0 {
      assert x * y == x * (y - 1) + x;
    }
  }

  // ---------------------------------------------------------------- all processed commits

  function CountFile(cs: seq<CorrelatedCommit>, f: string): nat
  {
    if cs == [] then 0 else CountFile(cs[..|cs| - 1], f) + Occ(CommitPaths(cs[|cs| - 1].files), f)
  }

  function CoChanged(cs: seq<CorrelatedCommit>, a: string, b: string): int
  {
    if cs == [] then 0 else CoChanged(cs[..|cs| - 1], a, b) + PairCount(CommitPaths(cs[|cs| - 1].files), a, b)
  }

  /** The files of each commit by short SHA; a later commit with the same short SHA replaces an earlier one. */
  function CommitFilesOf(cs: seq<CorrelatedCommit>): map<string, seq<string>>
  {
    if cs == [] then map[]
    else
      var c := cs[|cs| - 1];
      CommitFilesOf(cs[..|cs| - 1])[c.shortSHA := CommitPaths(c.files)]
  }

  function Shas(cs: seq<CorrelatedCommit>): (r: seq<string>)
    ensures |r| == |cs| && forall i :: 0 <= i < |cs| ==> r[i] == cs[i].sha
  {
    seq(|cs|, i requires 0 <= i < |cs| => cs[i].sha)
  }

  /** Every entry present is positive: an absent entry and a zero count are never both possible. */
  ghost predicate Positive(cm: CoChangeMatrix)
  {
    (forall f :: f in cm.fileCommitCounts ==> cm.fileCommitCounts[f] > 0) &&
    (forall a :: a in cm.matrix ==> cm.matrix[a] != map[]) &&
    (forall a, b :: a in cm.matrix && b in cm.matrix[a] ==> cm.matrix[a][b] > 0)
  }

  /** The matrix says exactly what the processed commits say. */
  ghost predicate Summarises(cm: CoChangeMatrix, cs: seq<CorrelatedCommit>)
  {
    Positive(cm) &&
    (forall f :: Count(cm.fileCommitCounts, f) == CountFile(cs, f)) &&
    (forall a, b :: Get(cm.matrix, a, b) == CoChanged(cs, a, b)) &&
    cm.commitFiles == CommitFilesOf(cs)
  }

  // ---------------------------------------------------------------- building

  /** The normalised, non-empty paths of one commit. */
  method NormalizeFiles(fcs: seq<FileChange>) returns (files: seq<string>)
    ensures files == CommitPaths(fcs)
  {
    files := [];
    for k := 0 to |fcs|
      invariant files == CommitPaths(fcs[..k])
    {
      assert fcs[..k + 1][..k] == fcs[..k];
      var n := NormalizePath(fcs[k].path);
      if n != "" {
        files := files + [n];
      }
    }
    assert fcs[..|fcs|] == fcs;
  }

  /** One more commit for each position's file. */
  method CountFiles(fcc: map<string, nat>, files: seq<string>) returns (fcc': map<string, nat>)
    requires forall f :: f in fcc ==> fcc[f] > 0
    ensures forall f :: f in fcc' ==> fcc'[f] > 0
    ensures forall f :: Count(fcc', f) == Count(fcc, f) + Occ(files, f)
  {
    fcc' := fcc;
    for k := 0 to |files|
      invariant forall f :: f in fcc' ==> fcc'[f] > 0
      invariant forall f :: Count(fcc', f) == Count(fcc, f) + Occ(files[..k], f)
    {
      forall f ensures Occ(files[..k + 1], f) == Occ(files[..k], f) + (if files[k] == f then 1 else 0) {
        OccStep(files, k, f);
      }
      fcc' := fcc'[files[k] := Count(fcc', files[k]) + 1];
    }
    assert files[..|files|] == files;
  }

  /** Row `i`: the file at `i` co-changed once with the file at every other position. */
  method AddRow(mx: map<string, map<string, nat>>, files: seq<string>, i: nat) returns (mx': map<string, map<string, nat>>)
    requires i < |files|
    requires forall a :: a in mx ==> mx[a] != map[]
    requires forall a, b :: a in mx && b in mx[a] ==> mx[a][b] > 0
    ensures forall a :: a in mx' ==> mx'[a] != map[]
    ensures forall a, b :: a in mx' && b in mx'[a] ==> mx'[a][b] > 0
    ensures forall a, b :: Get(mx', a, b) ==
              Get(mx, a, b) + (if a == files[i] then Occ(files, b) - (if files[i] == b then 1 else 0) else 0)
  {
    var a := files[i];
    mx' := mx;
    assert files[..0] == [];
    assert forall b :: Occ(files[..0], b) == 0;
    for j := 0 to |files|
      invariant forall a :: a in mx' ==> mx'[a] != map[]
      invariant forall a, b :: a in mx' && b in mx'[a] ==> mx'[a][b] > 0
      invariant forall a', b :: Get(mx', a', b) ==
                  Get(mx, a', b) + (if a' == a then Occ(files[..j], b) - (if i < j && a == b then 1 else 0) else 0)
    {
      forall b ensures Occ(files[..j + 1], b) == Occ(files[..j], b) + (if files[j] == b then 1 else 0) {
        OccStep(files, j, b);
      }
      if j != i {
        mx' := Bump(mx', a, files[j]);
      }
    }
    assert files[..|files|] == files;
  }

  /** `matrix[a][b]++`, creating the row when `a` has none. */
  method Bump(mx: map<string, map<string, nat>>, a: string, b: string) returns (mx': map<string, map<string, nat>>)
    requires forall x :: x in mx ==> mx[x] != map[]
    requires forall x, y :: x in mx && y in mx[x] ==> mx[x][y] > 0
    ensures forall x :: x in mx' ==> mx'[x] != map[]
    ensures forall x, y :: x in mx' && y in mx'[x] ==> mx'[x][y] > 0
    ensures forall x, y :: Get(mx', x, y) == Get(mx, x, y) + (if x == a && y == b then 1 else 0)
  {
    var row := if a in mx then mx[a] else map[];
    mx' := mx[a := row[b := Get(mx, a, b) + 1]];
    assert b in mx'[a];
  }

  /** Every ordered pair of distinct positions of one commit. */
  method AddPairs(mx: map<string, map<string, nat>>, files: seq<string>) returns (mx': map<string, map<string, nat>>)
    requires forall a :: a in mx ==> mx[a] != map[]
    requires forall a, b :: a in mx && b in mx[a] ==> mx[a][b] > 0
    ensures forall a :: a in mx' ==> mx'[a] != map[]
    ensures forall a, b :: a in mx' && b in mx'[a] ==> mx'[a][b] > 0
    ensures forall a, b :: Get(mx', a, b) == Get(mx, a, b) + PairCount(files, a, b)
  {
    mx' := mx;
    for i := 0 to |files|
      invariant forall a :: a in mx' ==> mx'[a] != map[]
      invariant forall a, b :: a in mx' && b in mx'[a] ==> mx'[a][b] > 0
      invariant forall a, b :: Get(mx', a, b) == Get(mx, a, b) + RowsUpTo(files, i, a, b)
    {
      mx' := AddRow(mx', files, i);
    }
  }

  /** Processing one commit. */
  method AddCommit(cm: CoChangeMatrix, c: CorrelatedCommit, ghost cs: seq<CorrelatedCommit>) returns (cm': CoChangeMatrix)
    requires Summarises(cm, cs)
    ensures Summarises(cm', cs + [c])
  {
    var files := NormalizeFiles(c.files);
    var commitFiles := cm.commitFiles[c.shortSHA := files];
    var fcc := CountFiles(cm.fileCommitCounts, files);
    var mx := AddPairs(cm.matrix, files);
    cm' := CoChangeMatrix(mx, fcc, commitFiles);
    assert (cs + [c])[..|cs|] == cs;
  }

  /** The commit comes from one of the report's bead histories. */
  ghost predicate FromReport(hs: map<string, BeadHistory>, c: CorrelatedCommit)
  {
    exists id :: id in hs && c in hs[id].commits
  }

  /** The walk so far: the commits processed, each SHA once and in `seen`, all from the report. */
  ghost predicate Walked(hs: map<string, BeadHistory>, cm: CoChangeMatrix, seen: set<string>, cs: seq<CorrelatedCommit>)
  {
    Summarises(cm, cs) && NoDuplicates(Shas(cs)) &&
    (forall s :: s in seen <==> s in Shas(cs)) &&
    (forall k :: 0 <= k < |cs| ==> FromReport(hs, cs[k]))
  }

  /** A commit of the walk: processed unless its SHA was seen before. */
  method Visit(hs: map<string, BeadHistory>, c: CorrelatedCommit, cm: CoChangeMatrix, seen: set<string>,
               ghost cs: seq<CorrelatedCommit>)
    returns (cm': CoChangeMatrix, seen': set<string>, ghost cs': seq<CorrelatedCommit>)
    requires FromReport(hs, c) && Walked(hs, cm, seen, cs)
    ensures Walked(hs, cm', seen', cs') && seen <= seen' && c.sha in seen'
  {
    if c.sha in seen {
      return cm, seen, cs;
    }
    cm' := AddCommit(cm, c, cs);
    cs' := cs + [c];
    seen' := seen + {c.sha};
    WalkStep(hs, seen, cs, c);
  }

  /** The bookkeeping of the walk after processing a new commit. */
  lemma WalkStep(hs: map<string, BeadHistory>, seen: set<string>, cs: seq<CorrelatedCommit>, c: CorrelatedCommit)
    requires NoDuplicates(Shas(cs)) && (forall s :: s in seen <==> s in Shas(cs))
    requires forall k :: 0 <= k < |cs| ==> FromReport(hs, cs[k])
    requires c.sha !in seen && FromReport(hs, c)
    ensures NoDuplicates(Shas(cs + [c])) && (forall s :: s in seen + {c.sha} <==> s in Shas(cs + [c]))
    ensures forall k :: 0 <= k < |cs + [c]| ==> FromReport(hs, (cs + [c])[k])
  {
    assert Shas(cs + [c]) == Shas(cs) + [c.sha];
    forall k | 0 <= k < |cs + [c]| ensures FromReport(hs, (cs + [c])[k]) {
      if k < |cs| {
        assert (cs + [c])[k] == cs[k];
      }
    }
  }

  lemma SeenGrows(commits: seq<CorrelatedCommit>, k: nat, before: set<string>, after: set<string>)
    requires k < |commits| && before <= after && commits[k].sha in after
    requires forall j :: 0 <= j < k ==> commits[j].sha in before
    ensures forall j :: 0 <= j < k + 1 ==> commits[j].sha in after
  {
  }

  /** The commits of one bead history, skipping SHAs already processed. */
  method WalkHistory(hs: map<string, BeadHistory>, id: string, cm: CoChangeMatrix, seen: set<string>,
                     ghost cs: seq<CorrelatedCommit>)
    returns (cm': CoChangeMatrix, seen': set<string>, ghost cs': seq<CorrelatedCommit>)
    requires id in hs && Walked(hs, cm, seen, cs)
    ensures Walked(hs, cm', seen', cs') && seen <= seen'
    ensures forall c :: c in hs[id].commits ==> c.sha in seen'
  {
    var commits := hs[id].commits;
    cm', seen', cs' := cm, seen, cs;
    for k := 0 to |commits|
      invariant Walked(hs, cm', seen', cs') && seen <= seen'
      invariant forall j :: 0 <= j < k ==> commits[j].sha in seen'
    {
      assert FromReport(hs, commits[k]);
      ghost var before := seen';
      cm', seen', cs' := Visit(hs, commits[k], cm', seen', cs');
      SeenGrows(commits, k, before, seen');
    }
  }

  lemma HistoriesSeen(hs: map<string, BeadHistory>, ids: seq<string>, i: nat, before: set<string>, after: set<string>)
    requires i < |ids| && (forall k :: 0 <= k < |ids| ==> ids[k] in hs) && before <= after
    requires forall c :: c in hs[ids[i]].commits ==> c.sha in after
    requires forall i', c :: 0 <= i' < i && c in hs[ids[i']].commits ==> c.sha in before
    ensures forall i', c :: 0 <= i' < i + 1 && c in hs[ids[i']].commits ==> c.sha in after
  {
  }

  /**
   * `BuildCoChangeMatrix`: with no report, an empty matrix; otherwise the walk over every bead
   * history (in the map's unspecified order `ids`) processes each commit SHA once, and the
   * matrix summarises exactly the processed commits.
   */
  method BuildCoChangeMatrix(report: Option<HistoryReport>)
    returns (cm: CoChangeMatrix, ghost cs: seq<CorrelatedCommit>)
    ensures report.None? ==> cm == CoChangeMatrix(map[], map[], map[]) && cs == []
    ensures Summarises(cm, cs) && NoDuplicates(Shas(cs))
    ensures report.Some? ==> forall k :: 0 <= k < |cs| ==> FromReport(report.value.histories, cs[k])
    ensures report.Some? ==> forall id, c :: id in report.value.histories && c in report.value.histories[id].commits ==>
                                             c.sha in Shas(cs)
  {
    cm := CoChangeMatrix(map[], map[], map[]);
    cs := [];
    if report.None? {
      return;
    }
    var hs := report.value.histories;
    var ids := MapKeys(hs);
    var seen: set<string> := {};
    for i := 0 to |ids|
      invariant Walked(hs, cm, seen, cs)
      invariant forall i', c :: 0 <= i' < i && c in hs[ids[i']].commits ==> c.sha in seen
    {
      ghost var before := seen;
      cm, seen, cs := WalkHistory(hs, ids[i], cm, seen, cs);
      HistoriesSeen(hs, ids, i, before, seen);
    }
  }

  // ---------------------------------------------------------------- properties

  /** Co-change counts are symmetric: `Matrix[a][b] == Matrix[b][a]`. */
  lemma {:induction false} CoChangedSymmetric(cs: seq<CorrelatedCommit>, a: string, b: string)
    ensures CoChanged(cs, a, b) == CoChanged(cs, b, a)
  {
    if cs != [] {
      CoChangedSymmetric(cs[..|cs| - 1], a, b);
      var fs := CommitPaths(cs[|cs| - 1].files);
      PairCountClosedForm(fs, a, b);
      PairCountClosedForm(fs, b, a);
    }
  }

  /** The built matrix is symmetric. */
  lemma MatrixSymmetric(cm: CoChangeMatrix, cs: seq<CorrelatedCommit>, a: string, b: string)
    requires Summarises(cm, cs)
    ensures Get(cm.matrix, a, b) == Get(cm.matrix, b, a)
  {
    CoChangedSymmetric(cs, a, b);
  }

  /** The empty path is never counted and never paired. */
  lemma {:induction false} EmptyPathDropped(cs: seq<CorrelatedCommit>, b: string)
    ensures CountFile(cs, "") == 0
    ensures CoChanged(cs, "", b) == 0
  {
    if cs != [] {
      EmptyPathDropped(cs[..|cs| - 1], b);
      var fs := CommitPaths(cs[|cs| - 1].files);
      OccAbsent(fs, "");
      PairCountClosedForm(fs, "", b);
    }
  }

  /** So the built matrix has no entry for the empty path. */
  lemma NoEmptyPath(cm: CoChangeMatrix, cs: seq<CorrelatedCommit>)
    requires Summarises(cm, cs)
    ensures "" !in cm.fileCommitCounts && "" !in cm.matrix
  {
    EmptyPathDropped(cs, "");
    assert Count(cm.fileCommitCounts, "") == 0;
    if "" in cm.matrix {
      var b :| b in cm.matrix[""];
      EmptyPathDropped(cs, b);
    }
  }
}
