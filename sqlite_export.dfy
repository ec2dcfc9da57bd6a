/**
 * The record mapping and file chunking of the static-site export: turning issues into export
 * records with their blocking links and metrics, the per-issue metric tallies, the
 * case-insensitive membership test, and the split of a large database file into chunks.
 * The SQLite database itself, its schema and the SHA-256 hash are not modelled.
 * Which dependency types block is decided by `model.DependencyType.IsBlocking`, which is
 * not part of this model: it is the parameter `isBlocking`.
 */
module SqliteExport {
  import opened Wrappers
  import opened Issues

  /** The graph metrics of `analysis.GraphStats`, as the maps its accessors return. */
  datatype GraphStats = GraphStats(pageRank: map<string, real>, betweenness: map<string, real>, criticalPath: map<string, real>)

  /** One triage recommendation: the issue and its score. */
  datatype Recommendation = Recommendation(id: string, score: real)

  /** `ExportIssue`: the base fields of an issue plus its metrics and blocking links. */
  datatype ExportIssue = ExportIssue(
    id: string, title: string, description: string, status: string, priority: int,
    issueType: string, assignee: string, labels: seq<string>,
    createdAt: int, updatedAt: int, closedAt: Option<int>,
    pageRank: real, betweenness: real, criticalPath: int, triageScore: real,
    blocksIDs: seq<string>, blockedByIDs: seq<string>, blocksCount: int, blockedByCount: int)

  /** A Go map read: the stored value, or the zero value for a missing key. */
  function Get<V>(m: map<string, V>, k: string, zero: V): (v: V)
    ensures k in m ==> v == m[k]
    ensures k !in m ==> v == zero
  {
    if k in m then m[k] else zero
  }

  /** Go's `int(x)` on a float: truncation toward zero. */
  function TruncToInt(x: real): (n: int)
    ensures x >= 0.0 ==> n as real <= x < n as real + 1.0
    ensures x < 0.0 ==> n as real - 1.0 < x <= n as real
  {
    if x >= 0.0 then x.Floor else -((-x).Floor)
  }

  // ---------------------------------------------------------------- blocking links

  /** The issues `a` blocks on: `DependsOnID` of every blocking dependency of `a`, in dependency order. */
  function BlocksOf(deps: seq<Dependency>, isBlocking: string -> bool, a: string): seq<string>
  {
    if deps == [] then []
    else
      var d := deps[|deps| - 1];
      BlocksOf(deps[..|deps| - 1], isBlocking, a) + (if isBlocking(d.depType) && d.issueID == a then [d.dependsOnID] else [])
  }

  /** The issues blocked on `b`: `IssueID` of every blocking dependency on `b`, in dependency order. */
  function BlockedByOf(deps: seq<Dependency>, isBlocking: string -> bool, b: string): seq<string>
  {
    if deps == [] then []
    else
      var d := deps[|deps| - 1];
      BlockedByOf(deps[..|deps| - 1], isBlocking, b) + (if isBlocking(d.depType) && d.dependsOnID == b then [d.issueID] else [])
  }

  /** `b` is among the issues `a` blocks on exactly when a blocking dependency `a -> b` exists. */
  lemma {:induction false} BlocksOfMember(deps: seq<Dependency>, isBlocking: string -> bool, a: string, b: string)
    ensures b in BlocksOf(deps, isBlocking, a) <==>
      exists j :: 0 <= j < |deps| && isBlocking(deps[j].depType) && deps[j].issueID == a && deps[j].dependsOnID == b
  {
    if deps != [] {
      var init := deps[..|deps| - 1];
      BlocksOfMember(init, isBlocking, a, b);
      if exists j :: 0 <= j < |init| && isBlocking(init[j].depType) && init[j].issueID == a && init[j].dependsOnID == b {
        var j :| 0 <= j < |init| && isBlocking(init[j].depType) && init[j].issueID == a && init[j].dependsOnID == b;
        assert deps[j] == init[j];
      }
      if exists j :: 0 <= j < |deps| && isBlocking(deps[j].depType) && deps[j].issueID == a && deps[j].dependsOnID == b {
        var j :| 0 <= j < |deps| && isBlocking(deps[j].depType) && deps[j].issueID == a && deps[j].dependsOnID == b;
        if j < |init| {
          assert init[j] == deps[j];
        }
      }
    }
  }

  /** `b` is among the issues blocked on `a` exactly when a blocking dependency `b -> a` exists. */
  lemma {:induction false} BlockedByOfMember(deps: seq<Dependency>, isBlocking: string -> bool, a: string, b: string)
    ensures b in BlockedByOf(deps, isBlocking, a) <==>
      exists j :: 0 <= j < |deps| && isBlocking(deps[j].depType) && deps[j].issueID == b && deps[j].dependsOnID == a
  {
    if deps != [] {
      var init := deps[..|deps| - 1];
      BlockedByOfMember(init, isBlocking, a, b);
      if exists j :: 0 <= j < |init| && isBlocking(init[j].depType) && init[j].issueID == b && init[j].dependsOnID == a {
        var j :| 0 <= j < |init| && isBlocking(init[j].depType) && init[j].issueID == b && init[j].dependsOnID == a;
        assert deps[j] == init[j];
      }
      if exists j :: 0 <= j < |deps| && isBlocking(deps[j].depType) && deps[j].issueID == b && deps[j].dependsOnID == a {
        var j :| 0 <= j < |deps| && isBlocking(deps[j].depType) && deps[j].issueID == b && deps[j].dependsOnID == a;
        if j < |init| {
          assert init[j] == deps[j];
        }
      }
    }
  }

  /** The two lookups are mirror images: `a` blocks on `b` exactly when `b` has `a` among its blocked-by list. */
  lemma BlockingLinksMirror(deps: seq<Dependency>, isBlocking: string -> bool, a: string, b: string)
    ensures b in BlocksOf(deps, isBlocking, a) <==> a in BlockedByOf(deps, isBlocking, b)
  {
    BlocksOfMember(deps, isBlocking, a, b);
    BlockedByOfMember(deps, isBlocking, b, a);
  }

  /** The dependency loop of `GetExportedIssues`: both lookup maps, keyed by issue ID. */
  method BuildBlockLookups(deps: seq<Dependency>, isBlocking: string -> bool)
    returns (blocksIDs: map<string, seq<string>>, blockedByIDs: map<string, seq<string>>)
    ensures forall a :: Get(blocksIDs, a, []) == BlocksOf(deps, isBlocking, a)
    ensures forall b :: Get(blockedByIDs, b, []) == BlockedByOf(deps, isBlocking, b)
  {
    blocksIDs, blockedByIDs := map[], map[];
    for i := 0 to |deps|
      invariant forall a :: Get(blocksIDs, a, []) == BlocksOf(deps[..i], isBlocking, a)
      invariant forall b :: Get(blockedByIDs, b, []) == BlockedByOf(deps[..i], isBlocking, b)
    {
      assert deps[..i + 1][..i] == deps[..i];
      var d := deps[i];
      if isBlocking(d.depType) {
        blocksIDs := blocksIDs[d.issueID := Get(blocksIDs, d.issueID, []) + [d.dependsOnID]];
        blockedByIDs := blockedByIDs[d.dependsOnID := Get(blockedByIDs, d.dependsOnID, []) + [d.issueID]];
      }
    }
    assert deps[..|deps|] == deps;
  }

  /** The dependency loop of `insertMetrics`: the same blocking dependencies, counted instead of listed. */
  method TallyBlocking(deps: seq<Dependency>, isBlocking: string -> bool)
    returns (blocksCount: map<string, int>, blockedByCount: map<string, int>)
    ensures forall a :: Get(blocksCount, a, 0) == |BlocksOf(deps, isBlocking, a)|
    ensures forall b :: Get(blockedByCount, b, 0) == |BlockedByOf(deps, isBlocking, b)|
  {
    blocksCount, blockedByCount := map[], map[];
    for i := 0 to |deps|
      invariant forall a :: Get(blocksCount, a, 0) == |BlocksOf(deps[..i], isBlocking, a)|
      invariant forall b :: Get(blockedByCount, b, 0) == |BlockedByOf(deps[..i], isBlocking, b)|
    {
      assert deps[..i + 1][..i] == deps[..i];
      var d := deps[i];
      if isBlocking(d.depType) {
        blocksCount := blocksCount[d.issueID := Get(blocksCount, d.issueID, 0) + 1];
        blockedByCount := blockedByCount[d.dependsOnID := Get(blockedByCount, d.dependsOnID, 0) + 1];
      }
    }
    assert deps[..|deps|] == deps;
  }

  // ---------------------------------------------------------------- triage scores

  /** The score map of the recommendations: a later recommendation for the same issue overwrites an earlier one. */
  function ScoreOf(recs: seq<Recommendation>, id: string): real
  {
    if recs == [] then 0.0
    else if recs[|recs| - 1].id == id then recs[|recs| - 1].score
    else ScoreOf(recs[..|recs| - 1], id)
  }

  /** An issue without a recommendation scores 0. */
  lemma {:induction false} ScoreOfMissing(recs: seq<Recommendation>, id: string)
    requires forall j :: 0 <= j < |recs| ==> recs[j].id != id
    ensures ScoreOf(recs, id) == 0.0
  {
    if recs != [] {
      var init := recs[..|recs| - 1];
      assert forall j :: 0 <= j < |init| ==> init[j] == recs[j];
      ScoreOfMissing(init, id);
    }
  }

  /** An issue with recommendations gets the score of the last one. */
  lemma {:induction false} ScoreOfLast(recs: seq<Recommendation>, id: string, k: nat)
    requires k < |recs| && recs[k].id == id
    requires forall j :: k < j < |recs| ==> recs[j].id != id
    ensures ScoreOf(recs, id) == recs[k].score
  {
    if k + 1 < |recs| {
      var init := recs[..|recs| - 1];
      assert init[k] == recs[k];
      assert forall j :: k < j < |init| ==> init[j] == recs[j];
      ScoreOfLast(init, id, k);
    }
  }

  /** The recommendation loop: a missing triage result gives an empty map. */
  method BuildScores(triage: Option<seq<Recommendation>>) returns (scores: map<string, real>)
    ensures triage.None? ==> scores == map[]
    ensures triage.Some? ==> forall id :: Get(scores, id, 0.0) == ScoreOf(triage.value, id)
  {
    scores := map[];
    if triage.Some? {
      var recs := triage.value;
      for i := 0 to |recs|
        invariant forall id :: Get(scores, id, 0.0) == ScoreOf(recs[..i], id)
      {
        assert recs[..i + 1][..i] == recs[..i];
        scores := scores[recs[i].id := recs[i].score];
      }
      assert recs[..|recs|] == recs;
    }
  }

  /** The triage score of an issue, zero without a triage result. */
  function TriageScore(triage: Option<seq<Recommendation>>, id: string): real
  {
    if triage.Some? then ScoreOf(triage.value, id) else 0.0
  }

  // ---------------------------------------------------------------- export records

  /** The export record of one issue. */
  function ExportOf(issue: Issue, deps: seq<Dependency>, isBlocking: string -> bool,
                    stats: Option<GraphStats>, triage: Option<seq<Recommendation>>): (r: ExportIssue)
    ensures r.id == issue.id && r.title == issue.title && r.description == issue.description
    ensures r.status == issue.status && r.priority == issue.priority && r.issueType == issue.issueType
    ensures r.assignee == issue.assignee && r.labels == issue.labels
    ensures r.createdAt == issue.createdAt && r.updatedAt == issue.updatedAt && r.closedAt == issue.closedAt
    ensures r.blocksCount == |r.blocksIDs| && r.blockedByCount == |r.blockedByIDs|
    ensures stats.None? ==> r.pageRank == 0.0 && r.betweenness == 0.0 && r.criticalPath == 0
  {
    var blocks := BlocksOf(deps, isBlocking, issue.id);
    var blockedBy := BlockedByOf(deps, isBlocking, issue.id);
    ExportIssue(
      issue.id, issue.title, issue.description, issue.status, issue.priority,
      issue.issueType, issue.assignee, issue.labels,
      issue.createdAt, issue.updatedAt, issue.closedAt,
      if stats.Some? then Get(stats.value.pageRank, issue.id, 0.0) else 0.0,
      if stats.Some? then Get(stats.value.betweenness, issue.id, 0.0) else 0.0,
      if stats.Some? then TruncToInt(Get(stats.value.criticalPath, issue.id, 0.0)) else 0,
      TriageScore(triage, issue.id),
      blocks, blockedBy, |blocks|, |blockedBy|)
  }

  /** An issue with no triage recommendation is exported with score 0. */
  lemma UnrecommendedScoresZero(issue: Issue, deps: seq<Dependency>, isBlocking: string -> bool,
                                stats: Option<GraphStats>, triage: Option<seq<Recommendation>>)
    requires triage.Some? ==> forall j :: 0 <= j < |triage.value| ==> triage.value[j].id != issue.id
    ensures ExportOf(issue, deps, isBlocking, stats, triage).triageScore == 0.0
  {
    if triage.Some? {
      ScoreOfMissing(triage.value, issue.id);
    }
  }

  /** Every ID an export record links to comes from a blocking dependency touching that issue. */
  lemma ExportLinksAreBlockingDeps(issue: Issue, deps: seq<Dependency>, isBlocking: string -> bool,
                                   stats: Option<GraphStats>, triage: Option<seq<Recommendation>>, x: string)
    ensures x in ExportOf(issue, deps, isBlocking, stats, triage).blocksIDs <==>
      exists j :: 0 <= j < |deps| && isBlocking(deps[j].depType) && deps[j].issueID == issue.id && deps[j].dependsOnID == x
    ensures x in ExportOf(issue, deps, isBlocking, stats, triage).blockedByIDs <==>
      exists j :: 0 <= j < |deps| && isBlocking(deps[j].depType) && deps[j].issueID == x && deps[j].dependsOnID == issue.id
  {
    BlocksOfMember(deps, isBlocking, issue.id, x);
    BlockedByOfMember(deps, isBlocking, issue.id, x);
  }

  /** `GetExportedIssues`: one record per issue, in input order. */
  method GetExportedIssues(issues: seq<Issue>, deps: seq<Dependency>, isBlocking: string -> bool,
                           stats: Option<GraphStats>, triage: Option<seq<Recommendation>>)
    returns (result: seq<ExportIssue>)
    ensures |result| == |issues|
    ensures forall i :: 0 <= i < |issues| ==> result[i] == ExportOf(issues[i], deps, isBlocking, stats, triage)
  {
    var blocksIDs, blockedByIDs := BuildBlockLookups(deps, isBlocking);
    var scores := BuildScores(triage);
    result := [];
    for i := 0 to |issues|
      invariant |result| == i
      invariant forall k :: 0 <= k < i ==> result[k] == ExportOf(issues[k], deps, isBlocking, stats, triage)
    {
      var issue := issues[i];
      var pr, bw, cp := 0.0, 0.0, 0;
      if stats.Some? {
        pr := Get(stats.value.pageRank, issue.id, 0.0);
        bw := Get(stats.value.betweenness, issue.id, 0.0);
        cp := TruncToInt(Get(stats.value.criticalPath, issue.id, 0.0));
      }
      var blocks := Get(blocksIDs, issue.id, []);
      var blockedBy := Get(blockedByIDs, issue.id, []);
      var exp := ExportIssue(
        issue.id, issue.title, issue.description, issue.status, issue.priority,
        issue.issueType, issue.assignee, issue.labels,
        issue.createdAt, issue.updatedAt, issue.closedAt,
        pr, bw, cp, Get(scores, issue.id, 0.0),
        blocks, blockedBy, |blocks|, |blockedBy|);
      result := result + [exp];
    }
  }

  // ---------------------------------------------------------------- metrics rows

  /** One row of the `issue_metrics` table. */
  datatype MetricsRow = MetricsRow(id: string, pageRank: real, betweenness: real, criticalPath: int,
                                   triageScore: real, blocksCount: int, blockedByCount: int)

  /** The rows `insertMetrics` writes: none without graph statistics, else one per issue in order. */
  method MetricsRows(issues: seq<Issue>, deps: seq<Dependency>, isBlocking: string -> bool,
                     stats: Option<GraphStats>, triage: Option<seq<Recommendation>>)
    returns (rows: seq<MetricsRow>)
    ensures stats.None? ==> rows == []
    ensures stats.Some? ==> |rows| == |issues|
    ensures stats.Some? ==> forall i :: 0 <= i < |issues| ==>
      rows[i] == MetricsRow(issues[i].id,
                            Get(stats.value.pageRank, issues[i].id, 0.0),
                            Get(stats.value.betweenness, issues[i].id, 0.0),
                            TruncToInt(Get(stats.value.criticalPath, issues[i].id, 0.0)),
                            TriageScore(triage, issues[i].id),
                            |BlocksOf(deps, isBlocking, issues[i].id)|,
                            |BlockedByOf(deps, isBlocking, issues[i].id)|)
  {
    rows := [];
    if stats.None? {
      return;
    }
    var blocksCount, blockedByCount := TallyBlocking(deps, isBlocking);
    var scores := BuildScores(triage);
    var pageRank, betweenness, criticalPath := stats.value.pageRank, stats.value.betweenness, stats.value.criticalPath;
    for i := 0 to |issues|
      invariant |rows| == i
      invariant forall k :: 0 <= k < i ==>
        rows[k] == MetricsRow(issues[k].id,
                              Get(pageRank, issues[k].id, 0.0),
                              Get(betweenness, issues[k].id, 0.0),
                              TruncToInt(Get(criticalPath, issues[k].id, 0.0)),
                              TriageScore(triage, issues[k].id),
                              |BlocksOf(deps, isBlocking, issues[k].id)|,
                              |BlockedByOf(deps, isBlocking, issues[k].id)|)
    {
      var id := issues[i].id;
      rows := rows + [MetricsRow(id, Get(pageRank, id, 0.0), Get(betweenness, id, 0.0),
                                 TruncToInt(Get(criticalPath, id, 0.0)), Get(scores, id, 0.0),
                                 Get(blocksCount, id, 0), Get(blockedByCount, id, 0))];
    }
  }

  /** The metrics table and the JSON export agree: same counts, same scores, same metrics, issue by issue. */
  lemma MetricsAgreeWithExport(issue: Issue, deps: seq<Dependency>, isBlocking: string -> bool,
                               stats: GraphStats, triage: Option<seq<Recommendation>>)
    ensures var e := ExportOf(issue, deps, isBlocking, Some(stats), triage);
      e.blocksCount == |BlocksOf(deps, isBlocking, issue.id)| &&
      e.blockedByCount == |BlockedByOf(deps, isBlocking, issue.id)| &&
      e.triageScore == TriageScore(triage, issue.id) &&
      e.pageRank == Get(stats.pageRank, issue.id, 0.0) &&
      e.criticalPath == TruncToInt(Get(stats.criticalPath, issue.id, 0.0))
  {
  }

  // ---------------------------------------------------------------- case-insensitive membership

  /** `strings.EqualFold`, on ASCII letters. */
  predicate EqualFold(a: string, b: string)
  {
    Lower(a) == Lower(b)
  }

  /** `stringSliceContains`: whether some element equals `val` up to case. */
  method StringSliceContains(slice: seq<string>, val: string) returns (found: bool)
    ensures found <==> exists i :: 0 <= i < |slice| && EqualFold(slice[i], val)
  {
    for i := 0 to |slice|
      invariant forall k :: 0 <= k < i ==> !EqualFold(slice[k], val)
    {
      if Lower(slice[i]) == Lower(val) {
        return true;
      }
    }
    return false;
  }

  lemma {:induction false} LowerIdempotent(s: string)
    ensures Lower(Lower(s)) == Lower(s)
  {
    if s != [] {
      LowerIdempotent(s[1..]);
    }
  }

  /** Folding is an equivalence, and a value always matches its own lower-case form. */
  lemma EqualFoldEquivalence(a: string, b: string, c: string)
    ensures EqualFold(a, a)
    ensures EqualFold(a, b) ==> EqualFold(b, a)
    ensures EqualFold(a, b) && EqualFold(b, c) ==> EqualFold(a, c)
    ensures EqualFold(a, Lower(a))
  {
    LowerIdempotent(a);
  }

  // ---------------------------------------------------------------- chunking

  /** The default `ChunkThreshold` (5 MiB) and `ChunkSize` (1 MiB). */
  const DefaultChunkThreshold: int := 5 * 1024 * 1024
  const DefaultChunkSize: int := 1 * 1024 * 1024

  /** The chunk configuration written next to the database (the SHA-256 hash is not modelled). */
  datatype ChunkConfig = ChunkConfig(chunked: bool, totalSize: int, chunkCount: int, chunkSize: int)

  /** The chunks a full-buffer read loop produces: `size` bytes each, the last one shorter. */
  function Chunks(file: seq<bv8>, size: nat): seq<seq<bv8>>
    requires size > 0
    decreases |file|
  {
    if file == [] then []
    else if |file| <= size then [file]
    else [file[..size]] + Chunks(file[size..], size)
  }

  function Concat(chunks: seq<seq<bv8>>): seq<bv8>
  {
    if chunks == [] then [] else chunks[0] + Concat(chunks[1..])
  }

  lemma {:induction false} ConcatAppend(a: seq<seq<bv8>>, b: seq<seq<bv8>>)
    ensures Concat(a + b) == Concat(a) + Concat(b)
  {
    if a != [] {
      assert (a + b)[0] == a[0] && (a + b)[1..] == a[1..] + b;
      ConcatAppend(a[1..], b);
    } else {
      assert a + b == b;
    }
  }

  /** The chunks put back together are the file. */
  lemma {:induction false} ChunksConcat(file: seq<bv8>, size: nat)
    requires size > 0
    ensures Concat(Chunks(file, size)) == file
    decreases |file|
  {
    if file == [] {
    } else if |file| <= size {
      assert Concat([file]) == file + Concat([]);
    } else {
      var rest := file[size..];
      ChunksConcat(rest, size);
      var cs := [file[..size]] + Chunks(rest, size);
      assert cs[0] == file[..size] && cs[1..] == Chunks(rest, size);
      assert file == file[..size] + rest;
    }
  }

  /** Each chunk is non-empty and at most `size` bytes. */
  lemma {:induction false} ChunksBounded(file: seq<bv8>, size: nat)
    requires size > 0
    ensures forall c :: c in Chunks(file, size) ==> 0 < |c| <= size
    decreases |file|
  {
    if |file| > size {
      ChunksBounded(file[size..], size);
    }
  }

  /** There are as many chunks as it takes to cover the file: the last one is partly filled at most. */
  lemma {:induction false} ChunksCount(file: seq<bv8>, size: nat)
    requires size > 0
    ensures file == [] ==> Chunks(file, size) == []
    ensures file != [] ==> (|Chunks(file, size)| - 1) * size < |file| <= |Chunks(file, size)| * size
    decreases |file|
  {
    if |file| > size {
      var rest := file[size..];
      var n := |Chunks(rest, size)|;
      ChunksCount(rest, size);
      assert |Chunks(file, size)| == n + 1;
      assert (n + 1) * size == n * size + size;
    }
  }

  /**
   * `chunkIfNeeded` on the file's bytes: below the threshold nothing is split; otherwise the
   * read loop writes one chunk per full-buffer read, and the configuration records their number.
   * A zero chunk size would make the Go read loop spin for ever on a large file, so it is excluded there.
   */
  method ChunkIfNeeded(file: seq<bv8>, threshold: int, chunkSize: int)
    returns (config: ChunkConfig, chunks: seq<seq<bv8>>)
    requires |file| >= threshold ==> chunkSize > 0
    ensures config.totalSize == |file|
    ensures |file| < threshold ==> !config.chunked && chunks == [] && config.chunkCount == 0
    ensures |file| >= threshold ==>
      config.chunked && chunks == Chunks(file, chunkSize) &&
      config.chunkCount == |chunks| && config.chunkSize == chunkSize
  {
    if |file| < threshold {
      return ChunkConfig(false, |file|, 0, 0), [];
    }
    chunks := [];
    var pos := 0;
    while pos < |file|
      invariant 0 <= pos <= |file|
      invariant chunks + Chunks(file[pos..], chunkSize) == Chunks(file, chunkSize)
      decreases |file| - pos
    {
      var n := Min(chunkSize, |file| - pos);
      var rest := file[pos..];
      var piece := file[pos..pos + n];
      assert rest[..n] == piece;
      if |rest| <= chunkSize {
        assert Chunks(rest, chunkSize) == [rest];
        assert rest == piece && file[pos + n..] == [];
        assert Chunks(file[pos + n..], chunkSize) == [];
      } else {
        assert rest[chunkSize..] == file[pos + n..];
        assert Chunks(rest, chunkSize) == [piece] + Chunks(file[pos + n..], chunkSize);
      }
      assert chunks + Chunks(rest, chunkSize) == (chunks + [piece]) + Chunks(file[pos + n..], chunkSize);
      chunks := chunks + [piece];
      pos := pos + n;
    }
    assert file[pos..] == [];
    config := ChunkConfig(true, |file|, |chunks|, chunkSize);
  }

  /** A chunked export reassembles to the database, in pieces no larger than the chunk size, and no more of them than it takes to cover the file. */
  lemma ChunkedExportReassembles(file: seq<bv8>, threshold: int, chunkSize: int, config: ChunkConfig, chunks: seq<seq<bv8>>)
    requires |file| >= threshold && |file| > 0 && chunkSize > 0
    requires config.chunked && chunks == Chunks(file, chunkSize) && config.chunkCount == |chunks|
    ensures Concat(chunks) == file
    ensures forall c :: c in chunks ==> 0 < |c| <= chunkSize
    ensures (config.chunkCount - 1) * chunkSize < |file| <= config.chunkCount * chunkSize
  {
    ChunksConcat(file, chunkSize);
    ChunksBounded(file, chunkSize);
    ChunksCount(file, chunkSize);
  }
}
