/**
 * Related-work discovery: given a target bead, the beads that touched the same files, that
 * share commits with it, that sit within two dependency hops of it, or that were active at
 * the same time. Each bead is reported at most once, in the first category that finds it,
 * and each category is ordered by relevance and cut to the configured number of results.
 *
 * The concurrency category compares wall-clock activity windows with floating-point
 * arithmetic; here the outcome of that comparison for each bead is an input (`ConcurrentMatch`).
 */
module Related {
  import opened Wrappers
  import opened Sorting
  import opened History
  import opened FileIndex
  import opened FileLookup
  import opened RelatedText
  import CoChange

  datatype RelationType = FileOverlap | CommitOverlap | DependencyCluster | Concurrent

  datatype RelatedWorkBead = RelatedWorkBead(beadID: string, title: string, status: string,
                                             relationType: RelationType, relevance: int, reason: string,
                                             sharedFiles: seq<string>, sharedCommits: seq<string>)

  datatype RelatedWorkResult = RelatedWorkResult(targetBeadID: string, targetTitle: string,
                                                 fileOverlap: seq<RelatedWorkBead>,
                                                 commitOverlap: seq<RelatedWorkBead>,
                                                 dependencyCluster: seq<RelatedWorkBead>,
                                                 concurrent: seq<RelatedWorkBead>,
                                                 totalRelated: int)

  /** The concurrency window is a duration in nanoseconds, as Go's `time.Duration`. */
  datatype RelatedWorkOptions = RelatedWorkOptions(minRelevance: int, maxResults: int, concurrencyWindow: int,
                                                   includeClosed: bool, fileLookup: Option<FileLookup>,
                                                   dependencyGraph: Option<map<string, seq<string>>>)

  /** What the activity-window comparison found for one bead: its relevance and the reason shown. */
  datatype ConcurrentMatch = ConcurrentMatch(relevance: int, reason: string)

  const Week: int := 7 * 24 * 60 * 60 * 1_000_000_000

  /** `DefaultRelatedWorkOptions`: relevance at least 20, ten results per category, a one-week window. */
  function DefaultRelatedWorkOptions(): (opts: RelatedWorkOptions)
    ensures opts.minRelevance == 20 && opts.maxResults == 10 && opts.concurrencyWindow == Week
    ensures !opts.includeClosed && opts.fileLookup.None? && opts.dependencyGraph.None?
  {
    RelatedWorkOptions(20, 10, Week, false, None, None)
  }

  function BeadIDs(rs: seq<RelatedWorkBead>): (ids: seq<string>)
    ensures |ids| == |rs| && forall i :: 0 <= i < |rs| ==> ids[i] == rs[i].beadID
  {
    seq(|rs|, i requires 0 <= i < |rs| => rs[i].beadID)
  }

  // ---------------------------------------------------------------- ordering

  /** `sortRelatedResults`: by relevance descending, then bead ID ascending. */
  function RelatedLe(): (RelatedWorkBead, RelatedWorkBead) -> bool
  {
    (a: RelatedWorkBead, b: RelatedWorkBead) =>
      a.relevance > b.relevance || (a.relevance == b.relevance && StrLessEq(a.beadID, b.beadID))
  }

  lemma RelatedLeTotal()
    ensures TotalPreorder(RelatedLe())
  {
    forall a: RelatedWorkBead, b: RelatedWorkBead ensures RelatedLe()(a, b) || RelatedLe()(b, a) {
      StrLessTotal(a.beadID, b.beadID);
    }
    forall a: RelatedWorkBead, b: RelatedWorkBead, c: RelatedWorkBead | RelatedLe()(a, b) && RelatedLe()(b, c)
      ensures RelatedLe()(a, c)
    {
      if a.relevance == b.relevance == c.relevance && a.beadID != b.beadID && b.beadID != c.beadID {
        StrLessTransitive(a.beadID, b.beadID, c.beadID);
      }
    }
  }

  /** Results for two different beads are never tied, so the order of a result list is fixed. */
  lemma RelatedLeStrict(a: RelatedWorkBead, b: RelatedWorkBead)
    requires a.beadID != b.beadID && RelatedLe()(a, b)
    ensures !RelatedLe()(b, a)
  {
    if a.relevance == b.relevance {
      StrLessAsymmetric(a.beadID, b.beadID);
    }
  }

  function SortRelatedResults(rs: seq<RelatedWorkBead>): seq<RelatedWorkBead>
  {
    Sort(rs, RelatedLe())
  }

  /** "Limit results": the first `maxResults` when that is positive, all of them otherwise. */
  function Truncate(rs: seq<RelatedWorkBead>, maxResults: int): (r: seq<RelatedWorkBead>)
    ensures maxResults > 0 ==> r == Take(rs, maxResults)
    ensures maxResults <= 0 ==> r == rs
  {
    if maxResults > 0 && |rs| > maxResults then rs[..maxResults] else rs
  }

  // ---------------------------------------------------------------- candidates

  /** The candidates `make` accepts among `ids`, in the order of `ids`. */
  function Made(ids: seq<string>, make: string -> Option<RelatedWorkBead>): seq<RelatedWorkBead>
  {
    if ids == [] then []
    else
      var last := make(ids[|ids| - 1]);
      Made(ids[..|ids| - 1], make) + (if last.Some? then [last.value] else [])
  }

  lemma MadeStep(ids: seq<string>, k: nat, make: string -> Option<RelatedWorkBead>)
    requires k < |ids|
    ensures Made(ids[..k + 1], make) ==
            Made(ids[..k], make) + (if make(ids[k]).Some? then [make(ids[k]).value] else [])
  {
    assert ids[..k + 1][..k] == ids[..k];
  }

  /** Each candidate `make` builds is about the bead it was asked for. */
  ghost predicate KeepsID(make: string -> Option<RelatedWorkBead>)
  {
    forall id :: make(id).Some? ==> make(id).value.beadID == id
  }

  lemma {:induction false} MadeMembers(ids: seq<string>, make: string -> Option<RelatedWorkBead>)
    requires NoDuplicates(ids) && KeepsID(make)
    ensures NoDuplicates(BeadIDs(Made(ids, make)))
    ensures forall r :: r in Made(ids, make) <==> r.beadID in ids && make(r.beadID) == Some(r)
  {
    if ids != [] {
      var p := ids[..|ids| - 1];
      var last := ids[|ids| - 1];
      assert NoDuplicates(p);
      MadeMembers(p, make);
      var m := Made(p, make);
      assert forall x :: x in ids <==> x in p || x == last;
      assert last !in p;
      if make(last).Some? {
        var ms := m + [make(last).value];
        forall i, j | 0 <= i < j < |ms| ensures BeadIDs(ms)[i] != BeadIDs(ms)[j] {
          if j == |m| {
            assert m[i] in m;
          } else {
            assert BeadIDs(m)[i] != BeadIDs(m)[j];
          }
        }
      }
    }
  }

  /** The new candidates are sorted, then cut to the configured number. */
  function Finish(cands: seq<RelatedWorkBead>, maxResults: int): seq<RelatedWorkBead>
  {
    Truncate(SortRelatedResults(cands), maxResults)
  }

  /**
   * A category's outcome: every result is the candidate `make` builds for a bead among `keys`;
   * a candidate that is missing lost its place to results that all rank at least as high;
   * the results are for distinct beads, in order, and no more than `maxResults` when that is positive.
   */
  ghost predicate Selected(results: seq<RelatedWorkBead>, keys: set<string>,
                           make: string -> Option<RelatedWorkBead>, maxResults: int)
  {
    (forall r :: r in results ==> r.beadID in keys && make(r.beadID) == Some(r)) &&
    (forall b :: b in keys && make(b).Some? && make(b).value !in results ==>
       maxResults > 0 && |results| == maxResults &&
       forall y :: y in results ==> RelatedLe()(y, make(b).value)) &&
    NoDuplicates(BeadIDs(results)) && SortedBy(results, RelatedLe()) &&
    (maxResults > 0 ==> |results| <= maxResults)
  }

  /** Sorting keeps the candidates, and their bead IDs distinct. */
  lemma SortedDistinct(cands: seq<RelatedWorkBead>)
    requires NoDuplicates(BeadIDs(cands))
    ensures var sorted := SortRelatedResults(cands);
            SortedBy(sorted, RelatedLe()) && NoDuplicates(BeadIDs(sorted)) &&
            forall x :: x in sorted <==> x in cands
  {
    var sorted := SortRelatedResults(cands);
    RelatedLeTotal();
    SortSorted(cands, RelatedLe());
    assert NoDuplicates(cands) by {
      forall i, j | 0 <= i < j < |cands| ensures cands[i] != cands[j] {
        assert BeadIDs(cands)[i] != BeadIDs(cands)[j];
      }
    }
    NoDuplicatesPermutation(cands, sorted);
    forall i, j | 0 <= i < j < |sorted| ensures BeadIDs(sorted)[i] != BeadIDs(sorted)[j] {
      assert sorted[i] != sorted[j];
      DistinctIDs(cands, sorted[i], sorted[j]);
    }
  }

  /** Two different candidates of a list with distinct bead IDs have different bead IDs. */
  lemma DistinctIDs(cands: seq<RelatedWorkBead>, x: RelatedWorkBead, y: RelatedWorkBead)
    requires NoDuplicates(BeadIDs(cands)) && x in cands && y in cands && x != y
    ensures x.beadID != y.beadID
  {
    var a :| 0 <= a < |cands| && cands[a] == x;
    var b :| 0 <= b < |cands| && cands[b] == y;
    var ids := BeadIDs(cands);
    assert ids[a] == x.beadID && ids[b] == y.beadID;
  }

  /** Cutting a sorted list drops only elements that every kept one ranks at least as high as. */
  lemma TruncateKeepsBest(sorted: seq<RelatedWorkBead>, maxResults: int)
    requires SortedBy(sorted, RelatedLe())
    ensures var results := Truncate(sorted, maxResults);
            forall c :: c in sorted && c !in results ==>
              maxResults > 0 && |results| == maxResults && forall y :: y in results ==> RelatedLe()(y, c)
  {
    var results := Truncate(sorted, maxResults);
    forall c | c in sorted && c !in results
      ensures maxResults > 0 && |results| == maxResults && forall y :: y in results ==> RelatedLe()(y, c)
    {
      var j :| 0 <= j < |sorted| && sorted[j] == c;
      assert j >= |results|;
      forall y | y in results ensures RelatedLe()(y, c) {
        var i :| 0 <= i < |results| && results[i] == y;
        assert sorted[i] == y;
      }
    }
  }

  /** Sorting and cutting the candidates of distinct keys selects the best of them. */
  lemma FinishSelected(cands: seq<RelatedWorkBead>, keys: set<string>, make: string -> Option<RelatedWorkBead>,
                       maxResults: int)
    requires NoDuplicates(BeadIDs(cands)) && KeepsID(make)
    requires forall r :: r in cands <==> r.beadID in keys && make(r.beadID) == Some(r)
    ensures Selected(Finish(cands, maxResults), keys, make, maxResults)
  {
    var sorted := SortRelatedResults(cands);
    SortedDistinct(cands);
    TruncateKeepsBest(sorted, maxResults);
    var results := Finish(cands, maxResults);
    assert results == sorted[..|results|];
    forall i, j | 0 <= i < j < |results| ensures BeadIDs(results)[i] != BeadIDs(results)[j] {
      assert BeadIDs(sorted)[i] != BeadIDs(sorted)[j];
    }
    forall r | r in results ensures r.beadID in keys && make(r.beadID) == Some(r) {
      assert r in sorted;
    }
    forall b | b in keys && make(b).Some? && make(b).value !in results
      ensures maxResults > 0 && |results| == maxResults &&
              forall y :: y in results ==> RelatedLe()(y, make(b).value)
    {
      assert make(b).value in sorted;
    }
  }

  /** The candidate loop of each finder: the beads of `ids` the finder's test accepts, in that order. */
  method CollectCandidates(ids: seq<string>, make: string -> Option<RelatedWorkBead>)
    returns (results: seq<RelatedWorkBead>)
    ensures results == Made(ids, make)
  {
    results := [];
    for i := 0 to |ids|
      invariant results == Made(ids[..i], make)
    {
      MadeStep(ids, i, make);
      var c := make(ids[i]);
      if c.Some? {
        results := results + [c.value];
      }
    }
    assert ids[..|ids|] == ids;
  }

  /** Sorting and limiting a finder's candidates. */
  method SelectCandidates(ghost keys: set<string>, ids: seq<string>, make: string -> Option<RelatedWorkBead>, maxResults: int)
    returns (results: seq<RelatedWorkBead>)
    requires NoDuplicates(ids) && (forall k :: k in ids <==> k in keys) && KeepsID(make)
    ensures Selected(results, keys, make, maxResults)
  {
    var cands := CollectCandidates(ids, make);
    results := SortRelatedResults(cands);
    if maxResults > 0 && |results| > maxResults {
      results := results[..maxResults];
    }
    MadeMembers(ids, make);
    FinishSelected(cands, keys, make, maxResults);
  }

  // ---------------------------------------------------------------- relevance

  /** Overlap relevance: the shared fraction as a whole percentage, rounded down, at most 100. */
  function Relevance(shared: nat, total: nat): (r: int)
    requires total > 0
    ensures 0 <= r <= 100
    ensures r < 100 ==> r * total <= shared * 100 < (r + 1) * total
    ensures r == 100 <==> shared >= total
  {
    var pct := (shared * 100) / total;
    if pct > 100 then 100 else pct
  }

  lemma DivMonotone(x: nat, y: nat, d: nat)
    requires x <= y && d > 0
    ensures x / d <= y / d
  {
    var qx, qy := x / d, y / d;
    assert qx * d <= x;
    assert y < (qy + 1) * d;
    MulCancel(qx, qy + 1, d);
  }

  lemma MulCancel(a: nat, b: nat, d: nat)
    requires d > 0 && a * d < b * d
    ensures a < b
  {
  }

  /** More shared items never lower the relevance. */
  lemma RelevanceMonotone(a: nat, b: nat, total: nat)
    requires total > 0 && a <= b
    ensures Relevance(a, total) <= Relevance(b, total)
  {
    DivMonotone(a * 100, b * 100, total);
  }

  // ---------------------------------------------------------------- shared files and commits

  /** The shared items as shown: sorted, the first five. */
  function FirstFive(items: seq<string>): seq<string>
  {
    LimitStrings(SortStrings(items), 5)
  }

  /** At most five of the items, in order, and no item left out sorts before one shown. */
  lemma FirstFiveSpec(items: seq<string>)
    ensures var shown := FirstFive(items);
            SortedStrings(shown) && |shown| == Min(|items|, 5) &&
            (forall x :: x in shown ==> x in items) &&
            (forall x, y :: x in items && x !in shown && y in shown ==> StrLessEq(y, x))
  {
    var sorted := SortStrings(items);
    SortStringsSorted(items);
    var shown := FirstFive(items);
    assert shown == sorted[..|shown|];
    forall x, y | x in items && x !in shown && y in shown ensures StrLessEq(y, x) {
      var j :| 0 <= j < |sorted| && sorted[j] == x;
      var i :| 0 <= i < |shown| && shown[i] == y;
      assert sorted[i] == y;
    }
  }

  /** The shared SHAs as shown: sorted, cut to seven characters, the first five. */
  function ShownCommits(shas: seq<string>): seq<string>
  {
    LimitStrings(Shortened(SortStrings(shas)), 5)
  }

  lemma ShownCommitsSpec(shas: seq<string>)
    ensures var shown := ShownCommits(shas);
            SortedStrings(shown) && |shown| == Min(|shas|, 5) &&
            forall x :: x in shown ==> |x| <= 7 && exists sha :: sha in shas && x == ShortSHA(sha)
  {
    var sorted := SortStrings(shas);
    SortStringsSorted(shas);
    ShortenedSorted(sorted);
    var shown := ShownCommits(shas);
    forall x | x in shown ensures |x| <= 7 && exists sha :: sha in shas && x == ShortSHA(sha) {
      var i :| 0 <= i < |shown| && shown[i] == x;
      assert sorted[i] in shas;
    }
  }

  // ---------------------------------------------------------------- per-bead tests

  /**
   * The file-overlap test for one bead: known, not skipped, relevance (shared files over target
   * files) at least the minimum. No target files means no candidates.
   */
  function FileCandidate(hs: map<string, BeadHistory>, opts: RelatedWorkOptions, total: nat,
                         overlap: map<string, seq<string>>, b: string): (c: Option<RelatedWorkBead>)
    ensures c.Some? ==> c.value.beadID == b && c.value.relationType == FileOverlap
  {
    if total == 0 || b !in overlap || b !in hs then None
    else
      var h := hs[b];
      var shared := overlap[b];
      if ShouldSkipRelatedStatus(h.status, opts.includeClosed) then None
      else
        var relevance := Relevance(|shared|, total);
        if relevance < opts.minRelevance then None
        else Some(RelatedWorkBead(b, h.title, h.status, FileOverlap, relevance,
                                  FormatFileOverlapReason(|shared|, total), FirstFive(shared), []))
  }

  function FileMake(hs: map<string, BeadHistory>, opts: RelatedWorkOptions, total: nat,
                    overlap: map<string, seq<string>>): string -> Option<RelatedWorkBead>
  {
    b => FileCandidate(hs, opts, total, overlap, b)
  }

  /** What a file-overlap result holds, and exactly when a bead gets one. */
  lemma FileCandidateSpec(hs: map<string, BeadHistory>, opts: RelatedWorkOptions, total: nat,
                          overlap: map<string, seq<string>>, b: string)
    requires total > 0
    ensures var c := FileCandidate(hs, opts, total, overlap, b);
            (c.Some? <==> b in overlap && b in hs && !ShouldSkipRelatedStatus(hs[b].status, opts.includeClosed) &&
                          Relevance(|overlap[b]|, total) >= opts.minRelevance) &&
            (c.Some? ==>
               var r := c.value;
               r.title == hs[b].title && r.status == hs[b].status && r.relationType == FileOverlap &&
               opts.minRelevance <= r.relevance <= 100 && r.relevance == Relevance(|overlap[b]|, total) &&
               r.reason == FormatFileOverlapReason(|overlap[b]|, total) &&
               SortedStrings(r.sharedFiles) && |r.sharedFiles| == Min(|overlap[b]|, 5) &&
               (forall f :: f in r.sharedFiles ==> f in overlap[b]) && r.sharedCommits == [])
  {
    if b in overlap {
      FirstFiveSpec(overlap[b]);
    }
  }

  /** The commit-overlap test for one bead, as the file-overlap one over shared commits. */
  function CommitCandidate(hs: map<string, BeadHistory>, opts: RelatedWorkOptions, total: nat,
                           shared: map<string, seq<string>>, b: string): (c: Option<RelatedWorkBead>)
    ensures c.Some? ==> c.value.beadID == b && c.value.relationType == CommitOverlap
  {
    if total == 0 || b !in shared || b !in hs then None
    else
      var h := hs[b];
      var shas := shared[b];
      if ShouldSkipRelatedStatus(h.status, opts.includeClosed) then None
      else
        var relevance := Relevance(|shas|, total);
        if relevance < opts.minRelevance then None
        else Some(RelatedWorkBead(b, h.title, h.status, CommitOverlap, relevance,
                                  FormatCommitOverlapReason(|shas|, total), [], ShownCommits(shas)))
  }

  function CommitMake(hs: map<string, BeadHistory>, opts: RelatedWorkOptions, total: nat,
                      shared: map<string, seq<string>>): string -> Option<RelatedWorkBead>
  {
    b => CommitCandidate(hs, opts, total, shared, b)
  }

  lemma CommitCandidateSpec(hs: map<string, BeadHistory>, opts: RelatedWorkOptions, total: nat,
                            shared: map<string, seq<string>>, b: string)
    requires total > 0
    ensures var c := CommitCandidate(hs, opts, total, shared, b);
            (c.Some? <==> b in shared && b in hs && !ShouldSkipRelatedStatus(hs[b].status, opts.includeClosed) &&
                          Relevance(|shared[b]|, total) >= opts.minRelevance) &&
            (c.Some? ==>
               var r := c.value;
               r.title == hs[b].title && r.status == hs[b].status && r.relationType == CommitOverlap &&
               opts.minRelevance <= r.relevance <= 100 && r.relevance == Relevance(|shared[b]|, total) &&
               r.reason == FormatCommitOverlapReason(|shared[b]|, total) &&
               SortedStrings(r.sharedCommits) && |r.sharedCommits| == Min(|shared[b]|, 5) &&
               (forall x :: x in r.sharedCommits ==> |x| <= 7 && exists sha :: sha in shared[b] && x == ShortSHA(sha)) &&
               r.sharedFiles == [])
  {
    if b in shared {
      ShownCommitsSpec(shared[b]);
    }
  }

  /** The dependency-cluster test: one hop scores 80, two hops 40. */
  function ClusterCandidate(hs: map<string, BeadHistory>, opts: RelatedWorkOptions,
                            cluster: map<string, int>, b: string): (c: Option<RelatedWorkBead>)
    ensures c.Some? ==> c.value.beadID == b && c.value.relationType == DependencyCluster
  {
    if b !in cluster || b !in hs then None
    else
      var h := hs[b];
      if ShouldSkipRelatedStatus(h.status, opts.includeClosed) then None
      else
        var relevance := if cluster[b] == 2 then 40 else 80;
        var reason := if cluster[b] == 2 then "Indirect dependency (2 hops)" else "Direct dependency";
        if relevance < opts.minRelevance then None
        else Some(RelatedWorkBead(b, h.title, h.status, DependencyCluster, relevance, reason, [], []))
  }

  function ClusterMake(hs: map<string, BeadHistory>, opts: RelatedWorkOptions,
                       cluster: map<string, int>): string -> Option<RelatedWorkBead>
  {
    b => ClusterCandidate(hs, opts, cluster, b)
  }

  lemma ClusterCandidateSpec(hs: map<string, BeadHistory>, opts: RelatedWorkOptions,
                             cluster: map<string, int>, b: string)
    ensures var c := ClusterCandidate(hs, opts, cluster, b);
            (c.Some? <==> b in cluster && b in hs && !ShouldSkipRelatedStatus(hs[b].status, opts.includeClosed) &&
                          (if cluster[b] == 2 then 40 else 80) >= opts.minRelevance) &&
            (c.Some? ==>
               var r := c.value;
               r.title == hs[b].title && r.status == hs[b].status && r.relationType == DependencyCluster &&
               (cluster[b] == 2 ==> r.relevance == 40 && r.reason == "Indirect dependency (2 hops)") &&
               (cluster[b] != 2 ==> r.relevance == 80 && r.reason == "Direct dependency") &&
               r.sharedFiles == [] && r.sharedCommits == [])
  {
  }

  /** The concurrency test: known, not yet seen, not skipped, and active in the target's window. */
  function ConcurrentCandidate(hs: map<string, BeadHistory>, opts: RelatedWorkOptions, seen: set<string>,
                               matches: map<string, ConcurrentMatch>, b: string): (c: Option<RelatedWorkBead>)
    ensures c.Some? ==> c.value.beadID == b && c.value.relationType == Concurrent && b !in seen
  {
    if b !in hs || b in seen then None
    else
      var h := hs[b];
      if ShouldSkipRelatedStatus(h.status, opts.includeClosed) || b !in matches then None
      else if matches[b].relevance < opts.minRelevance then None
      else Some(RelatedWorkBead(b, h.title, h.status, Concurrent, matches[b].relevance, matches[b].reason, [], []))
  }

  function ConcurrentMake(hs: map<string, BeadHistory>, opts: RelatedWorkOptions, seen: set<string>,
                          matches: map<string, ConcurrentMatch>): string -> Option<RelatedWorkBead>
  {
    b => ConcurrentCandidate(hs, opts, seen, matches, b)
  }

  // ---------------------------------------------------------------- file overlap

  /** Whether a lookup reports bead `b`: among its open beads, or its closed ones when those count. */
  predicate Hit(l: LookupResult, b: string, includeClosed: bool)
  {
    b in IDs(l.openBeads) || (includeClosed && b in IDs(l.closedBeads))
  }

  /** How often a lookup reports bead `b`: among its open beads, and its closed ones when those count. */
  function Occurrences(l: LookupResult, b: string, includeClosed: bool): (n: nat)
    ensures n > 0 <==> Hit(l, b, includeClosed)
  {
    multiset(IDs(l.openBeads))[b] + (if includeClosed then multiset(IDs(l.closedBeads))[b] else 0)
  }

  /** The files a lookup shares with bead `b`: its path, once per time it reports `b`. */
  function SharedBy(b: string, includeClosed: bool): LookupResult -> seq<string>
  {
    (l: LookupResult) => Repeat(l.filePath, Occurrences(l, b, includeClosed))
  }

  /** The shared files the lookups `ls`, taken in turn, record for bead `b`. */
  function SharedFiles(ls: seq<LookupResult>, b: string, includeClosed: bool): seq<string>
  {
    FlatMap(ls, SharedBy(b, includeClosed))
  }

  /** A file is shared with `b` exactly when its lookup reports `b`. */
  lemma SharedFilesMember(ls: seq<LookupResult>, b: string, includeClosed: bool, f: string)
    ensures f in SharedFiles(ls, b, includeClosed) <==>
            exists k :: 0 <= k < |ls| && ls[k].filePath == f && Hit(ls[k], b, includeClosed)
  {
    FlatMapMember(ls, SharedBy(b, includeClosed), f);
    if exists k :: 0 <= k < |ls| && ls[k].filePath == f && Hit(ls[k], b, includeClosed) {
      var k :| 0 <= k < |ls| && ls[k].filePath == f && Hit(ls[k], b, includeClosed);
      assert SharedBy(b, includeClosed)(ls[k])[0] == f;
    }
  }

  /** Lookups of distinct files: each with a path of its own. */
  predicate DistinctPaths(ls: seq<LookupResult>)
  {
    forall j, k :: 0 <= j < k < |ls| ==> ls[j].filePath != ls[k].filePath
  }

  /**
   * When the files looked up are distinct and no lookup reports `b` twice, `b`'s shared files
   * hold each file whose lookup reports `b` exactly once.
   */
  lemma {:induction false} SharedFilesDistinct(ls: seq<LookupResult>, b: string, includeClosed: bool)
    requires DistinctPaths(ls) && forall k :: 0 <= k < |ls| ==> Occurrences(ls[k], b, includeClosed) <= 1
    ensures NoDuplicates(SharedFiles(ls, b, includeClosed))
  {
    if ls != [] {
      var init, last := ls[..|ls| - 1], ls[|ls| - 1];
      assert ls == init + [last];
      SharedFilesDistinct(init, b, includeClosed);
      FlatMapStep(init, last, ls, SharedBy(b, includeClosed));
      var prev, add := SharedFiles(init, b, includeClosed), SharedBy(b, includeClosed)(last);
      forall x | x in prev ensures x !in add {
        SharedFilesMember(init, b, includeClosed, x);
        var k :| 0 <= k < |init| && init[k].filePath == x && Hit(init[k], b, includeClosed);
        assert init[k] == ls[k];
      }
      NoDuplicatesConcat(prev, add);
    }
  }

  /** The shared list recorded for `b` so far, empty when there is none. */
  function SharedOr(overlap: map<string, seq<string>>, b: string): seq<string>
  {
    if b in overlap then overlap[b] else []
  }

  /** What recording `file` for every unseen bead of `refs` appends to `b`'s shared list. */
  function Added(refs: seq<BeadReference>, b: string, file: string, seen: set<string>): seq<string>
  {
    if b in seen then [] else Repeat(file, multiset(IDs(refs))[b])
  }

  lemma AddedStep(refs: seq<BeadReference>, j: nat, b: string, file: string, seen: set<string>)
    requires j < |refs|
    ensures Added(refs[..j + 1], b, file, seen) ==
            Added(refs[..j], b, file, seen) + (if b == refs[j].beadID && b !in seen then [file] else [])
  {
    assert IDs(refs[..j + 1]) == IDs(refs[..j]) + [refs[j].beadID];
    if b !in seen {
      RepeatAdd(file, multiset(IDs(refs[..j]))[b], if b == refs[j].beadID then 1 else 0);
    }
  }

  /** The lists after `j` references: the old lists, each extended by what those references add. */
  ghost predicate RecordedUpTo(overlap: map<string, seq<string>>, overlap': map<string, seq<string>>,
                               refs: seq<BeadReference>, j: nat, file: string, seen: set<string>)
    requires j <= |refs|
  {
    (forall b :: b in overlap' <==> b in overlap || (b !in seen && b in IDs(refs[..j]))) &&
    forall b :: SharedOr(overlap', b) == SharedOr(overlap, b) + Added(refs[..j], b, file, seen)
  }

  lemma RecordStep(overlap: map<string, seq<string>>, o0: map<string, seq<string>>, o1: map<string, seq<string>>,
                   refs: seq<BeadReference>, j: nat, file: string, seen: set<string>)
    requires j < |refs| && RecordedUpTo(overlap, o0, refs, j, file, seen)
    requires var id := refs[j].beadID;
      o1 == if id in seen then o0 else o0[id := SharedOr(o0, id) + [file]]
    ensures RecordedUpTo(overlap, o1, refs, j + 1, file, seen)
  {
    RecordKeysStep(overlap, o0, o1, refs, j, file, seen);
    forall b ensures SharedOr(o1, b) == SharedOr(overlap, b) + Added(refs[..j + 1], b, file, seen) {
      RecordListStep(overlap, o0, o1, refs, j, file, seen, b);
    }
  }

  lemma RecordKeysStep(overlap: map<string, seq<string>>, o0: map<string, seq<string>>, o1: map<string, seq<string>>,
                       refs: seq<BeadReference>, j: nat, file: string, seen: set<string>)
    requires j < |refs| && RecordedUpTo(overlap, o0, refs, j, file, seen)
    requires var id := refs[j].beadID;
      o1 == if id in seen then o0 else o0[id := SharedOr(o0, id) + [file]]
    ensures forall b :: b in o1 <==> b in overlap || (b !in seen && b in IDs(refs[..j + 1]))
  {
    assert IDs(refs[..j + 1]) == IDs(refs[..j]) + [refs[j].beadID];
  }

  lemma RecordListStep(overlap: map<string, seq<string>>, o0: map<string, seq<string>>, o1: map<string, seq<string>>,
                       refs: seq<BeadReference>, j: nat, file: string, seen: set<string>, b: string)
    requires j < |refs| && SharedOr(o0, b) == SharedOr(overlap, b) + Added(refs[..j], b, file, seen)
    requires var id := refs[j].beadID;
      o1 == if id in seen then o0 else o0[id := SharedOr(o0, id) + [file]]
    ensures SharedOr(o1, b) == SharedOr(overlap, b) + Added(refs[..j + 1], b, file, seen)
  {
    AddedStep(refs, j, b, file, seen);
  }

  /** Appends `file` to the shared list of every bead of `refs` not yet seen, once per reference. */
  method AddRefs(overlap: map<string, seq<string>>, refs: seq<BeadReference>, file: string, seen: set<string>)
    returns (overlap': map<string, seq<string>>)
    ensures forall b :: b in overlap' <==> b in overlap || (b !in seen && b in IDs(refs))
    ensures forall b :: SharedOr(overlap', b) == SharedOr(overlap, b) + Added(refs, b, file, seen)
  {
    overlap' := overlap;
    for j := 0 to |refs|
      invariant RecordedUpTo(overlap, overlap', refs, j, file, seen)
    {
      ghost var before := overlap';
      var id := refs[j].beadID;
      if id !in seen {
        var prev := if id in overlap' then overlap'[id] else [];
        overlap' := overlap'[id := prev + [file]];
      }
      RecordStep(overlap, before, overlap', refs, j, file, seen);
    }
    assert refs[..|refs|] == refs;
  }

  /** The lists after the first `i` lookups: every unseen bead a lookup reported, with its shared files. */
  ghost predicate CountedUpTo(overlap: map<string, seq<string>>, lookups: seq<LookupResult>, includeClosed: bool,
                              seen: set<string>)
  {
    (forall b :: b in overlap <==> b !in seen && exists k :: 0 <= k < |lookups| && Hit(lookups[k], b, includeClosed)) &&
    forall b :: b !in seen ==> SharedOr(overlap, b) == SharedFiles(lookups, b, includeClosed)
  }

  /**
   * The shared files of every bead not yet seen: each target file is looked up, and the file is
   * added for every bead the lookup reports, once per report (`lookups` are those answers).
   */
  method FileOverlapCounts(fl: FileLookup, files: seq<string>, includeClosed: bool, seen: set<string>)
    returns (overlap: map<string, seq<string>>, ghost lookups: seq<LookupResult>)
    ensures |lookups| == |files| && forall k :: 0 <= k < |files| ==> lookups[k].filePath == files[k]
    ensures forall k :: 0 <= k < |files| ==> LookupOk(fl, files[k], lookups[k])
    ensures forall b :: b in overlap <==> b !in seen && exists k :: 0 <= k < |files| && Hit(lookups[k], b, includeClosed)
    ensures forall b :: b in overlap ==> overlap[b] == SharedFiles(lookups, b, includeClosed)
  {
    overlap := map[];
    lookups := [];
    for i := 0 to |files|
      invariant |lookups| == i && LookedUp(fl, files, lookups)
      invariant CountedUpTo(overlap, lookups, includeClosed, seen)
    {
      ghost var before := overlap;
      var lookup;
      overlap, lookup := FileStep(fl, overlap, files[i], includeClosed, seen);
      CountStep(lookups, lookup, before, overlap, seen, includeClosed);
      LookedUpStep(fl, files, lookups, lookup);
      lookups := lookups + [lookup];
    }
    forall b | b in overlap ensures overlap[b] == SharedFiles(lookups, b, includeClosed) {
      assert b !in seen && SharedOr(overlap, b) == overlap[b];
    }
  }

  /** `lookups` are the answers for the first `|lookups|` files, in order. */
  ghost predicate LookedUp(fl: FileLookup, files: seq<string>, lookups: seq<LookupResult>)
  {
    |lookups| <= |files| &&
    forall k :: 0 <= k < |lookups| ==> lookups[k].filePath == files[k] && LookupOk(fl, files[k], lookups[k])
  }

  lemma LookedUpStep(fl: FileLookup, files: seq<string>, lookups: seq<LookupResult>, lookup: LookupResult)
    requires LookedUp(fl, files, lookups) && |lookups| < |files|
    requires lookup.filePath == files[|lookups|] && LookupOk(fl, files[|lookups|], lookup)
    ensures LookedUp(fl, files, lookups + [lookup])
  {
    var ls := lookups + [lookup];
    forall k | 0 <= k < |ls| ensures ls[k].filePath == files[k] && LookupOk(fl, files[k], ls[k]) {
      if k < |lookups| {
        assert ls[k] == lookups[k];
      } else {
        assert ls[k] == lookup;
      }
    }
  }

  /** One target file: its lookup, and the file added for every report of an unseen bead. */
  method FileStep(fl: FileLookup, overlap: map<string, seq<string>>, file: string, includeClosed: bool, seen: set<string>)
    returns (overlap': map<string, seq<string>>, lookup: LookupResult)
    ensures lookup.filePath == file && LookupOk(fl, file, lookup)
    ensures forall b :: b in overlap' <==> b in overlap || (b !in seen && Hit(lookup, b, includeClosed))
    ensures forall b :: b !in seen ==>
              SharedOr(overlap', b) == SharedOr(overlap, b) + SharedBy(b, includeClosed)(lookup)
    ensures forall b :: b in seen ==> SharedOr(overlap', b) == SharedOr(overlap, b)
  {
    lookup := LookupByFile(fl, file);
    var mid := AddRefs(overlap, lookup.openBeads, file, seen);
    overlap' := mid;
    if includeClosed {
      overlap' := AddRefs(mid, lookup.closedBeads, file, seen);
    }
    FileStepShared(overlap, mid, overlap', lookup, file, includeClosed, seen);
  }

  /** The open references, then (when they count) the closed ones, add the lookup's share. */
  lemma FileStepShared(overlap: map<string, seq<string>>, mid: map<string, seq<string>>,
                       overlap': map<string, seq<string>>, lookup: LookupResult, file: string,
                       includeClosed: bool, seen: set<string>)
    requires lookup.filePath == file
    requires forall b :: b in mid <==> b in overlap || (b !in seen && b in IDs(lookup.openBeads))
    requires forall b :: SharedOr(mid, b) == SharedOr(overlap, b) + Added(lookup.openBeads, b, file, seen)
    requires !includeClosed ==> overlap' == mid
    requires includeClosed ==>
               (forall b :: b in overlap' <==> b in mid || (b !in seen && b in IDs(lookup.closedBeads))) &&
               forall b :: SharedOr(overlap', b) == SharedOr(mid, b) + Added(lookup.closedBeads, b, file, seen)
    ensures forall b :: b in overlap' <==> b in overlap || (b !in seen && Hit(lookup, b, includeClosed))
    ensures forall b :: b !in seen ==>
              SharedOr(overlap', b) == SharedOr(overlap, b) + SharedBy(b, includeClosed)(lookup)
    ensures forall b :: b in seen ==> SharedOr(overlap', b) == SharedOr(overlap, b)
  {
    forall b | b !in seen
      ensures SharedOr(overlap', b) == SharedOr(overlap, b) + SharedBy(b, includeClosed)(lookup)
    {
      if includeClosed {
        RepeatAdd(file, multiset(IDs(lookup.openBeads))[b], multiset(IDs(lookup.closedBeads))[b]);
      }
    }
  }

  lemma CountStep(prev: seq<LookupResult>, lookup: LookupResult,
                  before: map<string, seq<string>>, after: map<string, seq<string>>,
                  seen: set<string>, includeClosed: bool)
    requires CountedUpTo(before, prev, includeClosed, seen)
    requires forall b :: b in after <==> b in before || (b !in seen && Hit(lookup, b, includeClosed))
    requires forall b :: b !in seen ==>
               SharedOr(after, b) == SharedOr(before, b) + SharedBy(b, includeClosed)(lookup)
    ensures CountedUpTo(after, prev + [lookup], includeClosed, seen)
  {
    CountKeysStep(prev, lookup, before, after, seen, includeClosed);
    var ls := prev + [lookup];
    forall b | b !in seen ensures SharedOr(after, b) == SharedFiles(ls, b, includeClosed) {
      FlatMapStep(prev, lookup, ls, SharedBy(b, includeClosed));
    }
  }

  lemma CountKeysStep(prev: seq<LookupResult>, lookup: LookupResult,
                      before: map<string, seq<string>>, after: map<string, seq<string>>,
                      seen: set<string>, includeClosed: bool)
    requires forall b :: b in before <==> b !in seen && exists k :: 0 <= k < |prev| && Hit(prev[k], b, includeClosed)
    requires forall b :: b in after <==> b in before || (b !in seen && Hit(lookup, b, includeClosed))
    ensures var ls := prev + [lookup];
      forall b :: b in after <==> b !in seen && exists k :: 0 <= k < |ls| && Hit(ls[k], b, includeClosed)
  {
    var ls := prev + [lookup];
    forall b ensures b in after <==> b !in seen && exists k :: 0 <= k < |ls| && Hit(ls[k], b, includeClosed) {
      if b in before {
        var k :| 0 <= k < |prev| && Hit(prev[k], b, includeClosed);
        assert ls[k] == prev[k];
      } else if b in after {
        assert ls[|prev|] == lookup;
      }
      if b !in seen && exists k :: 0 <= k < |ls| && Hit(ls[k], b, includeClosed) {
        var k :| 0 <= k < |ls| && Hit(ls[k], b, includeClosed);
        if k < |prev| {
          assert ls[k] == prev[k];
        }
      }
    }
  }

  /** The counts over an enumeration of the target files, restated over the target set. */
  lemma OverlapOfTargets(overlap: map<string, seq<string>>, lookups: seq<LookupResult>, files: seq<string>,
                         targetFiles: map<string, bool>, includeClosed: bool, seen: set<string>)
    requires forall f :: f in files <==> f in targetFiles
    requires |lookups| == |files| && forall k :: 0 <= k < |files| ==> lookups[k].filePath == files[k]
    requires forall b :: b in overlap <==> b !in seen && exists k :: 0 <= k < |files| && Hit(lookups[k], b, includeClosed)
    requires forall b :: b in overlap ==> overlap[b] == SharedFiles(lookups, b, includeClosed)
    ensures forall b :: b in overlap ==> b !in seen && |overlap[b]| > 0 && forall f :: f in overlap[b] ==> f in targetFiles
    ensures forall b :: b in overlap <==> b !in seen && exists l :: l in lookups && l.filePath in targetFiles && Hit(l, b, includeClosed)
  {
    forall b | b in overlap
      ensures |overlap[b]| > 0 && (forall f :: f in overlap[b] ==> f in targetFiles)
      ensures exists l :: l in lookups && l.filePath in targetFiles && Hit(l, b, includeClosed)
    {
      var k :| 0 <= k < |files| && Hit(lookups[k], b, includeClosed);
      assert lookups[k] in lookups && files[k] in files;
      SharedFilesMember(lookups, b, includeClosed, files[k]);
      SharedFilesTargets(lookups, files, targetFiles, b, includeClosed);
    }
    forall b | b !in seen && exists l :: l in lookups && l.filePath in targetFiles && Hit(l, b, includeClosed)
      ensures b in overlap
    {
      var l :| l in lookups && l.filePath in targetFiles && Hit(l, b, includeClosed);
      var k :| 0 <= k < |lookups| && lookups[k] == l;
    }
  }

  /** The files shared with `b` are all target files. */
  lemma SharedFilesTargets(lookups: seq<LookupResult>, files: seq<string>, targetFiles: map<string, bool>,
                           b: string, includeClosed: bool)
    requires forall f :: f in files <==> f in targetFiles
    requires |lookups| == |files| && forall k :: 0 <= k < |files| ==> lookups[k].filePath == files[k]
    ensures forall f :: f in SharedFiles(lookups, b, includeClosed) ==> f in targetFiles
  {
    forall f | f in SharedFiles(lookups, b, includeClosed) ensures f in targetFiles {
      SharedFilesMember(lookups, b, includeClosed, f);
      var j :| 0 <= j < |lookups| && lookups[j].filePath == f && Hit(lookups[j], b, includeClosed);
      assert files[j] in files;
    }
  }

  /** The lookups of an enumeration of the target files: one per target file, each a file of its own. */
  lemma LookupsOfTargets(fl: FileLookup, lookups: seq<LookupResult>, files: seq<string>, targetFiles: map<string, bool>)
    requires NoDuplicates(files) && forall f :: f in files <==> f in targetFiles
    requires |lookups| == |files| && forall k :: 0 <= k < |files| ==> lookups[k].filePath == files[k]
    requires forall k :: 0 <= k < |files| ==> LookupOk(fl, files[k], lookups[k])
    ensures DistinctPaths(lookups)
    ensures forall l :: l in lookups ==> l.filePath in targetFiles && LookupOk(fl, l.filePath, l)
    ensures forall f :: f in targetFiles ==> exists l :: l in lookups && l.filePath == f
  {
    forall l | l in lookups ensures l.filePath in targetFiles && LookupOk(fl, l.filePath, l) {
      var k :| 0 <= k < |lookups| && lookups[k] == l;
      assert files[k] in files;
    }
    forall f | f in targetFiles ensures exists l :: l in lookups && l.filePath == f {
      var k :| 0 <= k < |files| && files[k] == f;
      assert lookups[k] in lookups;
    }
  }

  /**
   * `findFileOverlap`: nothing without a lookup or target files; otherwise the beads sharing
   * target files, each with the share of target files it touched, the best `maxResults` of them.
   */
  method FindFileOverlap(hs: map<string, BeadHistory>, targetFiles: map<string, bool>, fileLookup: Option<FileLookup>,
                         opts: RelatedWorkOptions, seen: set<string>)
    returns (results: seq<RelatedWorkBead>, ghost overlap: map<string, seq<string>>, ghost lookups: seq<LookupResult>)
    ensures fileLookup.None? || |targetFiles| == 0 ==> results == []
    ensures forall b :: b in overlap ==> b !in seen && |overlap[b]| > 0 && forall f :: f in overlap[b] ==> f in targetFiles
    ensures fileLookup.Some? ==>
              forall b :: b in overlap <==> b !in seen && exists l :: l in lookups && l.filePath in targetFiles && Hit(l, b, opts.includeClosed)
    ensures fileLookup.Some? ==>
              DistinctPaths(lookups) &&
              (forall l :: l in lookups ==> l.filePath in targetFiles && LookupOk(fileLookup.value, l.filePath, l)) &&
              (forall f :: f in targetFiles ==> exists l :: l in lookups && l.filePath == f)
    ensures forall b :: b in overlap ==> overlap[b] == SharedFiles(lookups, b, opts.includeClosed)
    ensures forall r :: r in results ==> r.beadID !in seen && r.relationType == FileOverlap
    ensures Selected(results, overlap.Keys, FileMake(hs, opts, |targetFiles|, overlap), opts.maxResults)
  {
    if fileLookup.None? || |targetFiles| == 0 {
      results, overlap, lookups := [], map[], [];
      return;
    }
    var files := MapKeys(targetFiles);
    var counts;
    counts, lookups := FileOverlapCounts(fileLookup.value, files, opts.includeClosed, seen);
    overlap := counts;
    OverlapOfTargets(overlap, lookups, files, targetFiles, opts.includeClosed, seen);
    LookupsOfTargets(fileLookup.value, lookups, files, targetFiles);
    var ids := MapKeys(counts);
    results := SelectCandidates(counts.Keys, ids, FileMake(hs, opts, |targetFiles|, counts), opts.maxResults);
  }

  // ---------------------------------------------------------------- commit overlap

  /** Appends `x` unless it is already there. */
  function AppendUnique(s: seq<string>, x: string): (r: seq<string>)
    ensures forall y :: y in r <==> y in s || y == x
    ensures NoDuplicates(s) ==> NoDuplicates(r)
  {
    if x in s then s else s + [x]
  }

  /** A bead other than the target and not yet seen. */
  predicate Fresh(b: string, targetID: string, seen: set<string>)
  {
    b !in seen && b != targetID
  }

  /** Records `sha` as shared with every fresh bead the commit index lists for it. */
  method AddShare(shared: map<string, seq<string>>, sha: string, beadIDs: seq<string>, targetID: string, seen: set<string>)
    returns (shared': map<string, seq<string>>)
    requires forall b :: b in shared ==> NoDuplicates(shared[b])
    ensures forall b :: b in shared' <==> b in shared || (b in beadIDs && Fresh(b, targetID, seen))
    ensures forall b :: b in shared' ==>
              NoDuplicates(shared'[b]) &&
              forall x :: x in shared'[b] <==> (b in shared && x in shared[b]) || (x == sha && b in beadIDs && Fresh(b, targetID, seen))
  {
    shared' := shared;
    for j := 0 to |beadIDs|
      invariant forall b :: b in shared' <==> b in shared || (b in beadIDs[..j] && Fresh(b, targetID, seen))
      invariant forall b :: b in shared' ==>
                  NoDuplicates(shared'[b]) &&
                  forall x :: x in shared'[b] <==> (b in shared && x in shared[b]) || (x == sha && b in beadIDs[..j] && Fresh(b, targetID, seen))
    {
      assert beadIDs[..j + 1] == beadIDs[..j] + [beadIDs[j]];
      var id := beadIDs[j];
      if Fresh(id, targetID, seen) {
        var prev := if id in shared' then shared'[id] else [];
        shared' := shared'[id := AppendUnique(prev, sha)];
      }
    }
    assert beadIDs[..|beadIDs|] == beadIDs;
  }

  /** Whether `sha` is one of `shas` and the commit index lists bead `b` for it. */
  ghost predicate Shares(ci: map<string, seq<string>>, shas: seq<string>, b: string, sha: string)
  {
    sha in shas && sha in ci && b in ci[sha]
  }

  /** For every fresh bead, the SHAs among `shas` it shares, each once. */
  method CommitShares(ci: map<string, seq<string>>, shas: seq<string>, targetID: string, seen: set<string>)
    returns (shared: map<string, seq<string>>)
    ensures forall b :: b in shared <==> Fresh(b, targetID, seen) && exists sha :: Shares(ci, shas, b, sha)
    ensures forall b :: b in shared ==> NoDuplicates(shared[b]) && forall x :: x in shared[b] <==> Shares(ci, shas, b, x)
  {
    shared := map[];
    for i := 0 to |shas|
      invariant forall b :: b in shared <==> Fresh(b, targetID, seen) && exists sha :: Shares(ci, shas[..i], b, sha)
      invariant forall b :: b in shared ==> NoDuplicates(shared[b]) && forall x :: x in shared[b] <==> Shares(ci, shas[..i], b, x)
    {
      assert shas[..i + 1] == shas[..i] + [shas[i]];
      ghost var before := shared;
      if shas[i] in ci {
        shared := AddShare(shared, shas[i], ci[shas[i]], targetID, seen);
      }
      SharesStep(ci, shas[..i], shas[i], shas[..i + 1], targetID, seen, before, shared);
    }
    assert shas[..|shas|] == shas;
  }

  lemma SharesStep(ci: map<string, seq<string>>, prev: seq<string>, added: string, next: seq<string>,
                   targetID: string, seen: set<string>, before: map<string, seq<string>>, after: map<string, seq<string>>)
    requires next == prev + [added]
    requires forall b :: b in before <==> Fresh(b, targetID, seen) && exists s :: Shares(ci, prev, b, s)
    requires forall b :: b in before ==> forall x :: x in before[b] <==> Shares(ci, prev, b, x)
    requires added !in ci ==> after == before
    requires added in ci ==>
               (forall b :: b in after <==> b in before || (b in ci[added] && Fresh(b, targetID, seen))) &&
               (forall b :: b in after ==>
                  forall x :: x in after[b] <==> (b in before && x in before[b]) ||
                                                 (x == added && b in ci[added] && Fresh(b, targetID, seen)))
    ensures forall b :: b in after <==> Fresh(b, targetID, seen) && exists s :: Shares(ci, next, b, s)
    ensures forall b :: b in after ==> forall x :: x in after[b] <==> Shares(ci, next, b, x)
  {
    forall b, x ensures Shares(ci, next, b, x) <==> Shares(ci, prev, b, x) || (x == added && added in ci && b in ci[x]) {
      assert x in next <==> x in prev || x == added;
    }
    forall b ensures b in after <==> Fresh(b, targetID, seen) && exists s :: Shares(ci, next, b, s) {
      if b in before {
        var s :| Shares(ci, prev, b, s);
        assert Shares(ci, next, b, s);
      } else if b in after {
        assert Shares(ci, next, b, added);
      }
      if Fresh(b, targetID, seen) && exists s :: Shares(ci, next, b, s) {
        var s :| Shares(ci, next, b, s);
        if !Shares(ci, prev, b, s) {
          assert s == added && added in ci && b in ci[s];
        }
      }
    }
  }

  /** The target commits the commit index lists bead `b` for. */
  ghost function SharedSet(ci: map<string, seq<string>>, targetCommits: map<string, bool>, b: string): set<string>
  {
    set sha | sha in targetCommits && sha in ci && b in ci[sha]
  }

  /**
   * `findCommitOverlap`: nothing without target commits; otherwise every fresh bead listed in the
   * commit index for a target commit, with the share of target commits it is listed for, the best
   * `maxResults` of them.
   */
  method FindCommitOverlap(hs: map<string, BeadHistory>, ci: map<string, seq<string>>, targetID: string,
                           targetCommits: map<string, bool>, opts: RelatedWorkOptions, seen: set<string>)
    returns (results: seq<RelatedWorkBead>, ghost shared: map<string, seq<string>>)
    ensures |targetCommits| == 0 ==> results == []
    ensures forall b :: b in shared <==> Fresh(b, targetID, seen) && SharedSet(ci, targetCommits, b) != {}
    ensures forall b :: b in shared ==>
              (forall x :: x in shared[b] <==> x in SharedSet(ci, targetCommits, b)) &&
              |shared[b]| == |SharedSet(ci, targetCommits, b)|
    ensures forall r :: r in results ==> Fresh(r.beadID, targetID, seen) && r.relationType == CommitOverlap
    ensures Selected(results, shared.Keys, CommitMake(hs, opts, |targetCommits|, shared), opts.maxResults)
  {
    if |targetCommits| == 0 {
      results, shared := [], map[];
      return;
    }
    var shas := MapKeys(targetCommits);
    var counts := CommitShares(ci, shas, targetID, seen);
    shared := counts;
    forall b ensures b in counts <==> Fresh(b, targetID, seen) && SharedSet(ci, targetCommits, b) != {} {
      if b in counts {
        var sha :| Shares(ci, shas, b, sha);
        assert sha in SharedSet(ci, targetCommits, b);
      }
      if Fresh(b, targetID, seen) && SharedSet(ci, targetCommits, b) != {} {
        var sha :| sha in SharedSet(ci, targetCommits, b);
        assert Shares(ci, shas, b, sha);
      }
    }
    forall b | b in counts
      ensures (forall x :: x in counts[b] <==> x in SharedSet(ci, targetCommits, b)) &&
              |counts[b]| == |SharedSet(ci, targetCommits, b)|
    {
      NoDuplicatesCard(counts[b], SharedSet(ci, targetCommits, b));
    }
    var ids := MapKeys(counts);
    results := SelectCandidates(counts.Keys, ids, CommitMake(hs, opts, |targetCommits|, counts), opts.maxResults);
  }

  // ---------------------------------------------------------------- dependency cluster

  /** A dependency of the target, or a bead that depends on it; not yet seen either way. */
  ghost predicate FirstHop(g: map<string, seq<string>>, targetID: string, seen: set<string>, b: string)
  {
    b !in seen && ((targetID in g && b in g[targetID]) || (b in g && targetID in g[b]))
  }

  /** A dependency of a first-hop bead that is neither seen, the target, nor itself a first hop. */
  ghost predicate SecondHop(g: map<string, seq<string>>, targetID: string, seen: set<string>, b: string)
  {
    !FirstHop(g, targetID, seen, b) && b !in seen && b != targetID &&
    exists h :: FirstHop(g, targetID, seen, h) && h in g && b in g[h]
  }

  /** Whether `deps` names `id`, by a linear search. */
  method Mentions(deps: seq<string>, id: string) returns (found: bool)
    ensures found <==> id in deps
  {
    found := false;
    for j := 0 to |deps|
      invariant found <==> id in deps[..j]
    {
      assert deps[..j + 1] == deps[..j] + [deps[j]];
      if deps[j] == id {
        found := true;
      }
    }
    assert deps[..|deps|] == deps;
  }

  /** The target's own dependencies not yet seen, at one hop. */
  method DirectDeps(g: map<string, seq<string>>, targetID: string, seen: set<string>)
    returns (cluster: map<string, int>)
    ensures forall b :: b in cluster <==> b !in seen && targetID in g && b in g[targetID]
    ensures forall b :: b in cluster ==> cluster[b] == 1
  {
    cluster := map[];
    if targetID in g {
      var deps := g[targetID];
      for j := 0 to |deps|
        invariant forall b :: b in cluster <==> b !in seen && b in deps[..j]
        invariant forall b :: b in cluster ==> cluster[b] == 1
      {
        assert deps[..j + 1] == deps[..j] + [deps[j]];
        if deps[j] !in seen {
          cluster := cluster[deps[j] := 1];
        }
      }
      assert deps[..|deps|] == deps;
    }
  }

  /** Adds, at one hop, every bead of `ids` not yet seen that depends on the target. */
  method ReverseDeps(g: map<string, seq<string>>, ids: seq<string>, targetID: string, seen: set<string>,
                     cluster: map<string, int>)
    returns (cluster': map<string, int>)
    requires forall b :: b in ids ==> b in g
    requires forall b :: b in cluster ==> cluster[b] == 1
    ensures forall b :: b in cluster' <==> b in cluster || (b in ids && b !in seen && targetID in g[b])
    ensures forall b :: b in cluster' ==> cluster'[b] == 1
  {
    cluster' := cluster;
    for i := 0 to |ids|
      invariant forall b :: b in cluster' <==> b in cluster || (b in ids[..i] && b !in seen && targetID in g[b])
      invariant forall b :: b in cluster' ==> cluster'[b] == 1
    {
      assert ids[..i + 1] == ids[..i] + [ids[i]];
      var id := ids[i];
      if id !in seen {
        var dependsOnTarget := Mentions(g[id], targetID);
        if dependsOnTarget && id !in cluster' {
          cluster' := cluster'[id := 1];
        }
      }
    }
    assert ids[..|ids|] == ids;
  }

  /** Adds, at two hops, the dependencies in `deps` that are new, not seen and not the target. */
  method AddHop(deps: seq<string>, targetID: string, seen: set<string>, cluster: map<string, int>)
    returns (cluster': map<string, int>)
    ensures forall b :: b in cluster' <==> b in cluster || (b in deps && b !in seen && b != targetID)
    ensures forall b :: b in cluster' ==> cluster'[b] == (if b in cluster then cluster[b] else 2)
  {
    cluster' := cluster;
    for j := 0 to |deps|
      invariant forall b :: b in cluster' <==> b in cluster || (b in deps[..j] && b !in seen && b != targetID)
      invariant forall b :: b in cluster' ==> cluster'[b] == (if b in cluster then cluster[b] else 2)
    {
      assert deps[..j + 1] == deps[..j] + [deps[j]];
      var dep := deps[j];
      if dep !in seen && dep != targetID && dep !in cluster' {
        cluster' := cluster'[dep := 2];
      }
    }
    assert deps[..|deps|] == deps;
  }

  /** Whether some bead of `hops` lists `b` among its dependencies. */
  ghost predicate Reached(g: map<string, seq<string>>, hops: seq<string>, b: string)
  {
    exists h :: h in hops && h in g && b in g[h]
  }

  /** The dependencies of the first-hop beads, at two hops. */
  method SecondHops(g: map<string, seq<string>>, firstHop: seq<string>, targetID: string, seen: set<string>,
                    cluster: map<string, int>)
    returns (cluster': map<string, int>)
    ensures forall b :: b in cluster' <==> b in cluster || (b !in seen && b != targetID && Reached(g, firstHop, b))
    ensures forall b :: b in cluster' ==> cluster'[b] == (if b in cluster then cluster[b] else 2)
  {
    cluster' := cluster;
    for i := 0 to |firstHop|
      invariant forall b :: b in cluster' <==> b in cluster || (b !in seen && b != targetID && Reached(g, firstHop[..i], b))
      invariant forall b :: b in cluster' ==> cluster'[b] == (if b in cluster then cluster[b] else 2)
    {
      var hop := firstHop[i];
      if hop in g {
        cluster' := AddHop(g[hop], targetID, seen, cluster');
      }
      ReachedStep(g, firstHop[..i], hop, firstHop[..i + 1]);
    }
    assert firstHop[..|firstHop|] == firstHop;
  }

  lemma ReachedStep(g: map<string, seq<string>>, prev: seq<string>, hop: string, next: seq<string>)
    requires next == prev + [hop]
    ensures forall b :: Reached(g, next, b) <==> Reached(g, prev, b) || (hop in g && b in g[hop])
  {
    forall b ensures Reached(g, next, b) <==> Reached(g, prev, b) || (hop in g && b in g[hop]) {
      if Reached(g, next, b) {
        var h :| h in next && h in g && b in g[h];
        assert h in prev || h == hop;
      }
      if hop in g && b in g[hop] {
        assert hop in next;
      }
    }
  }

  /**
   * `findDependencyCluster`: nothing without a dependency graph; otherwise the beads within two
   * dependency hops of the target in either direction, not yet seen, the best `maxResults` of them.
   */
  method FindDependencyCluster(hs: map<string, BeadHistory>, targetID: string, opts: RelatedWorkOptions, seen: set<string>)
    returns (results: seq<RelatedWorkBead>, ghost cluster: map<string, int>)
    ensures opts.dependencyGraph.None? ==> results == []
    ensures opts.dependencyGraph.Some? ==>
              var g := opts.dependencyGraph.value;
              forall b :: (b in cluster <==> FirstHop(g, targetID, seen, b) || SecondHop(g, targetID, seen, b)) &&
                          (b in cluster ==> cluster[b] == if FirstHop(g, targetID, seen, b) then 1 else 2)
    ensures forall r :: r in results ==> r.beadID !in seen && r.relationType == DependencyCluster
    ensures Selected(results, cluster.Keys, ClusterMake(hs, opts, cluster), opts.maxResults)
  {
    if opts.dependencyGraph.None? {
      results, cluster := [], map[];
      return;
    }
    var g := opts.dependencyGraph.value;
    var c := DirectDeps(g, targetID, seen);
    var ids := MapKeys(g);
    c := ReverseDeps(g, ids, targetID, seen, c);
    assert forall b :: b in c <==> FirstHop(g, targetID, seen, b);
    var firstHop := MapKeys(c);
    ghost var first := c;
    c := SecondHops(g, firstHop, targetID, seen, c);
    forall b ensures Reached(g, firstHop, b) <==> exists h :: FirstHop(g, targetID, seen, h) && h in g && b in g[h] {
      if Reached(g, firstHop, b) {
        var h :| h in firstHop && h in g && b in g[h];
        assert h in first;
      }
    }
    cluster := c;
    var keys := MapKeys(c);
    results := SelectCandidates(c.Keys, keys, ClusterMake(hs, opts, c), opts.maxResults);
  }

  // ---------------------------------------------------------------- concurrency

  /**
   * `findConcurrent`, with the clock-based part given: `matches` holds, for each bead active in
   * the target's widened window, the relevance and reason that comparison produced (empty when the
   * target has no start time). Every known bead not yet seen is considered.
   */
  method FindConcurrent(hs: map<string, BeadHistory>, opts: RelatedWorkOptions, seen: set<string>,
                        matches: map<string, ConcurrentMatch>)
    returns (results: seq<RelatedWorkBead>)
    ensures forall r :: r in results ==> r.beadID !in seen && r.relationType == Concurrent
    ensures Selected(results, hs.Keys, ConcurrentMake(hs, opts, seen, matches), opts.maxResults)
  {
    var ids := MapKeys(hs);
    results := SelectCandidates(hs.Keys, ids, ConcurrentMake(hs, opts, seen, matches), opts.maxResults);
  }

  // ---------------------------------------------------------------- FindRelatedWork

  /** Whether one of the commit's files normalises to `p`. */
  ghost predicate TouchesPath(c: CorrelatedCommit, p: string)
  {
    exists fc :: fc in c.files && NormalizePath(fc.path) == p
  }

  method AddPaths(files: map<string, bool>, changes: seq<FileChange>) returns (files': map<string, bool>)
    ensures forall p :: p in files' <==> p in files || exists fc :: fc in changes && NormalizePath(fc.path) == p
  {
    files' := files;
    for j := 0 to |changes|
      invariant forall p :: p in files' <==> p in files || exists fc :: fc in changes[..j] && NormalizePath(fc.path) == p
    {
      assert changes[..j + 1] == changes[..j] + [changes[j]];
      files' := files'[NormalizePath(changes[j].path) := true];
    }
    assert changes[..|changes|] == changes;
  }

  /** The target's files (normalised) and commit SHAs. */
  method TargetSets(commits: seq<CorrelatedCommit>) returns (files: map<string, bool>, shas: map<string, bool>)
    ensures forall p :: p in files <==> exists c :: c in commits && TouchesPath(c, p)
    ensures forall sha :: sha in shas <==> exists c :: c in commits && c.sha == sha
  {
    files, shas := map[], map[];
    for i := 0 to |commits|
      invariant forall p :: p in files <==> exists c :: c in commits[..i] && TouchesPath(c, p)
      invariant forall sha :: sha in shas <==> exists c :: c in commits[..i] && c.sha == sha
    {
      assert commits[..i + 1] == commits[..i] + [commits[i]];
      shas := shas[commits[i].sha := true];
      ghost var before := files;
      files := AddPaths(files, commits[i].files);
      TouchStep(commits[..i], commits[i], commits[..i + 1], before, files);
    }
    assert commits[..|commits|] == commits;
  }

  lemma TouchStep(prev: seq<CorrelatedCommit>, c: CorrelatedCommit, next: seq<CorrelatedCommit>,
                  before: map<string, bool>, after: map<string, bool>)
    requires next == prev + [c]
    requires forall p :: p in before <==> exists d :: d in prev && TouchesPath(d, p)
    requires forall p :: p in after <==> p in before || exists fc :: fc in c.files && NormalizePath(fc.path) == p
    ensures forall p :: p in after <==> exists d :: d in next && TouchesPath(d, p)
  {
    forall p ensures p in after <==> exists d :: d in next && TouchesPath(d, p) {
      if p in after && p !in before {
        assert TouchesPath(c, p) && c in next;
      }
      if p in before {
        var d :| d in prev && TouchesPath(d, p);
        assert d in next;
      }
      if exists d :: d in next && TouchesPath(d, p) {
        var d :| d in next && TouchesPath(d, p);
        assert d in prev || d == c;
      }
    }
  }

  /** Marks the beads of `rs` as seen. */
  method MarkSeen(seen: set<string>, rs: seq<RelatedWorkBead>) returns (seen': set<string>)
    ensures forall x :: x in seen' <==> x in seen || x in BeadIDs(rs)
  {
    seen' := seen;
    for i := 0 to |rs|
      invariant forall x :: x in seen' <==> x in seen || x in BeadIDs(rs[..i])
    {
      assert BeadIDs(rs[..i + 1]) == BeadIDs(rs[..i]) + [rs[i].beadID];
      seen' := seen' + {rs[i].beadID};
    }
    assert rs[..|rs|] == rs;
  }

  /** No bead is in both lists. */
  predicate Disjoint(a: seq<RelatedWorkBead>, b: seq<RelatedWorkBead>)
  {
    forall x, y :: x in a && y in b ==> x.beadID != y.beadID
  }

  /** One category's list: distinct beads of that relation, in order, within the limit. */
  predicate WellFormedCategory(rs: seq<RelatedWorkBead>, t: RelationType, maxResults: int)
  {
    NoDuplicates(BeadIDs(rs)) && SortedBy(rs, RelatedLe()) && (maxResults > 0 ==> |rs| <= maxResults) &&
    forall r :: r in rs ==> r.relationType == t
  }

  lemma SelectedWellFormed(results: seq<RelatedWorkBead>, keys: set<string>,
                            make: string -> Option<RelatedWorkBead>, maxResults: int, t: RelationType)
    requires Selected(results, keys, make, maxResults)
    requires forall r :: r in results ==> r.relationType == t
    ensures WellFormedCategory(results, t, maxResults)
  {
  }

  /** The seen set once the beads of `rs` are added to it. */
  function SeenWith(seen: set<string>, rs: seq<RelatedWorkBead>): (r: set<string>)
    ensures forall x :: x in r <==> x in seen || x in BeadIDs(rs)
  {
    seen + set x | x in BeadIDs(rs)
  }

  /**
   * The file-overlap category found with lookup `fl`, skipping `seen`: every target file is
   * looked up once (`lookups`), each unseen bead a lookup reports gets the file once per report
   * (`overlap`), and the results are the candidates `FileMake` builds from that, selected.
   */
  ghost predicate FileStageOk(hs: map<string, BeadHistory>, targetFiles: map<string, bool>, fl: FileLookup,
                              opts: RelatedWorkOptions, seen: set<string>, results: seq<RelatedWorkBead>,
                              overlap: map<string, seq<string>>, lookups: seq<LookupResult>)
  {
    DistinctPaths(lookups) &&
    (forall l :: l in lookups ==> l.filePath in targetFiles && LookupOk(fl, l.filePath, l)) &&
    (forall f :: f in targetFiles ==> exists l :: l in lookups && l.filePath == f) &&
    (forall b :: b in overlap <==> b !in seen && exists l :: l in lookups && Hit(l, b, opts.includeClosed)) &&
    (forall b :: b in overlap ==> overlap[b] == SharedFiles(lookups, b, opts.includeClosed)) &&
    Selected(results, overlap.Keys, FileMake(hs, opts, |targetFiles|, overlap), opts.maxResults)
  }

  /**
   * The commit-overlap category, skipping the target and `seen`: every fresh bead sharing a
   * target commit, with the set of commits it shares, and the candidates `CommitMake` builds.
   */
  ghost predicate CommitStageOk(hr: HistoryReport, targetID: string, targetCommits: map<string, bool>,
                                opts: RelatedWorkOptions, seen: set<string>, results: seq<RelatedWorkBead>,
                                shared: map<string, seq<string>>)
  {
    (forall b :: b in shared <==> Fresh(b, targetID, seen) && SharedSet(hr.commitIndex, targetCommits, b) != {}) &&
    (forall b :: b in shared ==> |shared[b]| == |SharedSet(hr.commitIndex, targetCommits, b)| &&
                                 forall x :: x in shared[b] <==> x in SharedSet(hr.commitIndex, targetCommits, b)) &&
    Selected(results, shared.Keys, CommitMake(hr.histories, opts, |targetCommits|, shared), opts.maxResults)
  }

  /**
   * The dependency-cluster category, skipping `seen`: nothing without a dependency graph;
   * otherwise the first- and second-hop beads, at their distance, and the candidates
   * `ClusterMake` builds.
   */
  ghost predicate ClusterStageOk(hs: map<string, BeadHistory>, targetID: string, opts: RelatedWorkOptions,
                                 seen: set<string>, results: seq<RelatedWorkBead>, cluster: map<string, int>)
  {
    (opts.dependencyGraph.None? ==> results == []) &&
    (opts.dependencyGraph.Some? ==>
       var g := opts.dependencyGraph.value;
       (forall b :: (b in cluster <==> FirstHop(g, targetID, seen, b) || SecondHop(g, targetID, seen, b)) &&
                    (b in cluster ==> cluster[b] == if FirstHop(g, targetID, seen, b) then 1 else 2)) &&
       Selected(results, cluster.Keys, ClusterMake(hs, opts, cluster), opts.maxResults))
  }

  /** The file-overlap stage: its results, and the seen set with them added. */
  method FileOverlapStage(hs: map<string, BeadHistory>, targetFiles: map<string, bool>, fl: FileLookup,
                          opts: RelatedWorkOptions, seen: set<string>)
    returns (results: seq<RelatedWorkBead>, seen': set<string>,
             ghost overlap: map<string, seq<string>>, ghost lookups: seq<LookupResult>)
    ensures FileStageOk(hs, targetFiles, fl, opts, seen, results, overlap, lookups)
    ensures WellFormedCategory(results, FileOverlap, opts.maxResults)
    ensures forall r :: r in results ==> r.beadID !in seen
    ensures seen' == SeenWith(seen, results)
  {
    results, overlap, lookups := FindFileOverlap(hs, targetFiles, Some(fl), opts, seen);
    SelectedWellFormed(results, overlap.Keys, FileMake(hs, opts, |targetFiles|, overlap), opts.maxResults, FileOverlap);
    seen' := MarkSeen(seen, results);
  }

  method CommitOverlapStage(hr: HistoryReport, targetID: string, targetCommits: map<string, bool>,
                            opts: RelatedWorkOptions, seen: set<string>)
    returns (results: seq<RelatedWorkBead>, seen': set<string>, ghost shared: map<string, seq<string>>)
    ensures CommitStageOk(hr, targetID, targetCommits, opts, seen, results, shared)
    ensures WellFormedCategory(results, CommitOverlap, opts.maxResults)
    ensures forall r :: r in results ==> r.beadID !in seen
    ensures seen' == SeenWith(seen, results)
  {
    results, shared := FindCommitOverlap(hr.histories, hr.commitIndex, targetID, targetCommits, opts, seen);
    SelectedWellFormed(results, shared.Keys, CommitMake(hr.histories, opts, |targetCommits|, shared), opts.maxResults, CommitOverlap);
    seen' := MarkSeen(seen, results);
  }

  method DependencyStage(hs: map<string, BeadHistory>, targetID: string, opts: RelatedWorkOptions, seen: set<string>)
    returns (results: seq<RelatedWorkBead>, seen': set<string>, ghost cluster: map<string, int>)
    ensures ClusterStageOk(hs, targetID, opts, seen, results, cluster)
    ensures WellFormedCategory(results, DependencyCluster, opts.maxResults)
    ensures forall r :: r in results ==> r.beadID !in seen
    ensures seen' == SeenWith(seen, results)
  {
    if opts.dependencyGraph.None? {
      return [], seen, map[];
    }
    results, cluster := FindDependencyCluster(hs, targetID, opts, seen);
    SelectedWellFormed(results, cluster.Keys, ClusterMake(hs, opts, cluster), opts.maxResults, DependencyCluster);
    seen' := MarkSeen(seen, results);
  }

  method ConcurrentStage(hs: map<string, BeadHistory>, opts: RelatedWorkOptions, seen: set<string>,
                         matches: map<string, ConcurrentMatch>)
    returns (results: seq<RelatedWorkBead>)
    ensures Selected(results, hs.Keys, ConcurrentMake(hs, opts, seen, matches), opts.maxResults)
    ensures WellFormedCategory(results, Concurrent, opts.maxResults)
    ensures forall r :: r in results ==> r.beadID !in seen
  {
    results := FindConcurrent(hs, opts, seen, matches);
    SelectedWellFormed(results, hs.Keys, ConcurrentMake(hs, opts, seen, matches), opts.maxResults, Concurrent);
  }

  /** Each stage skips what the earlier ones reported, so no bead is in two categories. */
  lemma StagesApart(targetID: string, f: seq<RelatedWorkBead>, c: seq<RelatedWorkBead>, d: seq<RelatedWorkBead>,
                    x: seq<RelatedWorkBead>, seen1: set<string>, seen2: set<string>, seen3: set<string>)
    requires (forall r :: r in f ==> r.beadID != targetID) && seen1 == SeenWith({targetID}, f)
    requires (forall r :: r in c ==> r.beadID !in seen1) && seen2 == SeenWith(seen1, c)
    requires (forall r :: r in d ==> r.beadID !in seen2) && seen3 == SeenWith(seen2, d)
    requires forall r :: r in x ==> r.beadID !in seen3
    ensures targetID !in BeadIDs(f) && targetID !in BeadIDs(c) && targetID !in BeadIDs(d) && targetID !in BeadIDs(x)
    ensures Disjoint(f, c) && Disjoint(f, d) && Disjoint(f, x)
    ensures Disjoint(c, d) && Disjoint(c, x) && Disjoint(d, x)
  {
    forall r | r in f ensures r.beadID in seen1 {
      var i :| 0 <= i < |f| && f[i] == r;
      assert BeadIDs(f)[i] == r.beadID;
    }
    forall r | r in c ensures r.beadID in seen2 {
      var i :| 0 <= i < |c| && c[i] == r;
      assert BeadIDs(c)[i] == r.beadID;
    }
    forall r | r in d ensures r.beadID in seen3 {
      var i :| 0 <= i < |d| && d[i] == r;
      assert BeadIDs(d)[i] == r.beadID;
    }
  }

  /** What the four stages of one `FindRelatedWork` call worked from. */
  datatype RelatedEvidence = RelatedEvidence(fileLookup: FileLookup, indexedIDs: seq<string>,
                                             targetFiles: map<string, bool>, targetCommits: map<string, bool>,
                                             lookups: seq<LookupResult>, overlap: map<string, seq<string>>,
                                             shared: map<string, seq<string>>, cluster: map<string, int>)

  /** The lookup `NewFileLookup` builds from the report: its histories, and the index of their files. */
  ghost predicate BuiltFrom(fl: FileLookup, hr: HistoryReport, ids: seq<string>)
  {
    fl.beads == hr.histories &&
    NoDuplicates(ids) && (forall id :: id in ids <==> id in hr.histories) &&
    fl.index.fileToBeads.Keys == Fold(AllEvents(hr.histories, ids)).Keys &&
    AllListed(fl.index.fileToBeads, Fold(AllEvents(hr.histories, ids)))
  }

  /**
   * The categories of a `FindRelatedWork` result, as the four stages find them in turn: each
   * skips the target and every bead an earlier stage reported.
   */
  ghost predicate CategoriesOk(hr: HistoryReport, targetID: string, opts: RelatedWorkOptions,
                               matches: map<string, ConcurrentMatch>, r: RelatedWorkResult, ev: RelatedEvidence)
    requires targetID in hr.histories
  {
    var target := hr.histories[targetID];
    var seen1 := SeenWith({targetID}, r.fileOverlap);
    var seen2 := SeenWith(seen1, r.commitOverlap);
    var seen3 := SeenWith(seen2, r.dependencyCluster);
    (opts.fileLookup.Some? ==> ev.fileLookup == opts.fileLookup.value) &&
    (opts.fileLookup.None? ==> BuiltFrom(ev.fileLookup, hr, ev.indexedIDs)) &&
    (forall p :: p in ev.targetFiles <==> exists c :: c in target.commits && TouchesPath(c, p)) &&
    (forall sha :: sha in ev.targetCommits <==> exists c :: c in target.commits && c.sha == sha) &&
    FileStageOk(hr.histories, ev.targetFiles, ev.fileLookup, opts, {targetID}, r.fileOverlap, ev.overlap, ev.lookups) &&
    CommitStageOk(hr, targetID, ev.targetCommits, opts, seen1, r.commitOverlap, ev.shared) &&
    ClusterStageOk(hr.histories, targetID, opts, seen2, r.dependencyCluster, ev.cluster) &&
    Selected(r.concurrent, hr.histories.Keys, ConcurrentMake(hr.histories, opts, seen3, matches), opts.maxResults)
  }

  /**
   * `FindRelatedWork`: nothing for an unknown target; otherwise the four categories, found in
   * turn, each skipping the target and every bead an earlier category reported.
   */
  method FindRelatedWork(hr: HistoryReport, targetID: string, opts: RelatedWorkOptions,
                         matches: map<string, ConcurrentMatch>)
    returns (result: Option<RelatedWorkResult>, ghost ev: RelatedEvidence)
    ensures result.None? <==> targetID !in hr.histories
    ensures result.Some? ==> CategoriesOk(hr, targetID, opts, matches, result.value, ev)
    ensures result.Some? ==>
              var r := result.value;
              r.targetBeadID == targetID && r.targetTitle == hr.histories[targetID].title &&
              r.totalRelated == |r.fileOverlap| + |r.commitOverlap| + |r.dependencyCluster| + |r.concurrent| &&
              targetID !in BeadIDs(r.fileOverlap) && targetID !in BeadIDs(r.commitOverlap) &&
              targetID !in BeadIDs(r.dependencyCluster) && targetID !in BeadIDs(r.concurrent) &&
              Disjoint(r.fileOverlap, r.commitOverlap) && Disjoint(r.fileOverlap, r.dependencyCluster) &&
              Disjoint(r.fileOverlap, r.concurrent) && Disjoint(r.commitOverlap, r.dependencyCluster) &&
              Disjoint(r.commitOverlap, r.concurrent) && Disjoint(r.dependencyCluster, r.concurrent) &&
              WellFormedCategory(r.fileOverlap, FileOverlap, opts.maxResults) &&
              WellFormedCategory(r.commitOverlap, CommitOverlap, opts.maxResults) &&
              WellFormedCategory(r.dependencyCluster, DependencyCluster, opts.maxResults) &&
              WellFormedCategory(r.concurrent, Concurrent, opts.maxResults) &&
              (opts.dependencyGraph.None? ==> r.dependencyCluster == [])
  {
    if targetID !in hr.histories {
      ghost var none := FileLookup(FileBeadIndex(map[], FileIndexStats(0, 0, 0)), map[], CoChange.CoChangeMatrix(map[], map[], map[]));
      return None, RelatedEvidence(none, [], map[], map[], [], map[], map[], map[]);
    }
    var hs := hr.histories;
    var target := hs[targetID];
    var fl;
    ghost var ids: seq<string> := [];
    if opts.fileLookup.Some? {
      fl := opts.fileLookup.value;
    } else {
      ghost var cs;
      fl, ids, cs := NewFileLookup(Some(hr));
      assert BuiltFrom(fl, hr, ids);
    }
    assert opts.fileLookup.Some? ==> fl == opts.fileLookup.value;
    assert opts.fileLookup.None? ==> BuiltFrom(fl, hr, ids);
    var targetFiles, targetCommits := TargetSets(target.commits);
    var seen0 := {targetID};
    var fileOverlap, seen1, overlap, lookups := FileOverlapStage(hs, targetFiles, fl, opts, seen0);
    var commitOverlap, seen2, shared := CommitOverlapStage(hr, targetID, targetCommits, opts, seen1);
    var dependencyCluster, seen3, cluster := DependencyStage(hs, targetID, opts, seen2);
    var concurrent := ConcurrentStage(hs, opts, seen3, matches);

    StagesApart(targetID, fileOverlap, commitOverlap, dependencyCluster, concurrent, seen1, seen2, seen3);
    result := Some(RelatedWorkResult(targetID, target.title, fileOverlap, commitOverlap, dependencyCluster, concurrent,
                                     |fileOverlap| + |commitOverlap| + |dependencyCluster| + |concurrent|));
    ev := RelatedEvidence(fl, ids, targetFiles, targetCommits, lookups, overlap, shared, cluster);
  }
}
