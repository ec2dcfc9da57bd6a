# beads_viewer core, modelled in Dafny

beads_viewer (`bv`) is a terminal viewer and analysis tool for "beads", the issues of a
git-backed issue tracker. This project models the computational core of the program and
proves what that core promises:

- **Graph analysis** (Rust WebAssembly): the k most critical dependency chains
  (`k_paths.rs`: longest-path dynamic programme over a topological order, ranking,
  truncation and path rebuilding) and parallel-cut suggestions (`parallel_cut.rs`: which
  open issue, once done, unblocks the most work).
- **Execution planning** (`plan.go`): which issues each issue unblocks, the union-find that
  splits the blocking graph into independent tracks, the track identifiers `A`..`Z`, `AA`..,
  the tracks themselves and the plan summary.
- **Dependency graph** (`graph.go`): node numbering, edge construction, degrees and the
  critical-path heights; **approximate betweenness** (`betweenness_approx.go`): the
  recommended sample size, the partial Fisher-Yates sample and which branch is taken.
- **Bead/file correlation** (`file_index.go`): path normalisation, the file-to-bead index
  and its statistics, the file lookup (exact and directory), the hot-spot list and the
  co-change matrix; **related work** (`related.go`): file, commit, dependency and
  time-window relations between beads, their relevance, ranking and limits.
- **Configuration and triage**: drift thresholds (`drift/config.go`), triage proposals and
  branch diffs (`triage/branch.go`), workspace discovery from a routes file or a list of
  Dolt databases (`workspace/routes.go`, `workspace/dolt_discovery.go`).
- **Interface state**: the repository picker and the triage diff dialog as classes whose
  methods update fields in place, the heat-map and repository colours and badges, and the
  search score normalisers.
- **Export**: the pre/post-export hook runner, the Cloudflare Pages helpers (project name,
  `wrangler` output parsing, confirmation), the SQLite export's issue records, metric
  tallies and chunking, and the deployment wizard's answer handling.

Files, clocks, processes, the terminal and random draws are inputs or function parameters.
Whatever the Go or Rust code calls but is not part of this model (`IsBlocking`,
`filepath`, JSON decoding, `os.Expand`, the topological sort, the hook process) is a
parameter or an input specified only by what the code relies on; `Status.IsClosed` is
taken as the closed status itself.

Each Go or Rust source file maps to one Dafny module (`plan.dfy` and `plan_props.dfy`,
`kpaths.dfy` and `kpaths_props.dfy`, `parallel_cut.dfy` and `parallel_cut_props.dfy`,
`file_index.dfy` and `file_index_props.dfy` split the code from its properties;
`history.dfy`, `file_lookup.dfy` and `cochange.dfy` share `file_index.go`;
`related_text.dfy` holds the text helpers of `related.go`). `wrappers.dfy`, `sorting.dfy`,
`ranking.dfy`, `digraph.dfy` and `issues.dfy` hold the shared definitions: Option, ASCII
string helpers, a reference sort, the stable ranking used by the Rust code, the graph view
and the issue records.

Go's unstable `sort.Slice` and map iteration order are never given a fixed outcome: a loop
over a map takes the order of its keys as an input, and sorted outputs are specified as
sorted permutations.

## Model

| member | source | states |
|---|---|---|
| ExecutionPlan.ScanBlockers | pkg/analysis/plan.go:97-114 | the dependency scan of one issue: whether it has `x` as a `blocks` blocker and whether another existing open issue blocks it, stopping at the first such blocker |
| ExecutionPlan.ComputeUnblocks | pkg/analysis/plan.go:84-125 | the result is sorted, has no repeats, and holds exactly the open issues that `x` blocks and that no other existing open issue blocks |
| PlanProps.UnblocksMeansUnblockedAfterClosing | pkg/analysis/plan.go:84-125 | an open issue blocked by `x` is listed exactly when, once `x` is closed, none of its `blocks` dependencies points at an open issue |
| ExecutionPlan.InitSets | pkg/analysis/plan.go:150-153 | every issue ID becomes a singleton set of a valid union-find forest |
| ExecutionPlan.UnionDeps | pkg/analysis/plan.go:157-163 | after one issue's dependencies are processed, it shares a representative with every existing issue it has a `blocks` dependency on; earlier joins are kept |
| ExecutionPlan.UnionLinked | pkg/analysis/plan.go:155-164 | after the union pass, every two issues linked by a `blocks` dependency (either direction) share a representative |
| ExecutionPlan.GroupByRoot | pkg/analysis/plan.go:166-171 | every issue ID is listed once, under its own representative |
| ExecutionPlan.GroupedPartition | pkg/analysis/plan.go:166-173 | the grouping is a partition of the issue IDs, each component keyed by one of its members |
| ExecutionPlan.GroupedLinked | pkg/analysis/plan.go:155-173 | issues linked by a `blocks` dependency end up in the same component |
| ExecutionPlan.FindConnectedComponents | pkg/analysis/plan.go:128-174 | the components partition the issues, linked issues share a component, and the members of a component are joined by a chain of links |
| ExecutionPlan.GroupedChained | pkg/analysis/plan.go:166-171 | grouping by representatives whose sets are link-connected gives components whose members are all chained together |
| PlanProps.ComponentsAreConnectedClasses | pkg/analysis/plan.go:128-174 | two issues share a component exactly when a chain of links joins them |
| PlanProps.TracksAreConnectedClasses | pkg/analysis/plan.go:42-81 | two actionable issues of the plan sit in the same track exactly when a chain of links joins them |
| DisjointSets.SentinelFind | pkg/analysis/plan.go:133-141 | the Go `find` as written, reading a parent of "" as unset; it returns "" only for the ID "" |
| DisjointSets.EmptyRootDropsUnion | pkg/analysis/plan.go:131-147 | uniting "a" with "" as written leaves "a" and "" with different representatives |
| DisjointSets.UnionFind.constructor | pkg/analysis/plan.go:130 | an empty union-find forest |
| DisjointSets.UnionFind.MakeSet | pkg/analysis/plan.go:151-153 | a new element becomes its own representative; known elements keep theirs |
| DisjointSets.UnionFind.Find | pkg/analysis/plan.go:133-141 | returns the representative of `x`; the partition is unchanged by path compression |
| DisjointSets.UnionFind.Union | pkg/analysis/plan.go:143-148 | the new partition is the old one with the sets of `x` and `y` merged, and nothing else: `x` and `y` share a representative, sets already merged stay merged, no other sets join |
| DisjointSets.LinkRoots | pkg/analysis/plan.go:145-147 | hanging one representative under another keeps the forest valid and joins the two sets |
| DisjointSets.Compress | pkg/analysis/plan.go:137-139 | pointing an element straight at its representative keeps the forest valid |
| ExecutionPlan.GenerateTrackID | pkg/analysis/plan.go:282-297 | "track-?" for non-positive numbers, otherwise "track-" followed by the bijective base-26 numeral of `n - 1` |
| PlanProps.NumeralValue | pkg/analysis/plan.go:289-294 | the numeral of index `m` denotes `m + 1` in bijective base 26 |
| PlanProps.ValueNumeral | pkg/analysis/plan.go:289-294 | every non-empty string of capital letters is the numeral of exactly one index |
| PlanProps.TrackIDUnknown | pkg/analysis/plan.go:285-287 | only non-positive track numbers give "track-?" |
| PlanProps.TrackIDInjective | pkg/analysis/plan.go:282-297 | distinct positive track numbers give distinct identifiers |
| PlanProps.TrackIDOnto | pkg/analysis/plan.go:282-297 | every "track-" followed by capital letters is the identifier of some positive track number |
| PlanProps.TrackIDOneLetter | pkg/analysis/plan.go:282-297 | tracks 1 to 26 are "track-A" to "track-Z" |
| PlanProps.TrackIDTwoLetters | pkg/analysis/plan.go:282-297 | track 27 is "track-AA" and track 52 is "track-AZ" |
| PlanProps.TrackIDThreeLetters | pkg/analysis/plan.go:282-297 | track 703 is "track-AAA" |
| ExecutionPlan.ActionableMembers | pkg/analysis/plan.go:191-197 | the issues of the actionable members, once per occurrence, in member order |
| ExecutionPlan.MakeItems | pkg/analysis/plan.go:211-221 | one plan item per issue, fields copied and the unblocks list taken from the map |
| ExecutionPlan.SortedItemsOk | pkg/analysis/plan.go:203-221 | sorting by priority then ID and copying gives the items of a track |
| ExecutionPlan.MakeTrack | pkg/analysis/plan.go:203-235 | a track's items are its actionable members ordered by priority then ID, and its reason follows the member and component counts |
| ExecutionPlan.SortedKeys | pkg/analysis/plan.go:181-186 | the component roots in strictly increasing order, exactly the map's keys |
| ExecutionPlan.ComponentTrack | pkg/analysis/plan.go:188-236 | a component yields a track exactly when it has an actionable member |
| ExecutionPlan.BuildTracks | pkg/analysis/plan.go:177-240 | one track per component with an actionable member, in sorted root order, numbered consecutively from 1 |
| PlanProps.TrackIDsDistinct | pkg/analysis/plan.go:231-236 | every track is numbered by its position and their identifiers are pairwise distinct |
| PlanProps.TrackItemsActionable | pkg/analysis/plan.go:191-201 | no track is empty and each item is an actionable issue of the track's component |
| PlanProps.TracksDisjoint | pkg/analysis/plan.go:177-240 | an issue sits in at most one track |
| PlanProps.TracksCover | pkg/analysis/plan.go:177-240 | every actionable issue appears in some track |
| ExecutionPlan.MaxOfSorted | pkg/analysis/plan.go:251-266 | the first entry of maximal count in the ID-sorted copy is the smallest-ID maximum of the original |
| ExecutionPlan.ComputePlanSummary | pkg/analysis/plan.go:243-280 | the zero summary when nothing is actionable; otherwise the actionable issue that unblocks the most, the smallest ID among equals, with the reason following the count |
| PlanProps.SummaryUnique | pkg/analysis/plan.go:243-280 | the summary's specification determines it: two summaries meeting it are equal |
| ExecutionPlan.CountOpen | pkg/analysis/plan.go:65-70 | the number of issues that are not closed |
| ExecutionPlan.ActionableSet | pkg/analysis/plan.go:46-49 | the set of actionable IDs |
| ExecutionPlan.UnblocksMap | pkg/analysis/plan.go:52-55 | the unblocks list of every actionable issue, keyed by its ID |
| ExecutionPlan.GetExecutionPlan | pkg/analysis/plan.go:42-81 | the tracks (one per component holding an actionable issue, in root order), the totals (blocked = open minus actionable) and the summary, each meeting its own specification, over components that are the link-connected classes |
| DiGraph.PredecessorEarlier | bv-graph-wasm/src/algorithms/k_paths.rs:73-81 | in a topological order every predecessor of a node sits earlier, so it is final when the node is relaxed |
| DiGraph.NoSelfLoop | bv-graph-wasm/src/algorithms/k_paths.rs:56-66 | a graph with a topological order has no self-loop |
| KPaths.Relax | bv-graph-wasm/src/algorithms/k_paths.rs:75-80 | after scanning its predecessors in slice order, the node is one edge past each of them and keeps as `pred` the first predecessor realising its distance; other nodes are untouched |
| KPaths.LongestPaths | bv-graph-wasm/src/algorithms/k_paths.rs:68-81 | the table satisfies the longest-path recurrence at every node |
| KPaths.PathBound | bv-graph-wasm/src/algorithms/k_paths.rs:68-81 | every path ending at `v` has at most `dist[v]` edges |
| KPaths.ChainIsPath | bv-graph-wasm/src/algorithms/k_paths.rs:99-105 | walking `pred` back from `v` gives a path of the graph that starts at a node without `pred` and has `dist[v] + 1` nodes |
| KPaths.ChainIsLongest | bv-graph-wasm/src/algorithms/k_paths.rs:99-105 | the rebuilt chain is a longest path into `v` |
| KPaths.RebuildPath | bv-graph-wasm/src/algorithms/k_paths.rs:98-110 | the push-then-reverse loop yields exactly the chain of `pred` links into the sink |
| KPaths.Candidates | bv-graph-wasm/src/algorithms/k_paths.rs:85 | one `(v, dist[v])` per node, in node order |
| Ranking.SortDescRanked | bv-graph-wasm/src/algorithms/k_paths.rs:87-88 | the stable sort by distance, largest first, is a permutation with larger keys first and equal keys in ascending node order |
| Ranking.TakeFilterCommute | bv-graph-wasm/src/algorithms/k_paths.rs:89-97 | on a list sorted by key, truncating to k and then dropping the non-positive keys equals dropping them first and truncating afterwards |
| KPaths.RankedCandidates | bv-graph-wasm/src/algorithms/k_paths.rs:85-88 | the sorted candidates are ranked and hold every node once |
| KPaths.RebuildAll | bv-graph-wasm/src/algorithms/k_paths.rs:95-111 | one path per sink, in sink order, each the chain of `pred` links into it |
| KPaths.KPathsOf | bv-graph-wasm/src/algorithms/k_paths.rs:83-117 | for a sorted graph, `total_nodes = n`, at most k paths, each with `length` equal to its number of nodes, and for k = 0 no paths and `max_length = 0` |
| KPaths.KCriticalPaths | bv-graph-wasm/src/algorithms/k_paths.rs:45-118 | an empty graph gives the empty result; a failed topological sort gives no paths, `total_nodes = n`, `max_length = 0`; otherwise the result the longest-path table determines |
| KPaths.KCriticalPathsDefault | bv-graph-wasm/src/algorithms/k_paths.rs:121-123 | the result for k = 5 |
| KPaths.KPathNodes | bv-graph-wasm/src/algorithms/k_paths.rs:126-132 | the node sequences of the paths of the result, in order |
| KPathsProperties.TopKRanked | bv-graph-wasm/src/algorithms/k_paths.rs:85-89 | the kept candidates are ranked, at most k of them, distinct nodes |
| KPathsProperties.TruncateBeforeFilter | bv-graph-wasm/src/algorithms/k_paths.rs:89-97 | cutting to k before dropping distance-0 nodes selects the same sinks as dropping them first |
| KPathsProperties.KPathsAreLongestPaths | bv-graph-wasm/src/algorithms/k_paths.rs:95-117 | every returned path is a graph path ending at its own sink, with `length == nodes.len() == dist[sink] + 1 >= 2`, and a longest path into that sink; at most k paths; `total_nodes = n` |
| KPathsProperties.KPathsOrdered | bv-graph-wasm/src/algorithms/k_paths.rs:41 | paths come out in non-increasing length, equal lengths in ascending order of their end node |
| KPathsProperties.MaxLengthIsLongestPath | bv-graph-wasm/src/algorithms/k_paths.rs:91-92 | for k >= 1, `max_length` is the number of nodes on a longest path of the whole graph; for k = 0 it is 0 and there are no paths |
| KPathsProperties.SingleEdgeExample | bv-graph-wasm/src/algorithms/k_paths.rs:172-180 | the single edge 0 -> 1 gives one path [0, 1] of length 2 and `max_length` 2 |
| ParallelCut.UnblockCounts | bv-graph-wasm/src/algorithms/parallel_cut.rs:67-91 | one `(v, new_actionable(v))` per open node, in node order, where `new_actionable` counts the open successors whose only open predecessor is `v` |
| ParallelCut.Gains | bv-graph-wasm/src/algorithms/parallel_cut.rs:67-93 | the open nodes whose gain `new_actionable - 1` is positive, with that gain, in node order |
| ParallelCut.GainsComplete | bv-graph-wasm/src/algorithms/parallel_cut.rs:92 | every open node with positive gain is listed |
| ParallelCut.ToItems | bv-graph-wasm/src/algorithms/parallel_cut.rs:86-90 | one item per scored node with `parallel_gain = new_actionable - 1` |
| ParallelCut.ParallelCutSuggestions | bv-graph-wasm/src/algorithms/parallel_cut.rs:43-104 | at most `limit` items, each an open node with its `new_actionable` count and a positive `parallel_gain = new_actionable - 1`; `open_nodes` and `current_actionable` are the counts of open and of actionable nodes |
| ParallelCut.ParallelCutDefault | bv-graph-wasm/src/algorithms/parallel_cut.rs:106-109 | the suggestions for limit 10, so at most 10 items |
| ParallelCut.UnblockRanking | bv-graph-wasm/src/algorithms/parallel_cut.rs:113-138 | at most `limit` entries, ranked by count (largest first, ties by ascending node), each an open node with its `new_actionable` count, gains of zero or less included |
| ParallelCutProperties.ItemsAreTopGains | bv-graph-wasm/src/algorithms/parallel_cut.rs:43-104 | every item is an open node with its `new_actionable` count and `parallel_gain = new_actionable - 1 > 0`; items are ordered by gain, largest first, ties by ascending node; at most `limit` of them, and any omitted positive-gain node ranks behind all of them |
| ParallelCutProperties.UnblockCountsLength | bv-graph-wasm/src/algorithms/parallel_cut.rs:61-64 | `open_nodes` equals the number of scored open nodes |
| ParallelCutProperties.ActionableAtMostOpen | bv-graph-wasm/src/algorithms/parallel_cut.rs:50-64 | `current_actionable <= open_nodes` |
| ParallelCutProperties.EmptyClosedAllOpen | bv-graph-wasm/src/algorithms/parallel_cut.rs:53 | with an empty completion array every node counts as open |
| ParallelCutProperties.UnblockRankingSpec | bv-graph-wasm/src/algorithms/parallel_cut.rs:113-138 | the ranking lists open nodes only, each once with its count, in non-increasing count order (ties by ascending node), `min(limit, open_nodes)` entries, with no gain filter; an open node left out ranks behind every listed one, so the list is the top of the ranking |
| ParallelCutProperties.ItemsAgreeWithUnblockCounts | bv-graph-wasm/src/algorithms/parallel_cut.rs:111-112 | every suggested item appears among the unblock counts with the same count |
| ParallelCutProperties.ForkExample | bv-graph-wasm/src/algorithms/parallel_cut.rs:195-206 | through the default limit of 10, the fork 0 -> {1, 2, 3}, all open, yields one item: node 0, gain 2, `new_actionable` 3 |
| ParallelCutProperties.ForkActionable | bv-graph-wasm/src/algorithms/parallel_cut.rs:271-280 | in the fork only the root is actionable and all four nodes are open |
| DependencyGraph.IDIndexLast | pkg/analysis/graph.go:45-51 | the node an ID maps to is the last position of that ID in the input |
| DependencyGraph.NodeIDsAll | pkg/analysis/graph.go:50 | node `i` carries the ID of the `i`-th issue |
| DependencyGraph.IssueMapLast | pkg/analysis/graph.go:46 | the issue an ID maps to is its last occurrence in the input |
| DependencyGraph.TablesOfIssues | pkg/analysis/graph.go:44-51 | the node tables are determined by the issues |
| DependencyGraph.AddNodes | pkg/analysis/graph.go:44-51 | nodes are numbered in input order and the ID, node and issue tables are filled as stated |
| DependencyGraph.AddIssueEdges | pkg/analysis/graph.go:73-81 | one issue's dependencies on issues of the graph are added as edges, and nothing else |
| DependencyGraph.EdgesMembership | pkg/analysis/graph.go:67-82 | every edge comes from a dependency of some issue on an issue of the graph, and every such dependency gives one |
| DependencyGraph.NewAnalyzer | pkg/analysis/graph.go:37-90 | nothing exactly when an issue depends on itself (gonum's `SetEdge` panics on a self loop); otherwise one node per issue, and an edge `u -> v` for each dependency of `u` on an issue `v` of the graph |
| DependencyGraph.EdgesWellFormed | pkg/analysis/graph.go:79 | the edges join existing nodes and never a node to itself |
| DependencyGraph.Degrees | pkg/analysis/graph.go:113-122 | each ID's in-degree and out-degree are those of a node carrying that ID |
| DependencyGraph.DegreesOfUniqueIDs | pkg/analysis/graph.go:113-122 | with unique IDs, each issue's degrees are those of its own node |
| DependencyGraph.ExecutionOrder | pkg/analysis/graph.go:162-178 | the topological order's IDs, last first |
| DependencyGraph.PrerequisitesFirst | pkg/analysis/graph.go:162-178 | in the execution order an issue comes after every issue it depends on |
| DependencyGraph.MaxParentHeight | pkg/analysis/graph.go:215-228 | the largest height already computed among the given nodes, or 0 |
| DependencyGraph.ComputeHeights | pkg/analysis/graph.go:200-231 | every node's height is 1 plus the largest height among the nodes with an edge into it (1 if none) |
| DependencyGraph.HeightScores | pkg/analysis/graph.go:229-230 | heights keyed by issue ID, the node visited last winning for a repeated ID |
| DependencyGraph.CriticalPathScore | pkg/analysis/graph.go:180-188 | empty when the topological sort reports a cycle, otherwise each node's height keyed by its ID |
| DependencyGraph.ChainBound | pkg/analysis/graph.go:183 | no chain of dependents ending at a node is longer than its height |
| DependencyGraph.ChainAttained | pkg/analysis/graph.go:183 | some chain of dependents ending at a node is exactly as long as its height |
| DependencyGraph.HeightsUnique | pkg/analysis/graph.go:200-234 | the heights do not depend on which topological order was followed |
| Betweenness.RecommendSampleSize | pkg/analysis/betweenness_approx.go:215-235 | below 100 nodes the node count itself; from 100 nodes on, between 50 and 200 |
| Betweenness.RecommendedWithinGraph | pkg/analysis/betweenness_approx.go:215-235 | the recommendation never exceeds a non-negative node count, and equals it exactly below 100 nodes |
| Betweenness.RecommendedBands | pkg/analysis/betweenness_approx.go:215-235 | the values at the band edges |
| Betweenness.ShuffledPermutes | pkg/analysis/betweenness_approx.go:129-132 | the Fisher-Yates swaps only permute the copy |
| Betweenness.ShuffledPrefixStable | pkg/analysis/betweenness_approx.go:129-132 | after step `k` the first `k` entries are never moved again |
| Betweenness.SampleNodes | pkg/analysis/betweenness_approx.go:118-135 | the input itself when `k` covers it, otherwise the first `k` entries of a copy shuffled by `k` swaps; the caller's array is left untouched |
| Betweenness.SampleIsSubMultiset | pkg/analysis/betweenness_approx.go:118-135 | a sample is exactly `k` of the input's entries, none taken twice |
| Betweenness.SampleDistinct | pkg/analysis/betweenness_approx.go:118-135 | sampling distinct nodes gives distinct pivots, each one of the nodes |
| Betweenness.ApproxBetweenness | pkg/analysis/betweenness_approx.go:66-114 | no result exactly when the graph is not empty and the sample size is negative (the Go slice `nodes[:sampleSize]` panics); an empty result for an empty graph; the exact mode with `SampleSize = n` when the sample covers the graph; otherwise `sampleSize` distinct pivots from the ID-sorted nodes, approximate mode |
| History.ForwardSlashes | pkg/correlation/file_index.go:742 | the converted path has the same length and holds no backslash |
| History.ForwardSlashesAt | pkg/correlation/file_index.go:742 | position by position, a backslash becomes a forward slash and every other character stays |
| History.NormalizeShape | pkg/correlation/file_index.go:740-751 | the normalised path is the slash-converted path with at most one leading "./" and at most one trailing "/" cut off |
| History.NormalizePath | pkg/correlation/file_index.go:740-751 | a normalised path holds no backslash |
| History.NormalizeExamples | pkg/correlation/file_index.go:740-751 | "./" normalises to the empty path, "a/" to "a", ".\a\b" to "a/b" |
| History.NormalizeStatus | pkg/correlation/file_index.go:754 | the compared status holds no upper-case letter |
| History.ClassifyBeadStatus | pkg/correlation/file_index.go:753-763 | skipped exactly for "tombstone" and closed exactly for "closed", in any case and with surrounding blanks; open otherwise |
| History.ClassifyExamples | pkg/correlation/file_index.go:753-763 | one example per bucket: "tombstone" is skipped, "closed" is closed, and " Open " (blanks and capitals) is open |
| FileIndex.ContainsSHA | pkg/correlation/file_index.go:88-94 | found exactly when the SHA is already listed |
| FileIndex.RecordChange | pkg/correlation/file_index.go:69-105 | one file change applied to the file/bead table: the reference created on first touch, the SHA added once, the later time kept, the changes added |
| FileIndex.WalkFiles | pkg/correlation/file_index.go:67-106 | the table after a commit's file changes is the fold of that commit's events |
| FileIndex.WalkCommits | pkg/correlation/file_index.go:66-107 | the table after a bead's commits is the fold of that bead's events |
| FileIndex.BuildFileBeadMap | pkg/correlation/file_index.go:63-108 | the table after every bead, visited in map order, is the fold of all events |
| FileIndex.FoldAppend | pkg/correlation/file_index.go:65-108 | walking two runs of events one after the other is walking their concatenation |
| FileIndex.CollectRefs | pkg/correlation/file_index.go:119-127 | a file's list holds each of its bead references exactly once, most recent first |
| FileIndex.ConvertFile | pkg/correlation/file_index.go:119-133 | one more file listed, the link and multi-bead counters advanced by its list |
| FileIndex.ConvertFiles | pkg/correlation/file_index.go:118-134 | every visited file listed from the table, the counters equal to the totals over the lists whatever the visiting order |
| FileIndex.ConvertIndex | pkg/correlation/file_index.go:111-140 | the index lists exactly the table's files, and its statistics are the file count, the total of list lengths and the count of lists longer than one |
| FileIndex.BuildFileIndex | pkg/correlation/file_index.go:55-143 | the empty index for a missing report; otherwise the conversion of the table built by the walk |
| FileIndex.TallyRemove | pkg/correlation/file_index.go:118-134 | the per-file totals do not depend on which file is counted first |
| FileIndexProps.FoldProject | pkg/correlation/file_index.go:65-108 | the table holds an entry for a file/bead pair exactly when some event concerns the pair, and that entry depends only on the pair's own events |
| FileIndexProps.FoldFiles | pkg/correlation/file_index.go:65-108 | a file is in the table exactly when some event concerns it |
| FileIndexProps.RefFoldSummarises | pkg/correlation/file_index.go:75-105 | a reference lists each commit SHA once, keeps the latest commit time and adds up all line changes |
| FileIndexProps.ProjectAllEvents | pkg/correlation/file_index.go:65-108 | a bead's entries depend only on its own history, not on the order the map visits the other beads |
| FileIndexProps.IndexedRef | pkg/correlation/file_index.go:55-108 | a bead has a reference for a file exactly when one of its commits touches the file, and the reference records exactly those commits, their latest time and their line changes |
| FileIndexProps.IndexedFile | pkg/correlation/file_index.go:55-108 | a file is indexed exactly when some bead's commit touches it |
| FileIndexProps.LinksBound | pkg/correlation/file_index.go:130-133 | with no empty list, the links are at least the files plus the multi-bead files, and the multi-bead files at most the files |
| FileIndexProps.StatsBounds | pkg/correlation/file_index.go:136-140 | in a built index the multi-bead files never exceed the files, and the links are at least their sum |
| FileLookup.NewFileLookup | pkg/correlation/file_index.go:146-159 | empty index, histories and co-change matrix without a report; otherwise the index and the matrix built from the same report and its histories as the current bead states |
| FileLookup.Refresh | pkg/correlation/file_index.go:176-181 | a reference takes its bead's current title and status when the bead is known, everything else kept |
| FileLookup.BucketedFrom | pkg/correlation/file_index.go:174-191 | every bucketed reference is a refreshed reference of the file whose current status falls in that bucket |
| FileLookup.BucketedHas | pkg/correlation/file_index.go:174-191 | every reference of the file whose current status falls in a bucket appears, refreshed, in it |
| FileLookup.SortBeadRefsSorted | pkg/correlation/file_index.go:765-772 | the sort is a permutation ordered most recent first, equal times by ascending bead ID |
| FileLookup.RefLeStrict | pkg/correlation/file_index.go:767-770 | references of distinct beads are never tied |
| FileLookup.ContainsBeadRef | pkg/correlation/file_index.go:775-782 | true exactly when some reference of the list is for the bead |
| FileLookup.LookupExact | pkg/correlation/file_index.go:173-196 | the file's references, refreshed, split into open and closed with tombstones dropped, each bucket sorted, the total their sum |
| FileLookup.AddUnique | pkg/correlation/file_index.go:218-226 | a reference joins its bucket unless its bead is already there |
| FileLookup.DirFile | pkg/correlation/file_index.go:203-227 | after one file under the directory both buckets stay sound and repeat-free and cover that file's beads |
| FileLookup.LookupDir | pkg/correlation/file_index.go:201-229 | the buckets hold only references of files under the directory, no bead twice, and cover every bead of every such file |
| FileLookup.SortedBucket | pkg/correlation/file_index.go:231-232 | sorting a directory bucket keeps it sound, repeat-free and covering |
| FileLookup.LookupByFile | pkg/correlation/file_index.go:163-235 | an exact match lists the file's refreshed references by bucket; otherwise the buckets gather, once per bead, the references of every file under the path as a directory; both sorted, the total their sum |
| FileLookup.GetAllFiles | pkg/correlation/file_index.go:289-296 | every indexed path exactly once, in ascending order |
| FileLookup.CountOpenExtremes | pkg/correlation/file_index.go:347-357 | no open reference exactly when every current status is "closed", all open exactly when none is |
| FileLookup.CountOpenRefs | pkg/correlation/file_index.go:347-357 | the number of references whose current status is other than exactly "closed" |
| FileLookup.CollectCounts | pkg/correlation/file_index.go:323-330 | one entry per indexed file, carrying its own count and references |
| FileLookup.SortCounts | pkg/correlation/file_index.go:333-335 | the entries reordered by descending count, each file still present once |
| FileLookup.Hotspot | pkg/correlation/file_index.go:344-364 | a file's bead count split into open and closed by current status |
| FileLookup.TakeHotspots | pkg/correlation/file_index.go:342-365 | the hot-spot entries of the first `n` sorted files, in order |
| FileLookup.TopN | pkg/correlation/file_index.go:337-343 | a file left out of the top entries counts no more beads than any listed one |
| FileLookup.GetHotspots | pkg/correlation/file_index.go:316-368 | `limit` entries (all files when it is not positive or too large), distinct files, most beads first, no left-out file counting more than a listed one |
| CoChange.CommitPaths | pkg/correlation/file_index.go:431-437 | the kept paths are never empty and no more than the commit's files |
| CoChange.NormalizeFiles | pkg/correlation/file_index.go:431-437 | the commit's normalised non-empty paths in order |
| CoChange.CountFiles | pkg/correlation/file_index.go:443-445 | each file's commit count grows by its occurrences in the commit |
| CoChange.AddRow | pkg/correlation/file_index.go:449-458 | row `i` adds, for the file at `i`, one per other position of each file, and stored counts stay positive |
| CoChange.AddPairs | pkg/correlation/file_index.go:448-459 | each pair count grows by the number of ordered pairs of distinct positions holding the two files |
| CoChange.PairCountClosedForm | pkg/correlation/file_index.go:448-459 | that number is the product of the two files' occurrences, less the diagonal when the files are the same |
| CoChange.AddCommit | pkg/correlation/file_index.go:431-459 | processing a commit keeps the matrix an exact summary of the processed commits |
| CoChange.Visit | pkg/correlation/file_index.go:425-428 | a commit whose SHA was seen is skipped; otherwise it is processed and its SHA recorded |
| CoChange.WalkHistory | pkg/correlation/file_index.go:424-460 | after one bead history every SHA of it has been seen, and the walk's bookkeeping holds |
| CoChange.BuildCoChangeMatrix | pkg/correlation/file_index.go:408-464 | an empty matrix without a report; otherwise every commit SHA of the report is processed exactly once and the matrix counts exactly what the processed commits say |
| CoChange.MatrixSymmetric | pkg/correlation/file_index.go:448-459 | co-change counts are symmetric |
| CoChange.NoEmptyPath | pkg/correlation/file_index.go:434 | the empty path is never counted nor paired |
| RelatedText.DigitsRoundTrip | pkg/correlation/related.go:568-571 | the digit loop's output reads back as the number it was given |
| RelatedText.DecimalRoundTrip | pkg/correlation/related.go:558-576 | the decimal text of any integer is well formed and parses back to that integer |
| RelatedText.DecimalShape | pkg/correlation/related.go:558-576 | a leading minus exactly for negatives, "0" only for zero, no leading zero otherwise |
| RelatedText.FormatIntRelated | pkg/correlation/related.go:558-576 | the digit loop over unbounded integers yields the decimal text of `n` |
| RelatedText.FormatIntRelated64 | pkg/correlation/related.go:558-576 | on 64-bit integers the text is the decimal text of `n` for every `n` except the most negative one |
| RelatedText.MinInt64FormatsAsDash | pkg/correlation/related.go:564-574 | for the most negative 64-bit integer the negation overflows, the loop never runs and the text is "-" |
| RelatedText.FormatPluralRelated | pkg/correlation/related.go:544-549 | "1 " and the singular for one, otherwise the decimal count and the plural |
| RelatedText.FormatPctRelated | pkg/correlation/related.go:551-556 | empty exactly for a non-positive percentage, otherwise the percentage in parentheses |
| RelatedText.FormatFileOverlapReason | pkg/correlation/related.go:520-526 | "1 shared file" for one file, otherwise the count, "shared files" and the truncated percentage |
| RelatedText.FormatCommitOverlapReason | pkg/correlation/related.go:528-534 | "1 shared commit" for one commit, otherwise the count, "shared commits" and the truncated percentage |
| RelatedText.GoDiv | pkg/correlation/related.go:521 | integer division truncating toward zero, agreeing with floor division on non-negative operands |
| RelatedText.LimitStrings | pkg/correlation/related.go:578-583 | the first `max` strings, or all when there are fewer |
| RelatedText.ShortSHA | pkg/correlation/related.go:588-592 | the first seven characters of a SHA, or all of a shorter one |
| RelatedText.ShortenSHAs | pkg/correlation/related.go:585-595 | every SHA shortened, position by position |
| RelatedText.ShortenedSorted | pkg/correlation/related.go:263-272 | shortening sorted SHAs keeps them sorted |
| RelatedText.ShouldSkipRelatedStatus | pkg/correlation/related.go:496-505 | skipped exactly for tombstones, and for closed beads unless closed ones are included |
| RelatedText.IncludeClosedSkipsLess | pkg/correlation/related.go:496-505 | including closed beads never skips more |
| Related.DefaultRelatedWorkOptions | pkg/correlation/related.go:59-66 | relevance at least 20, at most 10 results, a one-week window, closed beads left out |
| Related.SortedDistinct | pkg/correlation/related.go:507-514 | sorting the candidates keeps exactly them, by descending relevance then bead ID |
| Related.RelatedLeStrict | pkg/correlation/related.go:509-512 | candidates for distinct beads are never tied |
| Related.Truncate | pkg/correlation/related.go:209-211 | the first `maxResults` results when that is positive, all otherwise |
| Related.TruncateKeepsBest | pkg/correlation/related.go:205-211 | a candidate cut off ranks no higher than every kept result, and the cut happens only at a full `maxResults` |
| Related.CollectCandidates | pkg/correlation/related.go:171-203 | the candidates built for the beads, in visiting order |
| Related.MadeMembers | pkg/correlation/related.go:171-203 | a bead yields a candidate exactly when its test accepts it, and no bead twice |
| Related.SelectCandidates | pkg/correlation/related.go:171-211 | every result is an accepted candidate; a missing candidate ranks no higher than a full list of results; distinct, sorted, no more than `maxResults` |
| Related.Relevance | pkg/correlation/related.go:183-186 | the truncated percentage of shared over total, capped at 100, and 100 exactly when shared reaches total |
| Related.RelevanceMonotone | pkg/correlation/related.go:183-186 | more shared items never lower the relevance |
| Related.FirstFiveSpec | pkg/correlation/related.go:192-201 | the listed shared files are the five smallest, sorted |
| Related.ShownCommitsSpec | pkg/correlation/related.go:263-272 | the listed shared commits are up to five sorted short SHAs of shared commits |
| Related.FileCandidateSpec | pkg/correlation/related.go:171-203 | a bead with shared files is a candidate exactly when it has a history, is not skipped and reaches the minimum relevance; the candidate's fields as stated |
| Related.CommitCandidateSpec | pkg/correlation/related.go:242-274 | the same for shared commits |
| Related.ClusterCandidateSpec | pkg/correlation/related.go:340-371 | a cluster bead is a candidate when it has a history, is not skipped and its relevance (80 direct, 40 at two hops) reaches the minimum |
| Related.AddRefs | pkg/correlation/related.go:151-163 | each unseen bead of a lookup gains the file once per reference, and no other entry changes |
| Related.FileOverlapCounts | pkg/correlation/related.go:146-165 | the beads with shared files are exactly the unseen beads some target file's lookup returns, each with its shared files |
| Related.FindFileOverlap | pkg/correlation/related.go:140-214 | nothing without a lookup or target files; otherwise each target file looked up once, each unseen bead a lookup reports holding exactly the files it shares, and the results the selection over those beads |
| Related.SharedFilesMember | pkg/correlation/related.go:146-165 | a file is among a bead's shared files exactly when the lookup of that file reports the bead |
| Related.LookupsOfTargets | pkg/correlation/related.go:146-147 | the lookups made are exactly one per target file, each what `LookupByFile` returns for it |
| Related.FileOverlapStage | pkg/correlation/related.go:104-109 | the file-overlap category found with the lookup, skipping the seen beads, and the seen set with its beads added |
| Related.CommitOverlapStage | pkg/correlation/related.go:111-117 | the commit-overlap category, skipping the target and the seen beads, and the seen set with its beads added |
| Related.DependencyStage | pkg/correlation/related.go:119-126 | nothing without a dependency graph; otherwise the dependency cluster skipping the seen beads, and the seen set with its beads added |
| Related.ConcurrentStage | pkg/correlation/related.go:128-130 | the concurrent category, skipping the seen beads |
| Related.AppendUnique | pkg/correlation/related.go:234 | the element added unless present, so the list stays free of repeats |
| Related.CommitShares | pkg/correlation/related.go:223-236 | each unseen bead other than the target gets exactly the target commits it shares, once each |
| Related.FindCommitOverlap | pkg/correlation/related.go:217-285 | nothing without target commits; otherwise the selection over the beads sharing commits, with their shared commit sets |
| Related.DirectDeps | pkg/correlation/related.go:296-303 | the unseen dependencies of the target at distance 1 |
| Related.ReverseDeps | pkg/correlation/related.go:305-317 | the unseen beads depending on the target join at distance 1 |
| Related.SecondHops | pkg/correlation/related.go:319-335 | the unseen dependencies of first-hop beads, other than the target, join at distance 2 unless already present |
| Related.FindDependencyCluster | pkg/correlation/related.go:288-381 | nothing without a graph; otherwise the cluster holds exactly the first- and second-hop beads at their distances, and the results are its selection |
| Related.FindConcurrent | pkg/correlation/related.go:384-492 | the selection over the beads the time-window test accepts, none already seen |
| Related.TargetSets | pkg/correlation/related.go:92-99 | the target's files and commit SHAs are exactly those of its commits |
| Related.MarkSeen | pkg/correlation/related.go:108-110 | a category's beads are added to the seen set |
| Related.FindRelatedWork | pkg/correlation/related.go:69-137 | none exactly for an unknown target; otherwise the file, commit, dependency and concurrent categories found in that order, each exactly the selection its finder makes while skipping the target and the beads of the earlier categories (so the four are pairwise disjoint), with the given or a freshly built file lookup, and the total their sum |
| DriftConfig.Backfill | pkg/drift/config.go:155-163 | zero stale-day and multiplier settings take their defaults; every other setting is left alone |
| DriftConfig.ScalarError | pkg/drift/config.go:165-203 | no error exactly when every global bound holds; an error found here is never a label error |
| DriftConfig.LabelError | pkg/drift/config.go:209-217 | no error exactly when a label override's bounds hold; an error names the label |
| DriftConfig.CheckLabelOverrides | pkg/drift/config.go:205-218 | no error exactly when every present override is valid; otherwise the error of some invalid override |
| DriftConfig.CheckSettings | pkg/drift/config.go:165-219 | no error exactly when the settings are valid; the global checks come first; a valid configuration has ordered density, stale-day, multiplier and cascade bounds |
| DriftConfig.DefaultsValid | pkg/drift/config.go:68-84 | the defaults need no backfill and pass validation |
| DriftConfig.Config.Default | pkg/drift/config.go:68-84 | a new configuration holds the default thresholds |
| DriftConfig.Config.BackfillFields | pkg/drift/config.go:155-163 | the receiver becomes its backfilled self |
| DriftConfig.Config.Validate | pkg/drift/config.go:153-220 | the receiver is backfilled, then no error exactly when it is valid, global errors reported before label errors |
| DriftConfig.Config.IsAlertDisabled | pkg/drift/config.go:223-230 | true exactly when the alert type is among the disabled ones |
| DriftConfig.Override | pkg/drift/config.go:246-249 | a label's override exactly when one is present and not nil |
| DriftConfig.Tighten | pkg/drift/config.go:250-258 | one override never loosens a threshold |
| DriftConfig.TightenedIsLowerBound | pkg/drift/config.go:235-261 | the thresholds are at most the configured ones and at most every positive override of the issue's labels |
| DriftConfig.TightenedIsAttained | pkg/drift/config.go:235-261 | each threshold is the configured one or some positive override of one of the labels |
| DriftConfig.TightenedWithoutOverrides | pkg/drift/config.go:240-242 | without overrides the configured thresholds are returned |
| DriftConfig.Config.GetStalenessThresholds | pkg/drift/config.go:235-261 | the loop yields the tightest thresholds over the issue's labels |
| TriageBranch.PriorityLabel | pkg/triage/branch.go:378-379 | "P" followed by the decimal priority |
| TriageBranch.PriorityLabelInjective | pkg/triage/branch.go:225-226 | two priorities print the same label exactly when they are equal |
| TriageBranch.SuggestPriority | pkg/triage/branch.go:461-478 | the score bands map to P0, P1 and P2, never lowering the urgency of the current priority; below 0.12 the current priority is kept |
| TriageBranch.SuggestPriorityMonotone | pkg/triage/branch.go:461-478 | a higher score never suggests a less urgent priority |
| TriageBranch.IssueIndex | pkg/triage/branch.go:349-352 | the issues keyed by ID, each entry filed under its own ID |
| TriageBranch.IssueIndexLast | pkg/triage/branch.go:349-352 | for a repeated ID the last issue wins |
| TriageBranch.LabelSets | pkg/triage/branch.go:355-362 | each indexed issue's label set is exactly its labels |
| TriageBranch.PriorityFor | pkg/triage/branch.go:366-383 | a proposal exactly for a known open issue whose suggested priority differs, always more urgent, with the old and new labels |
| TriageBranch.DaysSince | pkg/triage/branch.go:396 | whole days elapsed, truncated |
| TriageBranch.StaleThreshold | pkg/triage/branch.go:397-400 | seven days for work in progress, ten otherwise |
| TriageBranch.StaleFor | pkg/triage/branch.go:387-412 | a "stale" proposal exactly for an open, not deferred, not pinned, not yet stale-labelled issue at least as old as its threshold, scored by days over 30 |
| TriageBranch.CriticalPathFor | pkg/triage/branch.go:416-434 | a "critical-path" proposal exactly for a known open unlabelled blocker unblocking at least three, scored by that count over 10 |
| TriageBranch.QuickWinFor | pkg/triage/branch.go:438-455 | a "quick-win" proposal exactly for a known open unlabelled quick win, with its score |
| TriageBranch.ProposalsInGroupOrder | pkg/triage/branch.go:345-458 | the priority proposals come first, then the stale, critical-path and quick-win ones |
| TriageBranch.PriorityProposalsRaise | pkg/triage/branch.go:366-383 | every priority proposal is for an open issue with a recommendation whose suggestion is more urgent than its priority |
| TriageBranch.BuildIndexes | pkg/triage/branch.go:349-362 | the loops build the issue index and the label sets |
| TriageBranch.AppendPriorityProposals | pkg/triage/branch.go:366-384 | one priority proposal per qualifying recommendation, in order |
| TriageBranch.AppendStaleProposals | pkg/triage/branch.go:387-413 | one stale proposal per qualifying issue, in order |
| TriageBranch.AppendCriticalPathProposals | pkg/triage/branch.go:416-435 | one critical-path proposal per qualifying blocker, in order |
| TriageBranch.AppendQuickWinProposals | pkg/triage/branch.go:438-455 | one quick-win proposal per qualifying quick win, in order |
| TriageBranch.GenerateProposals | pkg/triage/branch.go:345-458 | the four proposal groups, in that order |
| TriageBranch.IssueRowEntriesSpec | pkg/triage/branch.go:220-237 | a priority entry exactly when both priorities are present and differ, then a status entry exactly when both statuses are present and differ, each carrying the old and new values |
| TriageBranch.LabelRowEntries | pkg/triage/branch.go:263-280 | one entry for an added or removed label, with the label on the new or old side; none for other diff types |
| TriageBranch.AppendIssueDiffs | pkg/triage/branch.go:211-238 | the entries of every issue row, in order |
| TriageBranch.AppendLabelDiffs | pkg/triage/branch.go:255-281 | the entries of every label row, in order |
| TriageBranch.GetDiff | pkg/triage/branch.go:211-283 | the issue entries, followed by the label entries when the label table could be read |
| Workspace.FirstComponent | pkg/workspace/routes.go:131-132 | the part of a path before its first slash |
| Workspace.ExtractRigName | pkg/workspace/routes.go:126-133 | empty for "", "." and "./"; otherwise the first component of the path with one "./" removed |
| Workspace.ExtractRigNameExamples | pkg/workspace/routes.go:124-133 | "bv/mayor/rig" and "./bv/mayor/rig" give "bv"; a plain name gives itself |
| Workspace.RigName | pkg/workspace/routes.go:80-83 | the rig name from the path, or the prefix without its dash |
| Workspace.MakeRepo | pkg/workspace/routes.go:99-104 | the repository is named and databased after the rig, with the entry's prefix |
| Workspace.LineEntry | pkg/workspace/routes.go:41-49 | a line yields an entry exactly when it is not blank and decodes |
| Workspace.ReadEntries | pkg/workspace/routes.go:40-50 | the decoded entries of the non-blank lines, in order |
| Workspace.AdmittedShape | pkg/workspace/routes.go:62-105 | every admitted repository comes from an eligible entry |
| Workspace.AdmittedDistinct | pkg/workspace/routes.go:85-97 | admitted repositories have distinct prefixes and distinct resolved paths |
| Workspace.AdmittedCovers | pkg/workspace/routes.go:62-105 | every eligible entry is admitted unless its prefix or resolved path was already taken |
| Workspace.FilterEntries | pkg/workspace/routes.go:58-105 | the loop admits exactly the entries the filter and the two seen sets allow |
| Workspace.LoadConfigFromRoutes | pkg/workspace/routes.go:26-122 | a "gas-town" configuration whose repositories are the admitted ones, sorted by name |
| Workspace.ConfigFromDatabases | pkg/workspace/dolt_discovery.go:6-20 | a "dolt-auto" configuration with one repository per database, in order, named, pathed and databased after it, prefixed with it and a dash |
| Workspace.DatabasePrefixRoundTrip | pkg/workspace/dolt_discovery.go:12 | a dash-free database name's prefix passes the routes filter and gives the database name back as the rig name |
| RepoPicker.AllFlagged | pkg/ui/repo_picker.go:31-33 | every repository flagged with the same value, and nothing else |
| RepoPicker.VisibleHeight | pkg/ui/repo_picker.go:78-87 | the height less ten lines of chrome, never below three |
| RepoPicker.SelectAllSelectsEvery | pkg/ui/repo_picker.go:120-124 | after flagging every repository true, the selection is all repositories |
| RepoPicker.DeselectAllSelectsNone | pkg/ui/repo_picker.go:127-131 | after flagging every repository false, the selection is empty |
| RepoPicker.ToggleChangesOne | pkg/ui/repo_picker.go:111-117 | toggling a repository adds it to or removes it from the selection, and changes no other |
| RepoPicker.RepoPickerModel.constructor | pkg/ui/repo_picker.go:24-35 | a copy of the repositories, cursor and scroll at the top, every repository selected |
| RepoPicker.RepoPickerModel.SetSize | pkg/ui/repo_picker.go:38-41 | the dimensions set, nothing else changed |
| RepoPicker.RepoPickerModel.SetIssueCounts | pkg/ui/repo_picker.go:44-46 | the counts set, nothing else changed |
| RepoPicker.RepoPickerModel.SetDoltMode | pkg/ui/repo_picker.go:49-51 | the mode set, nothing else changed |
| RepoPicker.RepoPickerModel.SetActiveRepos | pkg/ui/repo_picker.go:54-73 | no flags for an empty list; otherwise all repositories selected without a filter, and exactly the active ones with one |
| RepoPicker.RepoPickerModel.MoveUp | pkg/ui/repo_picker.go:90-97 | the cursor moves up unless at the top, the scroll follows it, and a visible cursor stays visible |
| RepoPicker.RepoPickerModel.MoveDown | pkg/ui/repo_picker.go:100-108 | the cursor moves down unless at the bottom, the scroll follows it so that it is visible |
| RepoPicker.RepoPickerModel.ToggleSelected | pkg/ui/repo_picker.go:111-117 | the repository under a valid cursor flips its flag; out of range nothing happens |
| RepoPicker.RepoPickerModel.SelectAll | pkg/ui/repo_picker.go:120-124 | every repository flagged true, so all are selected |
| RepoPicker.RepoPickerModel.DeselectAll | pkg/ui/repo_picker.go:127-131 | every repository flagged false, so none is selected |
| RepoPicker.RepoPickerModel.SelectedRepos | pkg/ui/repo_picker.go:134-142 | exactly the selected repositories, each mapped to true |
| DiffModal.BadgeLabel | pkg/ui/triage_diff_modal.go:189-213 | a three-letter label, "???" exactly for a name that is no known change type |
| DiffModal.BadgesDistinguishKinds | pkg/ui/triage_diff_modal.go:192-207 | two change types share a badge exactly when they are equal or are the label add and label removal |
| DiffModal.VisibleRows | pkg/ui/triage_diff_modal.go:216-223 | the height less fourteen lines, never below five |
| DiffModal.ModalWidth | pkg/ui/triage_diff_modal.go:227-233 | the terminal width less ten, clamped between 60 and 90 |
| DiffModal.CenterPad | pkg/ui/triage_diff_modal.go:245-253 | half the spare room rounded down, zero when the modal does not fit |
| DiffModal.TriageDiffModal.constructor | pkg/ui/triage_diff_modal.go:34-42 | the branch's proposals and diffs, cursor at the top, undecided, 80 by 30 |
| DiffModal.TriageDiffModal.Update | pkg/ui/triage_diff_modal.go:45-72 | up and down move the cursor within the proposals with the scroll following it; "y" accepts and "n" rejects; other messages change nothing; decisions are never undone |
| DiffModal.TriageDiffModal.IsAccepted | pkg/ui/triage_diff_modal.go:75 | whether the user accepted |
| DiffModal.TriageDiffModal.IsRejected | pkg/ui/triage_diff_modal.go:78 | whether the user rejected |
| DiffModal.TriageDiffModal.SetSize | pkg/ui/triage_diff_modal.go:226-236 | the clamped width and the given height, nothing else changed |
| DiffModal.Replay | pkg/ui/triage_diff_modal.go:45-72 | a property of `Update` rather than a model of code of its own: any sequence of messages keeps the cursor on a proposal and never undoes a decision |
| Visuals.HeatmapStep | pkg/ui/visuals.go:65-74 | the gradient step: above 0.8, above 0.5, above 0.2, or lower |
| Visuals.HeatmapColor | pkg/ui/visuals.go:65-74 | the gradient colour of the score's step |
| Visuals.HeatmapMonotone | pkg/ui/visuals.go:65-74 | a higher score never gets a lower step |
| Visuals.HeatmapExamples | pkg/ui/visuals.go:65-74 | the colours at and around the band edges |
| Visuals.RepoHashIsPolynomialMod | pkg/ui/visuals.go:94-101 | reducing at every step gives the base-31 polynomial hash of the characters modulo the palette size |
| Visuals.GetRepoColor | pkg/ui/visuals.go:89-102 | the muted colour for no prefix, otherwise the palette colour at the prefix's hash |
| Visuals.RepoBadgeText | pkg/ui/visuals.go:106-121 | empty for no prefix, otherwise the first four characters upper-cased in brackets |
| Visuals.RepoBadgeTruncates | pkg/ui/visuals.go:112-114 | only the first four characters of a prefix matter to the badge |
| Visuals.RepoBadgeExamples | pkg/ui/visuals.go:105-109 | "api" gives "[API]" and no prefix gives nothing |
| Normalizers.NormalizeStatus | pkg/search/normalizers.go:9-24 | a weight in [0, 1]: 1 exactly for open, 0 exactly for tombstone, 0.8 in progress, 0.1 closed, 0.5 for blocked and any other status |
| Normalizers.StatusOrder | pkg/search/normalizers.go:9-24 | open outranks in progress, blocked, closed and tombstone, in that order |
| Normalizers.NormalizePriority | pkg/search/normalizers.go:27-42 | a weight in [0, 1]: 1 - 0.2 p for priorities 0 to 4, 0.5 otherwise |
| Normalizers.PriorityStrictlyDecreasing | pkg/search/normalizers.go:27-42 | a more urgent priority always weighs more |
| Normalizers.NormalizeImpact | pkg/search/normalizers.go:45-56 | 0.5 without a maximum, 0 for no blockers, 1 at or above the maximum, and the ratio to the maximum in between |
| Normalizers.ImpactMonotone | pkg/search/normalizers.go:45-56 | more blockers never weigh less |
| HookExecutor.RunAll | pkg/hooks/executor.go:69-76 | one result per hook, in order, each the runner's outcome for that hook |
| HookExecutor.PreExportStopsAtFirstFailure | pkg/hooks/executor.go:49-58 | pre-export hooks run in order up to and including the first fatal failure, which is the error; without one every hook runs and there is no error |
| HookExecutor.PostExportStep | pkg/hooks/executor.go:69-76 | after each post-export hook the remembered error is the first fatal failure so far |
| HookExecutor.FirstFatalSpec | pkg/hooks/executor.go:73-75 | no error exactly when no result is fatal; otherwise the failure of the earliest fatal result |
| HookExecutor.Executor.constructor | pkg/hooks/executor.go:34-40 | the configuration kept and no results yet |
| HookExecutor.Executor.RunPreExport | pkg/hooks/executor.go:44-59 | nothing without a configuration; otherwise the results of the hooks run up to the first fatal failure are appended and that failure returned |
| HookExecutor.Executor.RunPostExport | pkg/hooks/executor.go:63-79 | nothing without a configuration; otherwise every hook's result is appended and the first fatal failure returned |
| HookExecutor.Executor.Summary | pkg/hooks/executor.go:176-199 | "No hooks executed" exactly when there are no results; otherwise the succeeded and failed counts, which add up to the results, and one line per result |
| HookExecutor.Truncate | pkg/hooks/executor.go:202-208 | a string within the limit unchanged; a longer one cut to the limit, ending in "..." after its own first characters |
| HookExecutor.TruncateIdempotent | pkg/hooks/executor.go:202-208 | truncating twice is truncating once |
| HookExecutor.LastWithPrefixSpec | pkg/hooks/executor.go:160-165 | the backward search finds the last entry starting with the prefix, or reports that none does |
| HookExecutor.LookupEnv | pkg/hooks/executor.go:158-167 | the value of the last `KEY=` entry of the environment, or empty |
| HookExecutor.SortedMapKeys | pkg/hooks/executor.go:118-122 | the hook's variable names exactly once, sorted |
| HookExecutor.SortedKeysUnique | pkg/hooks/executor.go:117-122 | the sorted key order is the only one, so the environment order is deterministic |
| HookExecutor.AppendHookVars | pkg/hooks/executor.go:124-129 | one expanded `KEY=value` entry per key, in order, after the base environment |
| HookExecutor.HookEnv | pkg/hooks/executor.go:116-129 | the base environment followed by one entry per hook variable, in sorted key order |
| Cloudflare.NormalizeChars | pkg/export/cloudflare.go:259-262 | each character lower-cased, with blanks, underscores and dots turned into hyphens |
| Cloudflare.KeepAllowed | pkg/export/cloudflare.go:265 | only lower-case letters, digits and hyphens are kept |
| Cloudflare.TrimHyphens | pkg/export/cloudflare.go:268 | no hyphen left at either end |
| Cloudflare.CollapseHyphens | pkg/export/cloudflare.go:269 | no doubled hyphen, the ends kept |
| Cloudflare.SanitizeValid | pkg/export/cloudflare.go:258-271 | a sanitised name holds only [a-z0-9-], with no hyphen at an end and none doubled |
| Cloudflare.SanitizeKeepsAlnums | pkg/export/cloudflare.go:258-271 | sanitising keeps every letter and digit of the lower-cased name, in order |
| Cloudflare.SanitizeIdempotent | pkg/export/cloudflare.go:258-271 | sanitising a sanitised name changes nothing |
| Cloudflare.SuggestProjectName | pkg/export/cloudflare.go:236-272 | always a valid project name: the sanitised directory name; for a bundle path whose last element is ".", "/" or empty, the sanitised name of the directory above it (with "-pages" when that name is itself generic); the parent's name with "-pages" for a generic output directory |
| Cloudflare.ParseWranglerWhoami | pkg/export/cloudflare.go:100-129 | the loop over the lines computes the account described by the lemmas below |
| Cloudflare.WhoamiIdIsLastIdLine | pkg/export/cloudflare.go:113-119 | the account ID is the value of the last "Account ID:" line |
| Cloudflare.WhoamiNoIdLine | pkg/export/cloudflare.go:113-119 | without an "Account ID:" line the ID is empty |
| Cloudflare.WhoamiNameIsLastNameLine | pkg/export/cloudflare.go:105-111 | after the last non-empty "Account Name:" line the name is its value |
| Cloudflare.WhoamiNameSticks | pkg/export/cloudflare.go:121-125 | once a name is set, lines without "Account Name:" never change it |
| Cloudflare.ConfirmPrompt | pkg/export/cloudflare.go:393-402 | yes exactly for "y" or "yes" in any case and with surrounding blanks; no on a read error |
| Cloudflare.ConfirmIgnoresCase | pkg/export/cloudflare.go:400 | the answer is read without regard to case |
| Cloudflare.ProjectOfWellFormed | pkg/export/cloudflare.go:416-425 | a listed project name is a non-empty word, never a header or rule line |
| Cloudflare.ListProjects | pkg/export/cloudflare.go:405-429 | an error exactly when the command fails; otherwise the first word of every line that is not blank, a header or a rule |
| Cloudflare.DeployBranch | pkg/export/cloudflare.go:277-279 | the given branch, or exactly "main" when none is given |
| Cloudflare.DeployURL | pkg/export/cloudflare.go:375-381 | the parsed URL, or exactly "https://" + project + ".pages.dev" when none was found |
| SqliteExport.TruncToInt | pkg/export/sqlite_export.go:268 | a conversion of a real to an integer that truncates toward zero |
| SqliteExport.BlocksOfMember | pkg/export/sqlite_export.go:458-463 | an issue blocks exactly the issues it has a blocking dependency on |
| SqliteExport.BlockedByOfMember | pkg/export/sqlite_export.go:458-463 | an issue is blocked by exactly the issues with a blocking dependency on it |
| SqliteExport.BlockingLinksMirror | pkg/export/sqlite_export.go:458-463 | `a` blocks `b` exactly when `b` is blocked by `a` |
| SqliteExport.BuildBlockLookups | pkg/export/sqlite_export.go:456-463 | each issue's blocks and blocked-by lists, read with the empty list for a missing key |
| SqliteExport.TallyBlocking | pkg/export/sqlite_export.go:242-249 | each issue's blocks and blocked-by counts are the lengths of those lists |
| SqliteExport.ScoreOfLast | pkg/export/sqlite_export.go:252-257 | an issue's triage score is that of its last recommendation |
| SqliteExport.ScoreOfMissing | pkg/export/sqlite_export.go:252-257 | an issue without a recommendation scores 0 |
| SqliteExport.BuildScores | pkg/export/sqlite_export.go:466-471 | no scores without a triage result; otherwise each issue's score as above |
| SqliteExport.ExportOf | pkg/export/sqlite_export.go:483-507 | the issue's own fields copied, the counts equal to the lengths of the link lists, the graph metrics 0 without statistics |
| SqliteExport.UnrecommendedScoresZero | pkg/export/sqlite_export.go:503 | an issue no recommendation mentions is exported with score 0 |
| SqliteExport.ExportLinksAreBlockingDeps | pkg/export/sqlite_export.go:504-505 | the exported link lists hold exactly the issues joined to this one by blocking dependencies, one way or the other |
| SqliteExport.GetExportedIssues | pkg/export/sqlite_export.go:454-513 | one exported record per issue, in order, each the issue's export |
| SqliteExport.MetricsRows | pkg/export/sqlite_export.go:221-280 | no rows without statistics; otherwise one row per issue with its metrics, truncated critical-path depth, score and dependency tallies |
| SqliteExport.MetricsAgreeWithExport | pkg/export/sqlite_export.go:242-271 | the metrics table and the exported issues agree on counts, score, PageRank and critical-path depth |
| SqliteExport.StringSliceContains | pkg/export/sqlite_export.go:537-544 | true exactly when some element equals the value ignoring case |
| SqliteExport.EqualFoldEquivalence | pkg/export/sqlite_export.go:539 | case-insensitive equality is reflexive, symmetric and transitive |
| SqliteExport.ChunksConcat | pkg/export/sqlite_export.go:413-431 | the chunks put back together give the file |
| SqliteExport.ChunksBounded | pkg/export/sqlite_export.go:414-424 | every chunk is non-empty and no larger than the chunk size |
| SqliteExport.ChunksCount | pkg/export/sqlite_export.go:413-434 | no chunks for an empty file; otherwise the number of chunks is the file size divided by the chunk size, rounded up |
| SqliteExport.ChunkIfNeeded | pkg/export/sqlite_export.go:372-436 | below the threshold a config with the size and no chunks; otherwise the file's chunks and a config recording their count and size |
| SqliteExport.ChunkedExportReassembles | pkg/export/sqlite_export.go:379-436 | a chunked export's chunks reassemble the file, each within the chunk size, their count as recorded |
| PagesWizard.AskYesNo | pkg/export/wizard.go:472-490 | the default on a read error or a blank answer, otherwise whether the answer is "y" or "yes" in any case |
| PagesWizard.AskYesNoIgnoresCase | pkg/export/wizard.go:483 | the answer is read without regard to case |
| PagesWizard.AskString | pkg/export/wizard.go:492-510 | the default on a read error or a blank answer, otherwise the trimmed answer |
| PagesWizard.AskStringStable | pkg/export/wizard.go:492-510 | the answer carries no surrounding blanks, so giving it back unchanged returns it |
| PagesWizard.AskChoice | pkg/export/wizard.go:512-532 | the trimmed answer when it is one of the choices, otherwise the default |
| PagesWizard.DeployTargetOf | pkg/export/wizard.go:146-155 | "2" Cloudflare, "3" local, anything else GitHub; always one of the three |
| PagesWizard.Wizard.constructor | pkg/export/wizard.go:60-66 | closed issues left out, no title, subtitle or deploy target, the given issues path |
| PagesWizard.Wizard.CollectExportOptions | pkg/export/wizard.go:119-135 | the closed-issues answer (default no), the title (default "Project Issues") and the subtitle (default none) recorded, the title never empty |
| PagesWizard.Wizard.CollectDeployTarget | pkg/export/wizard.go:137-157 | the menu answer mapped to a known deploy target, GitHub by default |

## Left out

- Floating-point numbers are modelled as exact reals; only comparisons and the few
  divisions the code makes on them are modelled, not rounding.
- PageRank, exact betweenness (Brandes), eigenvector, HITS, cycle detection and density are
  not modelled; neither is the score computation of `ApproxBetweenness`. Only its branch
  choice and its sample are.
- The topological sort (`topological_sort`, gonum's `topo.Sort`) is an input: either "a
  cycle" or an order that respects every edge. Its tie-breaking is not modelled.
- The definitions of `Status.IsClosed` and `DependencyType.IsBlocking` are not part of this
  model. `IsBlocking` is a recorded boolean; `TriageBranch.IsClosed` is fixed to the closed
  status, so a status that the real `IsClosed` also counts as closed is not modelled.
- `filepath.Base`, `Dir`, `Abs`, `Clean`, `Join` and JSON decoding are inputs or function
  parameters; `${VAR}` expansion (`os.Expand`) is an oracle over the environment. Only the
  lookup it calls is modelled.
- Processes, networks and terminals are not modelled: the hook runner (with its timeout),
  `wrangler`/`gh`/`npm`, the browser, the preview server, stdin reads (a line or a read
  error is an input) and all printing.
- Databases and files are not modelled: the SQLite database, its schema, FTS and the SHA-256
  hash, JSON writing, Dolt queries (their rows are inputs), `applyProposals`, and YAML/JSON
  configuration load and save.
- Clocks are parameters, in a unit fixed per module: the `History` time stamps and the
  `Related` concurrency window are integer nanoseconds, as Go's `time.Time` and
  `time.Duration` give them; the `Issues` time stamps and the `TriageBranch` clock are whole
  seconds, which `DaysSince` divides by 86400. The wall-clock scoring of `findConcurrent`,
  `ImpactAnalysis`, `normalizeRecency` and `GetRelatedFiles` is not modelled; for
  `findConcurrent` the outcome of the time-window test per bead is an input.
- `LookupByFileGlob` (glob matching by `filepath.Match`), the regular expressions of
  `parseCloudflareURL`/`parseDeploymentID`, `RenderSparkline`, all `View` rendering and
  `CenterModal`'s string assembly are not modelled. `CenterModal`'s padding clamp is.
- Human-readable reason strings of triage proposals and `formatConcurrentReason` are not
  modelled; the reasons of the file and commit overlaps are.
- Case mapping, `TrimSpace` and `EqualFold` are ASCII-only: Unicode letters and spaces
  are not modelled.
- Visuals.RepoBadgeText: works on characters, while the Go code cuts the upper-cased
  string after four bytes, which can split a multi-byte character.
- ParallelCut.ToItem: `parallel_gain` is an unbounded integer; the Rust `i32` cast cannot
  overflow for graphs of realistic size and is not modelled.
- DisjointSets.UnionFind.Find: requires its argument to be registered. The Go `find` also
  registers a missing key, but every call in `findConnectedComponents` passes a registered
  issue ID.
- HookExecutor.Truncate: requires `max >= 3` when the string is longer than `max`; the Go
  slice `runes[:max-3]` panics otherwise.
- SqliteExport.ChunkIfNeeded: requires a positive chunk size when the file reaches the
  threshold (the Go read loop never ends with an empty buffer); every read is assumed to
  fill the buffer, so short reads from the operating system are not modelled.
- SqliteExport.GetExportedIssues: does not distinguish a nil slice from an empty one in
  the exported link lists.
- DriftConfig.Config.Validate: the error messages are replaced by which check failed.
- Workspace.LoadConfigFromRoutes: `Config.Validate` of the workspace package, called at the
  end of `LoadConfigFromRoutes`, is not part of this model.
- DiffModal.TriageDiffModal.constructor: takes the proposals of a branch that is present;
  a nil branch, on which `Update` would dereference nil, is not modelled. `Update`'s value
  receiver and returned copy are modelled as an in-place update of the dialog.
- Cloudflare.DeployBranch: only the defaults of `DeployToCloudflarePages` (branch and
  URL) are modelled, not its deployment steps.
- PagesWizard.Wizard.CollectDeployTarget: the other wizard steps (GitHub and Cloudflare
  setup, export, preview, configuration files) are not modelled.
- HookExecutor.Executor.Summary: returns the counts and one structured line per result
  (name, and for a failure the error and the stderr cut to 200 runes) instead of the
  formatted text; only the `[OK]`/`[FAIL]` markers, the rounded durations and the text
  layout are not modelled.
- Related.FindRelatedWork: the `GeneratedAt` time stamp is not modelled. A missing file
  lookup is built from the report by `NewFileLookup`, which is modelled.

## Findings

| source | as written | input that shows it | evidently intended | confidence | as-written member | corrected member |
|---|---|---|---|---|---|---|
| pkg/analysis/plan.go:131-147 | `find` reads a parent of "" as unset and resets it to the element itself | issue "a" with a blocking dependency on an issue whose ID is "": `union` points "a" at "", and the next `find("a")` resets it, so the two stay in different components | every linked pair in one component, whatever the IDs | not executed | DisjointSets.EmptyRootDropsUnion (with DisjointSets.SentinelUnion, DisjointSets.SentinelFind) | DisjointSets.UnionFind.Union (with ExecutionPlan.FindConnectedComponents) |
| pkg/correlation/related.go:558-576 | `formatIntRelated` negates a negative `n` and loops while `n > 0` | `n` = -9223372036854775808: the negation overflows back to itself, the loop never runs, and the result is "-" | the decimal text of every `int`, as `strconv.Itoa` gives | not executed | RelatedText.FormatIntRelated64 (with RelatedText.MinInt64FormatsAsDash) | RelatedText.FormatIntRelated (with RelatedText.DecimalRoundTrip) |
