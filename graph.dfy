/**
 * The dependency graph of the analysis package: one node per issue (numbered in input
 * order), an edge u -> v whenever issue u depends on an existing issue v, node degrees, the
 * execution order, and the "impact height" of each node computed along a topological order.
 *
 * The graph library is abstracted to a node count and a set of edges; adding an edge that is
 * already present changes nothing, so edges form a set. Its topological sort is an input:
 * `None` stands for the cycle error, `Some(order)` for an order of the nodes in which every
 * edge u -> v has u first.
 */
module DependencyGraph {
  import opened Wrappers
  import opened Issues

  type Edge = (nat, nat)

  datatype Analyzer = Analyzer(n: nat, idToNode: map<string, nat>, nodeToID: map<nat, string>,
                               issueMap: map<string, Issue>, edges: set<Edge>)

  // ---------------------------------------------------------------- node tables

  /** Node of each ID: a later issue with the same ID replaces an earlier one. */
  function IDIndex(issues: seq<Issue>): map<string, nat>
  {
    if issues == [] then map[]
    else IDIndex(issues[..|issues| - 1])[issues[|issues| - 1].id := |issues| - 1]
  }

  function NodeIDs(issues: seq<Issue>): map<nat, string>
  {
    if issues == [] then map[]
    else NodeIDs(issues[..|issues| - 1])[|issues| - 1 := issues[|issues| - 1].id]
  }

  function IssueMapOf(issues: seq<Issue>): map<string, Issue>
  {
    if issues == [] then map[]
    else IssueMapOf(issues[..|issues| - 1])[issues[|issues| - 1].id := issues[|issues| - 1]]
  }

  /** `i` is the last position of `id` in `issues`. */
  predicate LastIndex(issues: seq<Issue>, id: string, i: nat)
  {
    i < |issues| && issues[i].id == id && forall j :: i < j < |issues| ==> issues[j].id != id
  }

  ghost predicate HasID(issues: seq<Issue>, id: string)
  {
    exists i :: 0 <= i < |issues| && issues[i].id == id
  }

  lemma {:induction false} IDIndexLast(issues: seq<Issue>)
    ensures forall id :: id in IDIndex(issues) <==> HasID(issues, id)
    ensures forall id :: id in IDIndex(issues) ==> LastIndex(issues, id, IDIndex(issues)[id])
  {
    if issues != [] {
      var p, x := issues[..|issues| - 1], issues[|issues| - 1];
      IDIndexLast(p);
      forall id ensures id in IDIndex(issues) <==> HasID(issues, id) {
        if HasID(issues, id) && id != x.id {
          var i :| 0 <= i < |issues| && issues[i].id == id;
          assert p[i].id == id;
        }
      }
    }
  }

  lemma {:induction false} NodeIDsAll(issues: seq<Issue>)
    ensures forall v :: v in NodeIDs(issues) <==> 0 <= v < |issues|
    ensures forall v :: 0 <= v < |issues| ==> NodeIDs(issues)[v] == issues[v].id
  {
    if issues != [] {
      var p := issues[..|issues| - 1];
      NodeIDsAll(p);
      assert NodeIDs(issues) == NodeIDs(p)[|p| := issues[|p|].id];
      forall v | 0 <= v < |p| ensures NodeIDs(issues)[v] == issues[v].id {
        assert p[v] == issues[v];
      }
    }
  }

  lemma {:induction false} IssueMapLast(issues: seq<Issue>)
    ensures IssueMapOf(issues).Keys == IDIndex(issues).Keys
    ensures forall id :: id in IDIndex(issues) ==> IDIndex(issues)[id] < |issues| && IssueMapOf(issues)[id] == issues[IDIndex(issues)[id]]
  {
    if issues != [] {
      IssueMapLast(issues[..|issues| - 1]);
    }
  }

  /** What the node tables built from `issues` hold. */
  ghost predicate TablesOk(issues: seq<Issue>, a: Analyzer)
  {
    a.n == |issues| &&
    (forall v :: v in a.nodeToID <==> 0 <= v < |issues|) &&
    (forall v :: 0 <= v < |issues| ==> a.nodeToID[v] == issues[v].id) &&
    (forall id :: id in a.idToNode <==> HasID(issues, id)) &&
    (forall id :: id in a.idToNode ==> LastIndex(issues, id, a.idToNode[id])) &&
    a.issueMap.Keys == a.idToNode.Keys &&
    (forall id :: id in a.issueMap ==> a.issueMap[id] == issues[a.idToNode[id]])
  }

  lemma TablesOfIssues(issues: seq<Issue>)
    ensures TablesOk(issues, Analyzer(|issues|, IDIndex(issues), NodeIDs(issues), IssueMapOf(issues), {}))
  {
    IDIndexLast(issues);
    NodeIDsAll(issues);
    IssueMapLast(issues);
  }

  /** Numbers the nodes in input order and records the ID tables. */
  method AddNodes(issues: seq<Issue>) returns (a: Analyzer)
    ensures TablesOk(issues, a) && a.edges == {}
  {
    var idToNode: map<string, nat> := map[];
    var nodeToID: map<nat, string> := map[];
    var issueMap: map<string, Issue> := map[];
    for i := 0 to |issues|
      invariant idToNode == IDIndex(issues[..i])
      invariant nodeToID == NodeIDs(issues[..i])
      invariant issueMap == IssueMapOf(issues[..i])
    {
      assert issues[..i + 1][..i] == issues[..i];
      var issue := issues[i];
      issueMap := issueMap[issue.id := issue];
      idToNode := idToNode[issue.id := i];
      nodeToID := nodeToID[i := issue.id];
    }
    assert issues[..|issues|] == issues;
    a := Analyzer(|issues|, idToNode, nodeToID, issueMap, {});
    TablesOfIssues(issues);
  }

  // ---------------------------------------------------------------- edges

  /** The edges contributed by the dependencies `deps` of the issue `id`. */
  function IssueEdges(idToNode: map<string, nat>, id: string, deps: seq<Dependency>): set<Edge>
  {
    if deps == [] then {}
    else
      IssueEdges(idToNode, id, deps[..|deps| - 1]) +
      (if id in idToNode && deps[|deps| - 1].dependsOnID in idToNode
       then {(idToNode[id], idToNode[deps[|deps| - 1].dependsOnID])} else {})
  }

  function EdgesOf(idToNode: map<string, nat>, issues: seq<Issue>): set<Edge>
  {
    if issues == [] then {}
    else EdgesOf(idToNode, issues[..|issues| - 1]) + IssueEdges(idToNode, issues[|issues| - 1].id, issues[|issues| - 1].deps)
  }

  /** `e` links issue `id` to its `k`-th dependency, both present in the graph. */
  predicate DepEdge(idToNode: map<string, nat>, id: string, deps: seq<Dependency>, k: int, e: Edge)
  {
    0 <= k < |deps| && id in idToNode && deps[k].dependsOnID in idToNode &&
    e == (idToNode[id], idToNode[deps[k].dependsOnID])
  }

  lemma {:induction false} IssueEdgesMembership(idToNode: map<string, nat>, id: string, deps: seq<Dependency>, e: Edge)
    ensures e in IssueEdges(idToNode, id, deps) <==> exists k :: DepEdge(idToNode, id, deps, k, e)
  {
    if deps != [] {
      var p := deps[..|deps| - 1];
      IssueEdgesMembership(idToNode, id, p, e);
      var last := if id in idToNode && deps[|p|].dependsOnID in idToNode then {(idToNode[id], idToNode[deps[|p|].dependsOnID])} else {};
      assert IssueEdges(idToNode, id, deps) == IssueEdges(idToNode, id, p) + last;
      if e in last {
        assert DepEdge(idToNode, id, deps, |p|, e);
      }
      if exists k :: DepEdge(idToNode, id, p, k, e) {
        var k :| DepEdge(idToNode, id, p, k, e);
        assert DepEdge(idToNode, id, deps, k, e);
      }
      if exists k :: DepEdge(idToNode, id, deps, k, e) {
        var k :| DepEdge(idToNode, id, deps, k, e);
        if k < |p| {
          assert p[k] == deps[k];
          assert DepEdge(idToNode, id, p, k, e);
        } else {
          assert e in last;
        }
      }
    }
  }

  /** Every edge comes from a dependency of some issue on an issue of the graph, and every such dependency gives one. */
  lemma {:induction false} EdgesMembership(idToNode: map<string, nat>, issues: seq<Issue>, e: Edge)
    ensures e in EdgesOf(idToNode, issues) <==>
            exists i, k :: 0 <= i < |issues| && DepEdge(idToNode, issues[i].id, issues[i].deps, k, e)
  {
    if issues != [] {
      var p, x := issues[..|issues| - 1], issues[|issues| - 1];
      EdgesMembership(idToNode, p, e);
      IssueEdgesMembership(idToNode, x.id, x.deps, e);
      if exists i, k :: 0 <= i < |p| && DepEdge(idToNode, p[i].id, p[i].deps, k, e) {
        var i, k :| 0 <= i < |p| && DepEdge(idToNode, p[i].id, p[i].deps, k, e);
        assert issues[i] == p[i];
      }
      if exists i, k :: 0 <= i < |issues| && DepEdge(idToNode, issues[i].id, issues[i].deps, k, e) {
        var i, k :| 0 <= i < |issues| && DepEdge(idToNode, issues[i].id, issues[i].deps, k, e);
        if i < |p| {
          assert p[i] == issues[i];
        }
      }
    }
  }

  lemma {:induction false} IssueEdgesMissing(idToNode: map<string, nat>, id: string, deps: seq<Dependency>)
    requires id !in idToNode
    ensures IssueEdges(idToNode, id, deps) == {}
  {
    if deps != [] {
      IssueEdgesMissing(idToNode, id, deps[..|deps| - 1]);
    }
  }

  /** Distinct IDs have distinct nodes. */
  predicate NodesDistinct(idToNode: map<string, nat>)
  {
    forall x, y :: x in idToNode && y in idToNode && idToNode[x] == idToNode[y] ==> x == y
  }

  /** One of the first `k` dependencies in `deps` names `id` itself. */
  predicate DependsOnSelf(id: string, deps: seq<Dependency>, k: nat)
    requires k <= |deps|
  {
    exists j :: 0 <= j < k && deps[j].dependsOnID == id
  }

  /**
   * Adds the edges of one issue's dependencies to `edges`; `None` stands for the graph
   * library's panic on an edge from a node to itself.
   */
  method AddIssueEdges(idToNode: map<string, nat>, id: string, deps: seq<Dependency>, edges: set<Edge>)
    returns (r: Option<set<Edge>>)
    requires id in idToNode && NodesDistinct(idToNode)
    ensures r.None? <==> DependsOnSelf(id, deps, |deps|)
    ensures r.Some? ==> r.value == edges + IssueEdges(idToNode, id, deps)
  {
    var acc := edges;
    var u := idToNode[id];
    for k := 0 to |deps|
      invariant acc == edges + IssueEdges(idToNode, id, deps[..k])
      invariant !DependsOnSelf(id, deps, k)
    {
      assert deps[..k + 1][..k] == deps[..k];
      if deps[k].dependsOnID in idToNode {
        var v := idToNode[deps[k].dependsOnID];
        if u == v {
          return None;
        }
        acc := acc + {(u, v)};
      }
    }
    assert deps[..|deps|] == deps;
    return Some(acc);
  }

  /** No issue depends on itself (the graph library refuses an edge from a node to itself). */
  predicate NoSelfDependency(issues: seq<Issue>)
  {
    forall i, k :: 0 <= i < |issues| && 0 <= k < |issues[i].deps| ==> issues[i].deps[k].dependsOnID != issues[i].id
  }

  /** None of the first `i` issues depends on itself. */
  predicate NoSelfDependencyUpTo(issues: seq<Issue>, i: nat)
    requires i <= |issues|
  {
    forall j, k :: 0 <= j < i && 0 <= k < |issues[j].deps| ==> issues[j].deps[k].dependsOnID != issues[j].id
  }

  /** The node tables give each ID its own node. */
  lemma TablesDistinct(issues: seq<Issue>, a: Analyzer)
    requires TablesOk(issues, a)
    ensures NodesDistinct(a.idToNode)
  {
    forall x, y | x in a.idToNode && y in a.idToNode && a.idToNode[x] == a.idToNode[y] ensures x == y {
      assert LastIndex(issues, x, a.idToNode[x]) && LastIndex(issues, y, a.idToNode[y]);
    }
  }

  /**
   * One node per issue, and an edge u -> v for each dependency of u on an issue v of the
   * graph; `None` when some issue depends on itself, where the graph library panics.
   */
  method NewAnalyzer(issues: seq<Issue>) returns (r: Option<Analyzer>)
    ensures r.Some? <==> NoSelfDependency(issues)
    ensures r.Some? ==> TablesOk(issues, r.value) && r.value.edges == EdgesOf(r.value.idToNode, issues)
  {
    var a := AddNodes(issues);
    TablesDistinct(issues, a);
    var edges: set<Edge> := {};
    for i := 0 to |issues|
      invariant edges == EdgesOf(a.idToNode, issues[..i])
      invariant NoSelfDependencyUpTo(issues, i)
    {
      assert issues[..i + 1][..i] == issues[..i];
      var issue := issues[i];
      if issue.id !in a.idToNode {
        assert HasID(issues, issue.id);
        continue;
      }
      var added := AddIssueEdges(a.idToNode, issue.id, issue.deps, edges);
      if added.None? {
        var k :| 0 <= k < |issue.deps| && issue.deps[k].dependsOnID == issue.id;
        return None;
      }
      edges := added.value;
    }
    assert issues[..|issues|] == issues;
    return Some(a.(edges := edges));
  }

  /** The graph of `NewAnalyzer` joins nodes that exist, and never a node to itself. */
  lemma EdgesWellFormed(issues: seq<Issue>, a: Analyzer)
    requires NoSelfDependency(issues) && TablesOk(issues, a) && a.edges == EdgesOf(a.idToNode, issues)
    ensures EdgesInRange(a.n, a.edges)
    ensures forall e :: e in a.edges ==> e.0 != e.1
  {
    forall e | e in a.edges ensures e.0 < a.n && e.1 < a.n && e.0 != e.1 {
      EdgesMembership(a.idToNode, issues, e);
      var i, k :| 0 <= i < |issues| && DepEdge(a.idToNode, issues[i].id, issues[i].deps, k, e);
      assert issues[e.1].id == issues[i].deps[k].dependsOnID;
    }
  }

  // ---------------------------------------------------------------- degrees

  /** Nodes with an edge into `v`: the issues that depend on it. */
  function Preds(edges: set<Edge>, v: nat): set<nat>
  {
    set e | e in edges && e.1 == v :: e.0
  }

  /** Nodes `u` has an edge to: the issues it depends on. */
  function Succs(edges: set<Edge>, u: nat): set<nat>
  {
    set e | e in edges && e.0 == u :: e.1
  }

  /** Each ID's degrees are those of a node carrying that ID. */
  ghost predicate DegreesOk(a: Analyzer, inDeg: map<string, nat>, outDeg: map<string, nat>)
  {
    inDeg.Keys == outDeg.Keys &&
    (forall id :: id in inDeg <==> exists v :: 0 <= v < a.n && v in a.nodeToID && a.nodeToID[v] == id) &&
    (forall id :: id in inDeg ==>
      exists v :: 0 <= v < a.n && v in a.nodeToID && a.nodeToID[v] == id && inDeg[id] == |Preds(a.edges, v)| && outDeg[id] == |Succs(a.edges, v)|)
  }

  /** In-degree (issues depending on the node) and out-degree (issues it depends on), keyed by ID. */
  method Degrees(a: Analyzer) returns (inDeg: map<string, nat>, outDeg: map<string, nat>)
    requires forall v :: 0 <= v < a.n ==> v in a.nodeToID
    ensures DegreesOk(a, inDeg, outDeg)
  {
    inDeg, outDeg := map[], map[];
    for v := 0 to a.n
      invariant inDeg.Keys == outDeg.Keys
      invariant forall id :: id in inDeg <==> exists w :: 0 <= w < v && a.nodeToID[w] == id
      invariant forall id :: id in inDeg ==>
        exists w :: 0 <= w < v && a.nodeToID[w] == id && inDeg[id] == |Preds(a.edges, w)| && outDeg[id] == |Succs(a.edges, w)|
    {
      var id := a.nodeToID[v];
      inDeg := inDeg[id := |Preds(a.edges, v)|];
      outDeg := outDeg[id := |Succs(a.edges, v)|];
    }
  }

  /** When IDs are unique, each issue's degrees are those of its own node. */
  lemma DegreesOfUniqueIDs(issues: seq<Issue>, a: Analyzer, inDeg: map<string, nat>, outDeg: map<string, nat>, id: string)
    requires TablesOk(issues, a) && DegreesOk(a, inDeg, outDeg)
    requires forall i, j :: 0 <= i < |issues| && 0 <= j < |issues| && issues[i].id == issues[j].id ==> i == j
    requires id in a.idToNode
    ensures id in inDeg && inDeg[id] == |Preds(a.edges, a.idToNode[id])| && outDeg[id] == |Succs(a.edges, a.idToNode[id])|
  {
    var u := a.idToNode[id];
    assert a.nodeToID[u] == id;
    var v :| 0 <= v < a.n && v in a.nodeToID && a.nodeToID[v] == id && inDeg[id] == |Preds(a.edges, v)| && outDeg[id] == |Succs(a.edges, v)|;
    assert v == u;
  }

  // ---------------------------------------------------------------- topological order

  /** Every edge joins two of the `n` nodes. */
  predicate EdgesInRange(n: nat, edges: set<Edge>)
  {
    forall e :: e in edges ==> e.0 < n && e.1 < n
  }

  /** A listing of the nodes 0..n-1, each once, in which every edge u -> v has u first. */
  ghost predicate IsTopoOrder(n: nat, edges: set<Edge>, order: seq<nat>)
  {
    |order| == n &&
    (forall i :: 0 <= i < |order| ==> order[i] < n) &&
    (forall i, j :: 0 <= i < j < |order| ==> order[i] != order[j]) &&
    (forall v :: 0 <= v < n ==> v in order) &&
    (forall i, j :: 0 <= i < |order| && 0 <= j < |order| && (order[i], order[j]) in edges ==> i < j)
  }

  /** The execution order of `Analyze`: the sorted nodes' IDs, last first (prerequisites before dependents). */
  method ExecutionOrder(a: Analyzer, sorted: Option<seq<nat>>) returns (r: seq<string>)
    requires sorted.Some? ==> forall i :: 0 <= i < |sorted.value| ==> sorted.value[i] in a.nodeToID
    ensures sorted.None? ==> r == []
    ensures sorted.Some? ==> |r| == |sorted.value| &&
                             forall i :: 0 <= i < |r| ==> r[i] == a.nodeToID[sorted.value[|r| - 1 - i]]
  {
    r := [];
    if sorted.Some? {
      var order := sorted.value;
      var i := |order| - 1;
      while i >= 0
        invariant -1 <= i < |order|
        invariant |r| == |order| - 1 - i
        invariant forall j :: 0 <= j < |r| ==> r[j] == a.nodeToID[order[|order| - 1 - j]]
      {
        r := r + [a.nodeToID[order[i]]];
        i := i - 1;
      }
    }
  }

  /** In the execution order, an issue comes after every issue it depends on. */
  lemma PrerequisitesFirst(a: Analyzer, order: seq<nat>, i: nat, j: nat)
    requires IsTopoOrder(a.n, a.edges, order)
    requires i < |order| && j < |order| && (order[|order| - 1 - i], order[|order| - 1 - j]) in a.edges
    ensures j < i
  {
  }

  // ---------------------------------------------------------------- heights

  /**
   * The height equations: every node has a height of at least 1, at least one more than each
   * node with an edge into it, and exactly one more than the highest such node (1 if none).
   */
  ghost predicate HeightsOk(n: nat, edges: set<Edge>, heights: map<nat, nat>)
  {
    (forall v :: v in heights <==> 0 <= v < n) && Heights(edges, heights)
  }

  ghost predicate Heights(edges: set<Edge>, heights: map<nat, nat>)
  {
    (forall v :: v in heights ==> heights[v] >= 1) &&
    (forall e :: e in edges && e.0 in heights && e.1 in heights ==> heights[e.1] >= heights[e.0] + 1) &&
    (forall v :: v in heights && heights[v] > 1 ==> exists p :: (p, v) in edges && p in heights && heights[p] + 1 == heights[v])
  }

  /** The largest height among `ps` already computed, or 0. */
  method MaxParentHeight(heights: map<nat, nat>, ps: set<nat>) returns (m: nat)
    ensures forall p :: p in ps && p in heights ==> heights[p] <= m
    ensures m == 0 || exists p :: p in ps && p in heights && heights[p] == m
  {
    m := 0;
    var todo := ps;
    while todo != {}
      invariant todo <= ps
      invariant forall p :: p in ps && p !in todo && p in heights ==> heights[p] <= m
      invariant m == 0 || exists p :: p in ps && p in heights && heights[p] == m
      decreases |todo|
    {
      var p :| p in todo;
      if p in heights && heights[p] > m {
        m := heights[p];
      }
      todo := todo - {p};
    }
  }

  /** In a topological order, everything with an edge into a node listed before `i` is listed before `i`. */
  lemma PredsBefore(n: nat, edges: set<Edge>, order: seq<nat>, i: nat)
    requires IsTopoOrder(n, edges, order) && EdgesInRange(n, edges) && i <= |order|
    ensures forall e :: e in edges && e.1 in order[..i] ==> e.0 in order[..i]
  {
    forall e | e in edges && e.1 in order[..i] ensures e.0 in order[..i] {
      var j :| 0 <= j < i && order[j] == e.1;
      assert e.0 in order;
      var k :| 0 <= k < |order| && order[k] == e.0;
      assert k < j;
    }
  }

  /** Every edge into the node at position `i` of a topological order starts at an earlier position. */
  lemma PredsOfNext(n: nat, edges: set<Edge>, order: seq<nat>, i: nat)
    requires IsTopoOrder(n, edges, order) && EdgesInRange(n, edges) && i < |order|
    ensures order[i] !in order[..i]
    ensures forall e :: e in edges && e.1 == order[i] ==> e.0 in order[..i]
  {
    forall e | e in edges && e.1 == order[i] ensures e.0 in order[..i] {
      assert e.0 in order;
      var k :| 0 <= k < |order| && order[k] == e.0;
      assert k < i;
    }
  }

  lemma PredsOfEdges(edges: set<Edge>, v: nat, heights: map<nat, nat>, m: nat)
    requires forall p :: p in Preds(edges, v) && p in heights ==> heights[p] <= m
    requires m == 0 || exists p :: p in Preds(edges, v) && p in heights && heights[p] == m
    ensures forall e :: e in edges && e.1 == v && e.0 in heights ==> heights[e.0] <= m
    ensures m == 0 || exists p :: (p, v) in edges && p in heights && heights[p] == m
  {
    forall e | e in edges && e.1 == v && e.0 in heights ensures heights[e.0] <= m {
      assert e.0 in Preds(edges, v);
    }
    if m != 0 {
      var p :| p in Preds(edges, v) && p in heights && heights[p] == m;
      var e :| e in edges && e.1 == v && e.0 == p;
    }
  }

  /** Setting node `v`'s height to one more than its highest parent keeps the equations. */
  lemma HeightStep(edges: set<Edge>, heights: map<nat, nat>, v: nat, m: nat)
    requires Heights(edges, heights) && v !in heights
    requires forall e :: e in edges && e.1 in heights ==> e.0 in heights
    requires forall e :: e in edges && e.1 == v ==> e.0 in heights
    requires forall e :: e in edges && e.1 == v && e.0 in heights ==> heights[e.0] <= m
    requires m == 0 || exists p :: (p, v) in edges && p in heights && heights[p] == m
    ensures Heights(edges, heights[v := 1 + m])
  {
    HeightStepEdges(edges, heights, v, m);
    HeightStepParents(edges, heights, v, m);
  }

  /** Every edge still climbs by at least one once `v` sits above all its parents. */
  lemma HeightStepEdges(edges: set<Edge>, heights: map<nat, nat>, v: nat, m: nat)
    requires Heights(edges, heights) && v !in heights
    requires forall e :: e in edges && e.1 in heights ==> e.0 in heights
    requires forall e :: e in edges && e.1 == v ==> e.0 in heights
    requires forall e :: e in edges && e.1 == v && e.0 in heights ==> heights[e.0] <= m
    ensures var h := heights[v := 1 + m];
      forall e :: e in edges && e.0 in h && e.1 in h ==> h[e.1] >= h[e.0] + 1
  {
    var h := heights[v := 1 + m];
    forall e | e in edges && e.0 in h && e.1 in h ensures h[e.1] >= h[e.0] + 1 {
      if e.1 == v {
        assert e.0 in heights && heights[e.0] <= m;
      } else {
        assert e.1 in heights && e.0 in heights;
        assert h[e.0] == heights[e.0] && h[e.1] == heights[e.1];
      }
    }
  }

  /** Every height above 1, `v`'s included, is still one more than some parent's. */
  lemma HeightStepParents(edges: set<Edge>, heights: map<nat, nat>, v: nat, m: nat)
    requires Heights(edges, heights) && v !in heights
    requires m == 0 || exists p :: (p, v) in edges && p in heights && heights[p] == m
    ensures var h := heights[v := 1 + m];
      forall w :: w in h && h[w] > 1 ==> exists p :: (p, w) in edges && p in h && h[p] + 1 == h[w]
  {
    var h := heights[v := 1 + m];
    forall w | w in h && h[w] > 1 ensures exists p :: (p, w) in edges && p in h && h[p] + 1 == h[w] {
      if w == v {
        var p :| (p, v) in edges && p in heights && heights[p] == m;
        assert p in h && h[p] + 1 == h[w];
      } else {
        var p :| (p, w) in edges && p in heights && heights[p] + 1 == heights[w];
        assert p in h && h[p] + 1 == h[w];
      }
    }
  }

  /** The impact height of every node, one pass along a topological order. */
  method ComputeHeights(a: Analyzer, order: seq<nat>) returns (heights: map<nat, nat>)
    requires IsTopoOrder(a.n, a.edges, order) && EdgesInRange(a.n, a.edges)
    ensures HeightsOk(a.n, a.edges, heights)
  {
    heights := map[];
    for i := 0 to |order|
      invariant forall v :: v in heights <==> v in order[..i]
      invariant Heights(a.edges, heights)
    {
      var v := order[i];
      PredsBefore(a.n, a.edges, order, i);
      PredsOfNext(a.n, a.edges, order, i);
      assert order[..i + 1] == order[..i] + [v];
      var m := MaxParentHeight(heights, Preds(a.edges, v));
      PredsOfEdges(a.edges, v, heights, m);
      HeightStep(a.edges, heights, v, m);
      heights := heights[v := 1 + m];
    }
    assert order[..|order|] == order;
  }

  /** Heights keyed by issue ID (the node visited last wins for a repeated ID). */
  method HeightScores(a: Analyzer, order: seq<nat>, heights: map<nat, nat>) returns (scores: map<string, nat>)
    requires forall i :: 0 <= i < |order| ==> order[i] in a.nodeToID && order[i] in heights
    ensures forall id :: id in scores <==> exists i :: 0 <= i < |order| && a.nodeToID[order[i]] == id
    ensures forall id :: id in scores ==> exists i :: 0 <= i < |order| && a.nodeToID[order[i]] == id && scores[id] == heights[order[i]]
  {
    scores := map[];
    for i := 0 to |order|
      invariant forall id :: id in scores <==> exists j :: 0 <= j < i && a.nodeToID[order[j]] == id
      invariant forall id :: id in scores ==> exists j :: 0 <= j < i && a.nodeToID[order[j]] == id && scores[id] == heights[order[j]]
    {
      var v := order[i];
      scores := scores[a.nodeToID[v] := heights[v]];
    }
  }

  /**
   * The critical-path scores of `Analyze`: empty when the topological sort reports a cycle,
   * otherwise the height of each node keyed by its issue ID.
   */
  method CriticalPathScore(a: Analyzer, sorted: Option<seq<nat>>) returns (scores: map<string, nat>, heights: map<nat, nat>)
    requires forall v :: 0 <= v < a.n ==> v in a.nodeToID
    requires EdgesInRange(a.n, a.edges)
    requires sorted.Some? ==> IsTopoOrder(a.n, a.edges, sorted.value)
    ensures sorted.None? ==> scores == map[]
    ensures sorted.Some? ==>
              HeightsOk(a.n, a.edges, heights) &&
              (forall id :: id in scores <==> exists v :: 0 <= v < a.n && a.nodeToID[v] == id) &&
              (forall id :: id in scores ==> exists v :: 0 <= v < a.n && a.nodeToID[v] == id && scores[id] == heights[v])
  {
    if sorted.None? {
      return map[], map[];
    }
    var order := sorted.value;
    heights := ComputeHeights(a, order);
    scores := HeightScores(a, order, heights);
    forall id | (exists v :: 0 <= v < a.n && a.nodeToID[v] == id) ensures id in scores {
      var v :| 0 <= v < a.n && a.nodeToID[v] == id;
      assert v in order;
      var i :| 0 <= i < |order| && order[i] == v;
    }
  }

  // ---------------------------------------------------------------- heights are longest chains

  /** `p` follows edges: each issue of it depends on the next. */
  ghost predicate IsChain(edges: set<Edge>, p: seq<nat>)
  {
    |p| >= 1 && forall i :: 0 <= i < |p| - 1 ==> (p[i], p[i + 1]) in edges
  }

  /** No chain ending at a node is longer than its height. */
  lemma {:induction false} ChainBound(n: nat, edges: set<Edge>, heights: map<nat, nat>, p: seq<nat>)
    requires HeightsOk(n, edges, heights) && EdgesInRange(n, edges)
    requires IsChain(edges, p) && p[|p| - 1] < n
    ensures |p| <= heights[p[|p| - 1]]
  {
    if |p| > 1 {
      var q := p[..|p| - 1];
      assert IsChain(edges, q) by {
        forall i | 0 <= i < |q| - 1 ensures (q[i], q[i + 1]) in edges {
          assert (p[i], p[i + 1]) in edges;
        }
      }
      assert (q[|q| - 1], p[|p| - 1]) in edges;
      ChainBound(n, edges, heights, q);
    }
  }

  /** Some chain ending at a node is exactly as long as its height. */
  lemma {:induction false} ChainAttained(n: nat, edges: set<Edge>, heights: map<nat, nat>, v: nat)
    requires HeightsOk(n, edges, heights) && v < n
    ensures exists p :: IsChain(edges, p) && p[|p| - 1] == v && |p| == heights[v]
    decreases heights[v]
  {
    if heights[v] > 1 {
      var u :| (u, v) in edges && u in heights && heights[u] + 1 == heights[v];
      ChainAttained(n, edges, heights, u);
      var q :| IsChain(edges, q) && q[|q| - 1] == u && |q| == heights[u];
      var p := q + [v];
      assert IsChain(edges, p) by {
        forall i | 0 <= i < |p| - 1 ensures (p[i], p[i + 1]) in edges {
          if i < |q| - 1 {
            assert (q[i], q[i + 1]) in edges;
          }
        }
      }
      assert p[|p| - 1] == v;
    } else {
      assert IsChain(edges, [v]);
    }
  }

  /** The heights do not depend on which topological order was followed. */
  lemma HeightsUnique(n: nat, edges: set<Edge>, h1: map<nat, nat>, h2: map<nat, nat>)
    requires EdgesInRange(n, edges) && HeightsOk(n, edges, h1) && HeightsOk(n, edges, h2)
    ensures h1 == h2
  {
    forall v: nat | v < n ensures h1[v] == h2[v] {
      ChainAttained(n, edges, h1, v);
      var p :| IsChain(edges, p) && p[|p| - 1] == v && |p| == h1[v];
      ChainBound(n, edges, h2, p);
      ChainAttained(n, edges, h2, v);
      var q :| IsChain(edges, q) && q[|q| - 1] == v && |q| == h2[v];
      ChainBound(n, edges, h1, q);
    }
    assert h1.Keys == h2.Keys;
  }
}
