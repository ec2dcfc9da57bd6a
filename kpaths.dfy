/**
 * k critical paths over a dependency DAG: a longest-path dynamic programme along a
 * topological order fills `dist` (edges on the longest path ending at each node) and
 * `pred` (the predecessor that path arrives from); nodes are ranked by `dist`, the ranking
 * is cut to k, nodes with distance 0 are dropped, and one path is rebuilt per remaining
 * node by walking `pred` back to a node that has none.
 */
module KPaths {
  import opened Wrappers
  import opened DiGraph
  import opened Ranking

  datatype CriticalPath = CriticalPath(nodes: seq<nat>, length: nat)

  datatype KPathsResult = KPathsResult(paths: seq<CriticalPath>, totalNodes: nat, maxLength: nat)

  const DefaultK: nat := 5

  /** Node v is finished in the table: it is at least one edge past each of its predecessors,
    * it has a `pred` exactly when its distance is positive, and that `pred` is the first
    * predecessor in slice order that realises the distance. */
  predicate Settled(g: Graph, dist: seq<nat>, pred: seq<Option<nat>>, v: nat)
    requires Valid(g) && |dist| == g.n && |pred| == g.n && v < g.n
  {
    (forall i :: 0 <= i < |g.pred[v]| ==> dist[g.pred[v][i]] + 1 <= dist[v]) &&
    (pred[v].Some? <==> dist[v] > 0) &&
    (pred[v].Some? ==>
      exists q :: 0 <= q < |g.pred[v]| && g.pred[v][q] == pred[v].value &&
        dist[v] == dist[g.pred[v][q]] + 1 &&
        forall q' :: 0 <= q' < q ==> dist[g.pred[v][q']] + 1 < dist[v])
  }

  /** The table the dynamic programme leaves behind. */
  predicate LongestPathTable(g: Graph, dist: seq<nat>, pred: seq<Option<nat>>)
  {
    Valid(g) && |dist| == g.n && |pred| == g.n &&
    forall v :: 0 <= v < g.n ==> Settled(g, dist, pred, v)
  }

  lemma PredStep(g: Graph, dist: seq<nat>, pred: seq<Option<nat>>, v: nat)
    requires LongestPathTable(g, dist, pred) && v < g.n && pred[v].Some?
    ensures pred[v].value < g.n && pred[v].value in g.pred[v]
    ensures dist[v] == dist[pred[v].value] + 1
  {
    assert Settled(g, dist, pred, v);
    var q :| 0 <= q < |g.pred[v]| && g.pred[v][q] == pred[v].value &&
      dist[v] == dist[g.pred[v][q]] + 1 &&
      forall q' :: 0 <= q' < q ==> dist[g.pred[v][q']] + 1 < dist[v];
  }

  /** Settledness of w only depends on the entries of w and of its predecessors. */
  lemma SettledFrame(g: Graph, d0: seq<nat>, p0: seq<Option<nat>>, d1: seq<nat>, p1: seq<Option<nat>>, w: nat)
    requires Valid(g) && |d0| == |d1| == |p0| == |p1| == g.n && w < g.n
    requires Settled(g, d0, p0, w)
    requires d1[w] == d0[w] && p1[w] == p0[w]
    requires forall x :: x in g.pred[w] ==> d1[x] == d0[x]
    ensures Settled(g, d1, p1, w)
  {
    assert forall k :: 0 <= k < |g.pred[w]| ==> g.pred[w][k] in g.pred[w];
  }

  /**
   * Relaxes node v over its predecessors in slice order, moving to a predecessor only when
   * it gives a strictly longer path, as the inner loop of the programme does.
   */
  method Relax(g: Graph, d: array<nat>, p: array<Option<nat>>, v: nat)
    requires Valid(g) && d.Length == g.n && p.Length == g.n && v < g.n
    requires d[v] == 0 && p[v] == None && v !in g.pred[v]
    modifies d, p
    ensures forall w :: 0 <= w < g.n && w != v ==> d[w] == old(d[w]) && p[w] == old(p[w])
    ensures Settled(g, d[..], p[..], v)
  {
    var preds := g.pred[v];
    for j := 0 to |preds|
      invariant forall w :: 0 <= w < g.n && w != v ==> d[w] == old(d[w]) && p[w] == old(p[w])
      invariant forall q :: 0 <= q < j ==> d[preds[q]] + 1 <= d[v]
      invariant p[v].Some? <==> d[v] > 0
      invariant p[v].Some? ==>
        exists q :: 0 <= q < j && preds[q] == p[v].value && d[v] == d[preds[q]] + 1 &&
          forall q' :: 0 <= q' < q ==> d[preds[q']] + 1 < d[v]
    {
      var u := preds[j];
      assert u in preds;
      if d[u] + 1 > d[v] {
        d[v] := d[u] + 1;
        p[v] := Some(u);
        assert forall q :: 0 <= q < j ==> preds[q] in preds;
      }
    }
  }

  /**
   * The longest-path dynamic programme: each node of the topological order is relaxed over
   * its predecessors, all of which come earlier in the order and are therefore final.
   */
  method LongestPaths(g: Graph, order: seq<nat>) returns (dist: seq<nat>, pred: seq<Option<nat>>)
    requires Valid(g) && IsTopologicalOrder(g, order)
    ensures LongestPathTable(g, dist, pred)
  {
    var d := new nat[g.n](_ => 0);
    var p := new Option<nat>[g.n](_ => None);
    ghost var done: set<nat> := {};
    for i := 0 to |order|
      invariant done == set j | 0 <= j < i :: order[j]
      invariant forall v :: 0 <= v < g.n && v !in done ==> d[v] == 0 && p[v] == None
      invariant forall v :: v in done ==> v < g.n && Settled(g, d[..], p[..], v)
    {
      var v := order[i];
      assert v !in done;
      NoSelfLoop(g, order, v);
      ghost var d0, p0 := d[..], p[..];
      Relax(g, d, p, v);
      forall w | w in done ensures Settled(g, d[..], p[..], w) {
        forall x | x in g.pred[w] ensures x != v {
          var iw :| 0 <= iw < i && order[iw] == w;
          PredecessorEarlier(g, order, iw, x);
        }
        SettledFrame(g, d0, p0, d[..], p[..], w);
      }
      done := done + {v};
    }
    forall v | 0 <= v < g.n ensures v in done {
      assert v in order;
    }
    dist, pred := d[..], p[..];
  }

  /** Every path ending at v has at most dist[v] edges. */
  lemma {:induction false} PathBound(g: Graph, dist: seq<nat>, pred: seq<Option<nat>>, p: seq<nat>)
    requires LongestPathTable(g, dist, pred) && IsPath(g, p)
    ensures |p| - 1 <= dist[p[|p| - 1]]
  {
    if |p| > 1 {
      var q := p[..|p| - 1];
      assert IsPath(g, q);
      PathBound(g, dist, pred, q);
      var u, v := p[|p| - 2], p[|p| - 1];
      assert Settled(g, dist, pred, v);
      var k :| 0 <= k < |g.pred[v]| && g.pred[v][k] == u;
    }
  }

  /** The nodes met walking `pred` back from v, listed from the start of the path to v. */
  function ChainTo(g: Graph, dist: seq<nat>, pred: seq<Option<nat>>, v: nat): (r: seq<nat>)
    requires LongestPathTable(g, dist, pred) && v < g.n
    ensures |r| == dist[v] + 1 && r[|r| - 1] == v
    decreases dist[v]
  {
    assert Settled(g, dist, pred, v);
    if pred[v].None? then [v]
    else
      PredStep(g, dist, pred, v);
      ChainTo(g, dist, pred, pred[v].value) + [v]
  }

  /** The chain is a path of the graph that starts at a node without `pred`. */
  lemma {:induction false} ChainIsPath(g: Graph, dist: seq<nat>, pred: seq<Option<nat>>, v: nat)
    requires LongestPathTable(g, dist, pred) && v < g.n
    ensures IsPath(g, ChainTo(g, dist, pred, v))
    ensures pred[ChainTo(g, dist, pred, v)[0]] == None
    decreases dist[v]
  {
    assert Settled(g, dist, pred, v);
    if pred[v].Some? {
      var u := pred[v].value;
      PredStep(g, dist, pred, v);
      ChainIsPath(g, dist, pred, u);
      var c := ChainTo(g, dist, pred, u);
      assert ChainTo(g, dist, pred, v) == c + [v];
    }
  }

  /** The rebuilt chain is a longest path into v: no path ending at v has more nodes. */
  lemma ChainIsLongest(g: Graph, dist: seq<nat>, pred: seq<Option<nat>>, v: nat, p: seq<nat>)
    requires LongestPathTable(g, dist, pred) && v < g.n
    requires IsPath(g, p) && p[|p| - 1] == v
    ensures |p| <= |ChainTo(g, dist, pred, v)|
  {
    PathBound(g, dist, pred, p);
  }

  function Reverse(s: seq<nat>): (r: seq<nat>)
    ensures |r| == |s|
    ensures forall i :: 0 <= i < |s| ==> r[i] == s[|s| - 1 - i]
  {
    if s == [] then [] else Reverse(s[1..]) + [s[0]]
  }

  lemma ReversePush(path: seq<nat>, x: nat)
    ensures Reverse(path + [x]) == [x] + Reverse(path)
  {
  }

  /** One backward step of the rebuild keeps the rebuilt suffix aligned with the chain into the sink. */
  lemma RebuildStep(g: Graph, dist: seq<nat>, pred: seq<Option<nat>>, sink: nat, path: seq<nat>, curr: nat)
    requires LongestPathTable(g, dist, pred) && sink < g.n && curr < g.n && pred[curr].Some?
    requires ChainTo(g, dist, pred, curr)[..dist[curr]] + Reverse(path) == ChainTo(g, dist, pred, sink)
    ensures pred[curr].value < g.n
    ensures ChainTo(g, dist, pred, pred[curr].value)[..dist[pred[curr].value]] + Reverse(path + [pred[curr].value])
      == ChainTo(g, dist, pred, sink)
  {
    var p := pred[curr].value;
    PredStep(g, dist, pred, curr);
    var c, cp := ChainTo(g, dist, pred, curr), ChainTo(g, dist, pred, p);
    assert c == cp + [curr];
    SpliceStep(c, cp, curr, p, path);
  }

  /** Moving the last node of the chain prefix onto the rebuilt suffix leaves their concatenation unchanged. */
  lemma SpliceStep(c: seq<nat>, cp: seq<nat>, curr: nat, p: nat, path: seq<nat>)
    requires c == cp + [curr] && |cp| > 0 && cp[|cp| - 1] == p
    ensures cp[..|cp| - 1] + Reverse(path + [p]) == c[..|cp|] + Reverse(path)
  {
    ReversePush(path, p);
    assert cp[..|cp| - 1] + [p] == cp == c[..|cp|];
    assert cp[..|cp| - 1] + ([p] + Reverse(path)) == (cp[..|cp| - 1] + [p]) + Reverse(path);
  }

  /** Rebuilds the path into `sink`: push predecessors while there are any, then reverse. */
  method RebuildPath(g: Graph, dist: seq<nat>, pred: seq<Option<nat>>, sink: nat) returns (nodes: seq<nat>)
    requires LongestPathTable(g, dist, pred) && sink < g.n
    ensures nodes == ChainTo(g, dist, pred, sink)
  {
    var path := [sink];
    var curr: nat := sink;
    ghost var full := ChainTo(g, dist, pred, sink);
    assert full[..dist[sink]] + [sink] == full;
    while pred[curr].Some?
      invariant curr < g.n
      invariant ChainTo(g, dist, pred, curr)[..dist[curr]] + Reverse(path) == full
      decreases dist[curr]
    {
      var p := pred[curr].value;
      RebuildStep(g, dist, pred, sink, path, curr);
      PredStep(g, dist, pred, curr);
      path := path + [p];
      curr := p;
    }
    assert Settled(g, dist, pred, curr);
    nodes := Reverse(path);
  }

  /** (v, dist[v]) for v in 0..n, in node order. */
  function Candidates(dist: seq<nat>): (r: seq<Scored>)
    ensures |r| == |dist| && NodesAscending(r)
    ensures forall v :: 0 <= v < |dist| ==> r[v] == Scored(v, dist[v])
  {
    seq(|dist|, v requires 0 <= v < |dist| => Scored(v, dist[v]))
  }

  /** The candidates after the stable sort by distance, largest first, cut to k. */
  function TopK(dist: seq<nat>, k: nat): seq<Scored>
  {
    Take(SortDesc(Candidates(dist)), k)
  }

  /** The nodes a path is rebuilt for: the top k with distance 0 removed. */
  function Sinks(dist: seq<nat>, k: nat): seq<Scored>
  {
    Filter(TopK(dist, k), PositiveKey)
  }

  lemma RankedCandidates(dist: seq<nat>)
    ensures Ranked(SortDesc(Candidates(dist)))
    ensures |SortDesc(Candidates(dist))| == |dist|
    ensures forall c :: c in SortDesc(Candidates(dist)) ==> 0 <= c.node < |dist| && c.key == dist[c.node]
  {
    var cs := Candidates(dist);
    SortDescRanked(cs);
    forall c | c in SortDesc(cs) ensures 0 <= c.node < |dist| && c.key == dist[c.node] {
      assert c in multiset(SortDesc(cs));
      assert c in cs;
    }
  }

  /** The top candidate's distance + 1, or 0 when no candidate is left (k = 0). */
  function MaxLengthOf(dist: seq<nat>, k: nat): nat
  {
    RankedCandidates(dist);
    var top := TopK(dist, k);
    if top == [] then 0 else (assert top[0] in SortDesc(Candidates(dist)); top[0].key + 1)
  }

  /** The paths, one per sink, each rebuilt by walking `pred`. */
  function PathsFor(g: Graph, dist: seq<nat>, pred: seq<Option<nat>>, sinks: seq<Scored>): (r: seq<CriticalPath>)
    requires LongestPathTable(g, dist, pred)
    requires forall c :: c in sinks ==> c.node < g.n
    ensures |r| == |sinks|
    ensures forall p :: p in r ==> p.length == |p.nodes|
  {
    if sinks == [] then []
    else
      var nodes := ChainTo(g, dist, pred, sinks[0].node);
      [CriticalPath(nodes, |nodes|)] + PathsFor(g, dist, pred, sinks[1..])
  }

  /**
   * The result for a non-empty graph whose topological sort succeeded: `total_nodes = n`, at
   * most k paths, each as long as its node list, and nothing at all for k = 0.
   */
  function KPathsOf(g: Graph, dist: seq<nat>, pred: seq<Option<nat>>, k: nat): (r: KPathsResult)
    requires LongestPathTable(g, dist, pred)
    ensures r.totalNodes == g.n && |r.paths| <= k
    ensures forall p :: p in r.paths ==> p.length == |p.nodes|
    ensures k == 0 ==> r.paths == [] && r.maxLength == 0
  {
    RankedCandidates(dist);
    KPathsResult(PathsFor(g, dist, pred, Sinks(dist, k)), g.n, MaxLengthOf(dist, k))
  }

  lemma PathsForAppend(g: Graph, dist: seq<nat>, pred: seq<Option<nat>>, sinks: seq<Scored>, c: Scored)
    requires LongestPathTable(g, dist, pred)
    requires forall x :: x in sinks ==> x.node < g.n
    requires c.node < g.n
    ensures PathsFor(g, dist, pred, sinks + [c])
      == PathsFor(g, dist, pred, sinks) + [CriticalPath(ChainTo(g, dist, pred, c.node), |ChainTo(g, dist, pred, c.node)|)]
  {
    if sinks != [] {
      assert (sinks + [c])[1..] == sinks[1..] + [c];
      PathsForAppend(g, dist, pred, sinks[1..], c);
    }
  }

  lemma {:induction false} PathsForAt(g: Graph, dist: seq<nat>, pred: seq<Option<nat>>, sinks: seq<Scored>, i: nat)
    requires LongestPathTable(g, dist, pred)
    requires forall x :: x in sinks ==> x.node < g.n
    requires i < |sinks|
    ensures PathsFor(g, dist, pred, sinks)[i].nodes == ChainTo(g, dist, pred, sinks[i].node)
    ensures PathsFor(g, dist, pred, sinks)[i].length == |ChainTo(g, dist, pred, sinks[i].node)|
  {
    if i > 0 {
      PathsForAt(g, dist, pred, sinks[1..], i - 1);
    }
  }

  /** Rebuilds one path per sink, in sink order. */
  method RebuildAll(g: Graph, dist: seq<nat>, pred: seq<Option<nat>>, sinks: seq<Scored>) returns (paths: seq<CriticalPath>)
    requires LongestPathTable(g, dist, pred)
    requires forall c :: c in sinks ==> c.node < g.n
    ensures paths == PathsFor(g, dist, pred, sinks)
  {
    paths := [];
    for i := 0 to |sinks|
      invariant paths == PathsFor(g, dist, pred, sinks[..i])
    {
      assert sinks[i] in sinks;
      var nodes := RebuildPath(g, dist, pred, sinks[i].node);
      assert sinks[..i + 1] == sinks[..i] + [sinks[i]];
      PathsForAppend(g, dist, pred, sinks[..i], sinks[i]);
      paths := paths + [CriticalPath(nodes, |nodes|)];
    }
    assert sinks[..|sinks|] == sinks;
  }

  /**
   * k_critical_paths: an empty graph gives an empty result; a failed topological sort gives
   * no paths, `total_nodes = n` and `max_length = 0`; otherwise the result is the one the
   * longest-path table determines.
   */
  method KCriticalPaths(g: Graph, topo: Option<seq<nat>>, k: nat)
    returns (r: KPathsResult, ghost dist: seq<nat>, ghost pred: seq<Option<nat>>)
    requires Valid(g)
    requires topo.Some? ==> IsTopologicalOrder(g, topo.value)
    ensures g.n == 0 ==> r == KPathsResult([], 0, 0)
    ensures g.n > 0 && topo.None? ==> r == KPathsResult([], g.n, 0)
    ensures g.n > 0 && topo.Some? ==> LongestPathTable(g, dist, pred) && r == KPathsOf(g, dist, pred, k)
  {
    if g.n == 0 {
      return KPathsResult([], 0, 0), [], [];
    }
    if topo.None? {
      return KPathsResult([], g.n, 0), [], [];
    }
    var d, p := LongestPaths(g, topo.value);
    RankedCandidates(d);
    var candidates := SortDesc(Candidates(d));
    candidates := Take(candidates, k);
    var maxLength := MaxLengthOf(d, k);
    var sinks := Filter(candidates, PositiveKey);
    var paths := RebuildAll(g, d, p, sinks);
    r, dist, pred := KPathsResult(paths, g.n, maxLength), d, p;
  }

  /** k_critical_paths_default: k = 5. */
  method KCriticalPathsDefault(g: Graph, topo: Option<seq<nat>>)
    returns (r: KPathsResult, ghost dist: seq<nat>, ghost pred: seq<Option<nat>>)
    requires Valid(g)
    requires topo.Some? ==> IsTopologicalOrder(g, topo.value)
    ensures g.n == 0 ==> r == KPathsResult([], 0, 0)
    ensures g.n > 0 && topo.None? ==> r == KPathsResult([], g.n, 0)
    ensures g.n > 0 && topo.Some? ==> LongestPathTable(g, dist, pred) && r == KPathsOf(g, dist, pred, DefaultK)
  {
    r, dist, pred := KCriticalPaths(g, topo, DefaultK);
  }

  function NodeSeqs(paths: seq<CriticalPath>): (r: seq<seq<nat>>)
    ensures |r| == |paths| && forall i :: 0 <= i < |paths| ==> r[i] == paths[i].nodes
  {
    seq(|paths|, i requires 0 <= i < |paths| => paths[i].nodes)
  }

  /** k_path_nodes: just the node sequences of the k_critical_paths result. */
  method KPathNodes(g: Graph, topo: Option<seq<nat>>, k: nat)
    returns (nodes: seq<seq<nat>>, ghost dist: seq<nat>, ghost pred: seq<Option<nat>>)
    requires Valid(g)
    requires topo.Some? ==> IsTopologicalOrder(g, topo.value)
    ensures g.n == 0 || topo.None? ==> nodes == []
    ensures g.n > 0 && topo.Some? ==> LongestPathTable(g, dist, pred) && nodes == NodeSeqs(KPathsOf(g, dist, pred, k).paths)
  {
    var r;
    r, dist, pred := KCriticalPaths(g, topo, k);
    nodes := [];
    for i := 0 to |r.paths|
      invariant nodes == NodeSeqs(r.paths[..i])
    {
      nodes := nodes + [r.paths[i].nodes];
    }
    assert r.paths[..|r.paths|] == r.paths;
  }
}
