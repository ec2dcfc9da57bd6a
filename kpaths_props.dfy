/** What the k critical paths result promises, proved about the result the table determines. */
module KPathsProperties {
  import opened Wrappers
  import opened DiGraph
  import opened Ranking
  import opened KPaths

  lemma TopKRanked(dist: seq<nat>, k: nat)
    ensures Ranked(TopK(dist, k)) && Ranked(Sinks(dist, k))
    ensures |TopK(dist, k)| == Min(k, |dist|)
    ensures forall c :: c in TopK(dist, k) ==> 0 <= c.node < |dist| && c.key == dist[c.node]
  {
    RankedCandidates(dist);
    var s := SortDesc(Candidates(dist));
    assert TopK(dist, k) == s[..|TopK(dist, k)|];
    FilterRanked(TopK(dist, k), PositiveKey);
  }

  /** Cutting to k before dropping distance-0 nodes selects the same nodes as dropping them first. */
  lemma TruncateBeforeFilter(dist: seq<nat>, k: nat)
    ensures Sinks(dist, k) == Take(Filter(SortDesc(Candidates(dist)), PositiveKey), k)
  {
    RankedCandidates(dist);
    RankedKeysDescending(SortDesc(Candidates(dist)));
    TakeFilterCommute(SortDesc(Candidates(dist)), k);
  }

  /**
   * Every returned path is a path of the graph that starts at a node with no `pred`, ends at
   * its own sink, has `length == nodes.len() == dist[sink] + 1 >= 2`, and is a longest path into
   * that sink. There are at most k of them and `total_nodes` is the node count.
   */
  lemma KPathsAreLongestPaths(g: Graph, dist: seq<nat>, pred: seq<Option<nat>>, k: nat)
    requires LongestPathTable(g, dist, pred)
    ensures var r := KPathsOf(g, dist, pred, k);
      r.totalNodes == g.n && |r.paths| <= k &&
      forall i :: 0 <= i < |r.paths| ==>
        var ns := r.paths[i].nodes;
        IsPath(g, ns) && r.paths[i].length == |ns| >= 2 && pred[ns[0]] == None &&
        |ns| == dist[ns[|ns| - 1]] + 1 &&
        forall p :: IsPath(g, p) && p[|p| - 1] == ns[|ns| - 1] ==> |p| <= |ns|
  {
    TopKRanked(dist, k);
    var sinks := Sinks(dist, k);
    var r := KPathsOf(g, dist, pred, k);
    forall i | 0 <= i < |r.paths|
      ensures var ns := r.paths[i].nodes;
        IsPath(g, ns) && r.paths[i].length == |ns| >= 2 && pred[ns[0]] == None &&
        |ns| == dist[ns[|ns| - 1]] + 1 &&
        forall p :: IsPath(g, p) && p[|p| - 1] == ns[|ns| - 1] ==> |p| <= |ns|
    {
      assert sinks[i] in sinks;
      var v := sinks[i].node;
      PathsForAt(g, dist, pred, sinks, i);
      ChainIsPath(g, dist, pred, v);
      forall p | IsPath(g, p) && p[|p| - 1] == v ensures |p| <= |ChainTo(g, dist, pred, v)| {
        ChainIsLongest(g, dist, pred, v, p);
      }
    }
  }

  /** `a` goes before `b`: longer first; equal lengths in ascending order of their end node. */
  predicate InOrder(a: CriticalPath, b: CriticalPath)
  {
    |a.nodes| > 0 && |b.nodes| > 0 &&
    (a.length > b.length || (a.length == b.length && a.nodes[|a.nodes| - 1] < b.nodes[|b.nodes| - 1]))
  }

  predicate PathsOrdered(ps: seq<CriticalPath>)
  {
    forall i, j :: 0 <= i < j < |ps| ==> InOrder(ps[i], ps[j])
  }

  /**
   * Paths come out in non-increasing length; paths of equal length come in ascending order
   * of their end node.
   */
  lemma KPathsOrdered(g: Graph, dist: seq<nat>, pred: seq<Option<nat>>, k: nat)
    requires LongestPathTable(g, dist, pred)
    ensures PathsOrdered(KPathsOf(g, dist, pred, k).paths)
  {
    var ps := KPathsOf(g, dist, pred, k).paths;
    forall i, j | 0 <= i < j < |ps| ensures InOrder(ps[i], ps[j]) {
      PathsPairOrdered(g, dist, pred, k, i, j);
    }
  }

  /** Two paths compare as their sinks do. */
  lemma PathsPairOrdered(g: Graph, dist: seq<nat>, pred: seq<Option<nat>>, k: nat, i: nat, j: nat)
    requires LongestPathTable(g, dist, pred) && i < j < |KPathsOf(g, dist, pred, k).paths|
    ensures InOrder(KPathsOf(g, dist, pred, k).paths[i], KPathsOf(g, dist, pred, k).paths[j])
  {
    TopKRanked(dist, k);
    var sinks := Sinks(dist, k);
    var ps := KPathsOf(g, dist, pred, k).paths;
    assert |ps| == |sinks|;
    PathEnd(g, dist, pred, k, i);
    PathEnd(g, dist, pred, k, j);
    assert Before(sinks[i], sinks[j]);
  }

  /** The i-th path ends at the i-th sink and has its distance plus one nodes. */
  lemma PathEnd(g: Graph, dist: seq<nat>, pred: seq<Option<nat>>, k: nat, i: nat)
    requires LongestPathTable(g, dist, pred) && i < |Sinks(dist, k)|
    ensures var ps := KPathsOf(g, dist, pred, k).paths; var s := Sinks(dist, k)[i];
      i < |ps| && |ps[i].nodes| > 0 && ps[i].nodes[|ps[i].nodes| - 1] == s.node && ps[i].length == s.key + 1
  {
    TopKRanked(dist, k);
    var sinks := Sinks(dist, k);
    assert sinks[i] in sinks;
    assert sinks[i] in TopK(dist, k);
    PathsForAt(g, dist, pred, sinks, i);
  }

  /**
   * For k >= 1 and a non-empty graph, `max_length` is the number of nodes on a longest path of
   * the whole graph (the top candidate's dist + 1, whether or not that candidate yields a path);
   * for k = 0 it is 0 and there are no paths.
   */
  lemma MaxLengthIsLongestPath(g: Graph, dist: seq<nat>, pred: seq<Option<nat>>, k: nat)
    requires LongestPathTable(g, dist, pred)
    ensures k == 0 ==> KPathsOf(g, dist, pred, k) == KPathsResult([], g.n, 0)
    ensures k > 0 && g.n > 0 ==>
      var m := KPathsOf(g, dist, pred, k).maxLength;
      (forall p :: IsPath(g, p) ==> |p| <= m) &&
      (exists v :: 0 <= v < g.n && |ChainTo(g, dist, pred, v)| == m)
  {
    TopKRanked(dist, k);
    if k > 0 && g.n > 0 {
      RankedCandidates(dist);
      var s := SortDesc(Candidates(dist));
      var top := s[0];
      assert top == TopK(dist, k)[0];
      assert top in s;
      var m := KPathsOf(g, dist, pred, k).maxLength;
      assert m == dist[top.node] + 1;
      forall p | IsPath(g, p) ensures |p| <= m {
        var v := p[|p| - 1];
        PathBound(g, dist, pred, p);
        assert Candidates(dist)[v] == Scored(v, dist[v]);
        assert Scored(v, dist[v]) in multiset(Candidates(dist));
        assert Scored(v, dist[v]) in s;
        var j :| 0 <= j < |s| && s[j] == Scored(v, dist[v]);
        if j > 0 { assert Before(s[0], s[j]); }
      }
      assert |ChainTo(g, dist, pred, top.node)| == m;
    }
  }

  function SingleEdge(): Graph { Graph(2, [[1], []], [[], [0]]) }

  lemma SingleEdgeTable()
    ensures Valid(SingleEdge()) && LongestPathTable(SingleEdge(), [0, 1], [None, Some(0)])
  {
    var g := SingleEdge();
    var dist: seq<nat>, pred: seq<Option<nat>> := [0, 1], [None, Some(0)];
    assert Valid(g);
    assert Settled(g, dist, pred, 1) by {
      assert g.pred[1][0] == 0;
    }
    assert Settled(g, dist, pred, 0);
  }

  lemma SingleEdgeSinks()
    ensures Sinks([0, 1], 5) == [Scored(1, 1)] && MaxLengthOf([0, 1], 5) == 2
  {
    var cs := Candidates([0, 1]);
    assert cs == [Scored(0, 0), Scored(1, 1)];
    assert cs[1..] == [Scored(1, 1)];
    assert [Scored(1, 1)][1..] == [];
    assert SortDesc([Scored(1, 1)]) == [Scored(1, 1)];
    assert SortDesc(cs) == [Scored(1, 1), Scored(0, 0)];
    assert TopK([0, 1], 5) == [Scored(1, 1), Scored(0, 0)];
    assert [Scored(1, 1), Scored(0, 0)][1..] == [Scored(0, 0)];
    assert [Scored(0, 0)][1..] == [];
  }

  lemma SingleEdgeChain()
    ensures LongestPathTable(SingleEdge(), [0, 1], [None, Some(0)])
    ensures ChainTo(SingleEdge(), [0, 1], [None, Some(0)], 1) == [0, 1]
  {
    var g := SingleEdge();
    var dist: seq<nat>, pred: seq<Option<nat>> := [0, 1], [None, Some(0)];
    SingleEdgeTable();
    assert ChainTo(g, dist, pred, 0) == [0];
  }

  /** Single edge 0 -> 1: one path [0, 1] of length 2, and max_length 2. */
  lemma SingleEdgeExample()
    ensures LongestPathTable(SingleEdge(), [0, 1], [None, Some(0)])
    ensures KPathsOf(SingleEdge(), [0, 1], [None, Some(0)], 5) == KPathsResult([CriticalPath([0, 1], 2)], 2, 2)
  {
    var g := SingleEdge();
    var dist: seq<nat>, pred: seq<Option<nat>> := [0, 1], [None, Some(0)];
    SingleEdgeChain();
    SingleEdgeSinks();
    assert [Scored(1, 1)][1..] == [];
    assert PathsFor(g, dist, pred, [Scored(1, 1)]) == [CriticalPath([0, 1], 2)];
  }
}
