/**
 * The directed dependency graph the two graph algorithms consume, given only by contract:
 * nodes are 0..n-1, `succ[u]` lists the successors of u and `pred[v]` the predecessors of v,
 * and the two views agree. A topological sort is supplied from outside as an `Option`:
 * `None` stands for the cycle case, `Some(order)` for an order that respects every edge.
 */
module DiGraph {

  datatype Graph = Graph(n: nat, succ: seq<seq<nat>>, pred: seq<seq<nat>>)

  predicate Valid(g: Graph)
  {
    |g.succ| == g.n && |g.pred| == g.n &&
    (forall u, i :: 0 <= u < g.n && 0 <= i < |g.succ[u]| ==> g.succ[u][i] < g.n) &&
    (forall v, i :: 0 <= v < g.n && 0 <= i < |g.pred[v]| ==> g.pred[v][i] < g.n) &&
    (forall u, v :: 0 <= u < g.n && 0 <= v < g.n ==> (v in g.succ[u] <==> u in g.pred[v]))
  }

  /** A non-empty walk along edges: each node is a predecessor of the next one. */
  predicate IsPath(g: Graph, p: seq<nat>)
    requires Valid(g)
  {
    |p| >= 1 &&
    (forall i :: 0 <= i < |p| ==> p[i] < g.n) &&
    (forall i :: 0 <= i < |p| - 1 ==> p[i] in g.pred[p[i + 1]])
  }

  /** A permutation of 0..n-1 in which every edge u->v has u before v. */
  predicate IsTopologicalOrder(g: Graph, order: seq<nat>)
    requires Valid(g)
  {
    |order| == g.n &&
    (forall i :: 0 <= i < |order| ==> order[i] < g.n) &&
    (forall i, j :: 0 <= i < j < |order| ==> order[i] != order[j]) &&
    (forall v :: 0 <= v < g.n ==> v in order) &&
    (forall i, j :: 0 <= i < |order| && 0 <= j < |order| && order[j] in g.pred[order[i]] ==> j < i)
  }

  /** In a topological order, every predecessor of the node at position i sits at an earlier position. */
  lemma PredecessorEarlier(g: Graph, order: seq<nat>, i: nat, u: nat)
    requires Valid(g) && IsTopologicalOrder(g, order)
    requires i < |order| && u in g.pred[order[i]]
    ensures exists j :: 0 <= j < i && order[j] == u
  {
    var v := order[i];
    var k :| 0 <= k < |g.pred[v]| && g.pred[v][k] == u;
    assert u < g.n;
    assert u in order;
    var j :| 0 <= j < |order| && order[j] == u;
    assert j < i;
  }

  /** A graph that has a topological order has no self-loop. */
  lemma NoSelfLoop(g: Graph, order: seq<nat>, v: nat)
    requires Valid(g) && IsTopologicalOrder(g, order) && v < g.n
    ensures v !in g.pred[v]
  {
    assert v in order;
    var i :| 0 <= i < |order| && order[i] == v;
  }
}
