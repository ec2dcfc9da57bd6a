/**
 * Parallel-cut suggestions: for every open node v, the number of dependents w for which v is
 * the only open predecessor (completing v would make w actionable). The gain of v is that
 * number minus one; nodes with positive gain are ranked by gain and cut to a limit.
 * A node index at or past the end of the completion array counts as open.
 */
module ParallelCut {
  import opened Wrappers
  import opened DiGraph
  import opened Ranking

  datatype ParallelCutItem = ParallelCutItem(node: nat, parallelGain: int, newActionable: nat)

  datatype ParallelCutResult = ParallelCutResult(items: seq<ParallelCutItem>, openNodes: nat, currentActionable: nat)

  const DefaultLimit: nat := 10

  /** `closed_set.get(v).copied().unwrap_or(false)` */
  predicate IsClosed(closed: seq<bool>, v: nat)
  {
    v < |closed| && closed[v]
  }

  predicate IsOpen(closed: seq<bool>, v: nat)
  {
    !IsClosed(closed, v)
  }

  /** v is open and every predecessor of v is closed. */
  predicate Actionable(g: Graph, closed: seq<bool>, v: nat)
  {
    v < |g.pred| && IsOpen(closed, v) &&
    forall i :: 0 <= i < |g.pred[v]| ==> IsClosed(closed, g.pred[v][i])
  }

  /** w is open and every predecessor of w other than v is closed. */
  predicate SoleBlocker(g: Graph, closed: seq<bool>, v: nat, w: nat)
  {
    w < |g.pred| && IsOpen(closed, w) &&
    forall i :: 0 <= i < |g.pred[w]| && g.pred[w][i] != v ==> IsClosed(closed, g.pred[w][i])
  }

  function Range(n: nat): (r: seq<nat>)
    ensures |r| == n && forall i :: 0 <= i < n ==> r[i] == i
  {
    seq(n, i requires 0 <= i < n => i)
  }

  function OpenTest(closed: seq<bool>): nat -> bool
  {
    (v: nat) => IsOpen(closed, v)
  }

  function ActionableTest(g: Graph, closed: seq<bool>): nat -> bool
  {
    (v: nat) => Actionable(g, closed, v)
  }

  function OpenNodes(g: Graph, closed: seq<bool>): nat
  {
    CountWhere(Range(g.n), OpenTest(closed))
  }

  function CurrentActionable(g: Graph, closed: seq<bool>): nat
  {
    CountWhere(Range(g.n), ActionableTest(g, closed))
  }

  /** Counts successor entries (a repeated successor counts each time it is listed). */
  function NewActionable(g: Graph, closed: seq<bool>, v: nat): nat
    requires v < |g.succ|
  {
    CountWhere(g.succ[v], (w: nat) => SoleBlocker(g, closed, v, w))
  }

  /** (v, new_actionable(v)) for the open nodes v below m, in node order. */
  function UnblockCounts(g: Graph, closed: seq<bool>, m: nat): (r: seq<Scored>)
    requires m <= |g.succ|
    ensures NodesAscending(r)
    ensures forall c :: c in r ==> c.node < m && IsOpen(closed, c.node) && c.key == NewActionable(g, closed, c.node)
    ensures forall v :: 0 <= v < m && IsOpen(closed, v) ==> Scored(v, NewActionable(g, closed, v)) in r
  {
    if m == 0 then []
    else
      var v := m - 1;
      UnblockCounts(g, closed, v) + (if IsOpen(closed, v) then [Scored(v, NewActionable(g, closed, v))] else [])
  }

  /** (v, gain(v)) with gain(v) = new_actionable(v) - 1, for the open nodes v below m whose gain is positive, in node order. */
  function Gains(g: Graph, closed: seq<bool>, m: nat): (r: seq<Scored>)
    requires m <= |g.succ|
    ensures NodesAscending(r)
    ensures forall c :: c in r ==>
      c.node < m && IsOpen(closed, c.node) && c.key == NewActionable(g, closed, c.node) - 1 && c.key > 0
  {
    if m == 0 then []
    else
      var v := m - 1;
      var gain := NewActionable(g, closed, v) - 1;
      var prefix := Gains(g, closed, v);
      var last := if IsOpen(closed, v) && gain > 0 then [Scored(v, gain)] else [];
      prefix + last
  }

  /** Every open node below m with positive gain is listed. */
  lemma {:induction false} GainsComplete(g: Graph, closed: seq<bool>, m: nat, v: nat)
    requires m <= |g.succ| && v < m && IsOpen(closed, v) && NewActionable(g, closed, v) > 1
    ensures Scored(v, NewActionable(g, closed, v) - 1) in Gains(g, closed, m)
  {
    var prefix := Gains(g, closed, m - 1);
    assert prefix <= Gains(g, closed, m);
    if v < m - 1 {
      GainsComplete(g, closed, m - 1, v);
      assert Scored(v, NewActionable(g, closed, v) - 1) in prefix;
    }
  }

  function ToItem(c: Scored): ParallelCutItem
    requires c.key >= -1
  {
    ParallelCutItem(c.node, c.key, c.key + 1)
  }

  function ToItems(cs: seq<Scored>): (r: seq<ParallelCutItem>)
    requires forall c :: c in cs ==> c.key > 0
    ensures |r| == |cs| && forall i :: 0 <= i < |cs| ==> r[i] == ToItem(cs[i])
  {
    seq(|cs|, i requires 0 <= i < |cs| => ToItem(cs[i]))
  }

  /**
   * parallel_cut_suggestions: at most `limit` items, each an open node whose gain
   * (`new_actionable - 1`) is positive, with the open and currently actionable node counts.
   */
  function ParallelCutSuggestions(g: Graph, closed: seq<bool>, limit: nat): (r: ParallelCutResult)
    requires Valid(g)
    ensures |r.items| <= limit
    ensures forall it :: it in r.items ==>
              it.node < g.n && IsOpen(closed, it.node) &&
              it.newActionable == NewActionable(g, closed, it.node) && it.parallelGain == it.newActionable - 1 > 0
    ensures r.openNodes == OpenNodes(g, closed) && r.currentActionable == CurrentActionable(g, closed)
  {
    var ranked := SortDesc(Gains(g, closed, |g.succ|));
    SortDescMembers(Gains(g, closed, |g.succ|));
    var top := Take(ranked, limit);
    assert forall c :: c in top ==> c in ranked;
    ParallelCutResult(ToItems(top), OpenNodes(g, closed), CurrentActionable(g, closed))
  }

  /** parallel_cut_default: limit 10. */
  function ParallelCutDefault(g: Graph, closed: seq<bool>): (r: ParallelCutResult)
    requires Valid(g)
    ensures |r.items| <= 10 && r == ParallelCutSuggestions(g, closed, DefaultLimit)
  {
    ParallelCutSuggestions(g, closed, DefaultLimit)
  }

  /**
   * unblock_ranking: every open node with its count, no gain filter, ranked and cut to
   * `limit`; (node, count) pairs as Scored.
   */
  function UnblockRanking(g: Graph, closed: seq<bool>, limit: nat): (r: seq<Scored>)
    requires Valid(g)
    ensures |r| <= limit && Ranked(r)
    ensures forall c :: c in r ==> c.node < g.n && IsOpen(closed, c.node) && c.key == NewActionable(g, closed, c.node)
  {
    var counts := UnblockCounts(g, closed, |g.succ|);
    SortDescRanked(counts);
    SortDescMembers(counts);
    var top := Take(SortDesc(counts), limit);
    assert forall c :: c in top ==> c in SortDesc(counts);
    top
  }
}
