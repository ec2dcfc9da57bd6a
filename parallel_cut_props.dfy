/** What the parallel-cut suggestions and the unblock ranking promise. */
module ParallelCutProperties {
  import opened Wrappers
  import opened DiGraph
  import opened Ranking
  import opened ParallelCut

  /** The node range grows by its last node. */
  lemma RangeSnoc(m: nat)
    requires m > 0
    ensures Range(m) == Range(m - 1) + [m - 1]
  {
    assert forall i :: 0 <= i < m ==> Range(m)[i] == (Range(m - 1) + [m - 1])[i];
  }

  /** Only open nodes are listed, so there are exactly as many entries as open nodes. */
  lemma {:induction false} UnblockCountsLength(g: Graph, closed: seq<bool>, m: nat)
    requires m <= |g.succ|
    ensures |UnblockCounts(g, closed, m)| == CountWhere(Range(m), OpenTest(closed))
  {
    if m > 0 {
      UnblockCountsLength(g, closed, m - 1);
      RangeSnoc(m);
      CountWhereAppend<nat>(Range(m - 1), m - 1, OpenTest(closed));
    }
  }

  /** An actionable node is open, so there are never more actionable nodes than open ones. */
  lemma ActionableAtMostOpen(g: Graph, closed: seq<bool>)
    ensures CurrentActionable(g, closed) <= OpenNodes(g, closed)
  {
    CountWhereMono(Range(g.n), ActionableTest(g, closed), OpenTest(closed));
  }

  /** With an empty completion array every node counts as open. */
  lemma {:induction false} EmptyClosedAllOpen(m: nat)
    ensures CountWhere(Range(m), OpenTest([])) == m
  {
    if m > 0 {
      EmptyClosedAllOpen(m - 1);
      RangeSnoc(m);
      assert OpenTest([])(m - 1);
      CountWhereAppend<nat>(Range(m - 1), m - 1, OpenTest([]));
    }
  }

  /** If x is in a ranked list but not in its first l entries, those l entries all rank ahead of x. */
  lemma TakeIsTop(s: seq<Scored>, l: nat, x: Scored)
    requires Ranked(s) && x in s && x !in Take(s, l)
    ensures |Take(s, l)| == l
    ensures forall y :: y in Take(s, l) ==> Before(y, x)
  {
    var j :| 0 <= j < |s| && s[j] == x;
    assert j >= |Take(s, l)|;
    forall y | y in Take(s, l) ensures Before(y, x) {
      var i :| 0 <= i < |Take(s, l)| && Take(s, l)[i] == y;
    }
  }

  /**
   * Every item is an open node with `new_actionable` equal to the count of dependents it is the
   * only open blocker of, and `parallel_gain = new_actionable - 1 > 0`. Items are ordered by
   * gain, largest first, ties by ascending node, and there are at most `limit` of them. An
   * open node with positive gain that is not listed ranks behind all `limit` listed items.
   */
  lemma ItemsAreTopGains(g: Graph, closed: seq<bool>, limit: nat)
    requires Valid(g)
    ensures var items := ParallelCutSuggestions(g, closed, limit).items;
      |items| <= limit &&
      (forall i :: 0 <= i < |items| ==>
        items[i].node < g.n && IsOpen(closed, items[i].node) &&
        items[i].newActionable == NewActionable(g, closed, items[i].node) &&
        items[i].parallelGain == items[i].newActionable - 1 > 0) &&
      (forall i, j :: 0 <= i < j < |items| ==>
        items[i].parallelGain > items[j].parallelGain ||
        (items[i].parallelGain == items[j].parallelGain && items[i].node < items[j].node)) &&
      (forall v :: (0 <= v < g.n && IsOpen(closed, v) && NewActionable(g, closed, v) > 1 &&
                    (forall i :: 0 <= i < |items| ==> items[i].node != v)) ==>
        |items| == limit &&
        forall i :: 0 <= i < |items| ==> items[i].parallelGain >= NewActionable(g, closed, v) - 1)
  {
    var gains := Gains(g, closed, |g.succ|);
    SortDescRanked(gains);
    SortDescMembers(gains);
    var ranked := SortDesc(gains);
    var top := Take(ranked, limit);
    var items := ParallelCutSuggestions(g, closed, limit).items;
    assert items == ToItems(top);
    forall i | 0 <= i < |items|
      ensures items[i].node < g.n && IsOpen(closed, items[i].node) &&
        items[i].newActionable == NewActionable(g, closed, items[i].node) &&
        items[i].parallelGain == items[i].newActionable - 1 > 0
    {
      assert top[i] in ranked;
    }
    forall i, j | 0 <= i < j < |items|
      ensures items[i].parallelGain > items[j].parallelGain ||
        (items[i].parallelGain == items[j].parallelGain && items[i].node < items[j].node)
    {
      assert Before(top[i], top[j]);
    }
    forall v | 0 <= v < g.n && IsOpen(closed, v) && NewActionable(g, closed, v) > 1 &&
        (forall i :: 0 <= i < |items| ==> items[i].node != v)
      ensures |items| == limit &&
        forall i :: 0 <= i < |items| ==> items[i].parallelGain >= NewActionable(g, closed, v) - 1
    {
      var x := Scored(v, NewActionable(g, closed, v) - 1);
      GainsComplete(g, closed, |g.succ|, v);
      TakeIsTop(ranked, limit, x);
      forall i | 0 <= i < |items| ensures items[i].parallelGain >= NewActionable(g, closed, v) - 1 {
        assert top[i] in top;
      }
    }
  }

  /**
   * The unblock ranking lists open nodes only, each with its `new_actionable` count, in
   * non-increasing count order (ties by ascending node), each node once, and it holds
   * min(limit, open_nodes) entries: no gain filter applies. An open node left out ranks
   * behind all `limit` listed entries.
   */
  lemma UnblockRankingSpec(g: Graph, closed: seq<bool>, limit: nat)
    requires Valid(g)
    ensures var r := UnblockRanking(g, closed, limit);
      |r| == Min(limit, OpenNodes(g, closed)) &&
      Ranked(r) &&
      (forall i, j :: 0 <= i < j < |r| ==> r[i].node != r[j].node) &&
      (forall c :: c in r ==> c.node < g.n && IsOpen(closed, c.node) && c.key == NewActionable(g, closed, c.node)) &&
      (forall v :: (0 <= v < g.n && IsOpen(closed, v) && (forall c :: c in r ==> c.node != v)) ==>
        |r| == limit && forall c :: c in r ==> Before(c, Scored(v, NewActionable(g, closed, v))))
  {
    var counts := UnblockCounts(g, closed, |g.succ|);
    SortDescRanked(counts);
    SortDescMembers(counts);
    UnblockCountsLength(g, closed, |g.succ|);
    var ranked := SortDesc(counts);
    var r := UnblockRanking(g, closed, limit);
    assert r == ranked[..|r|];
    forall c | c in r ensures c in counts {
      assert c in ranked;
    }
    forall i, j | 0 <= i < j < |r| ensures r[i].node != r[j].node {
      assert Before(r[i], r[j]);
    }
    forall v | 0 <= v < g.n && IsOpen(closed, v) && (forall c :: c in r ==> c.node != v)
      ensures |r| == limit && forall c :: c in r ==> Before(c, Scored(v, NewActionable(g, closed, v)))
    {
      var x := Scored(v, NewActionable(g, closed, v));
      assert x in counts && x in ranked;
      TakeIsTop(ranked, limit, x);
    }
  }

  /** Every suggested item also appears in the unblock ranking's input with the same count. */
  lemma ItemsAgreeWithUnblockCounts(g: Graph, closed: seq<bool>, limit: nat)
    requires Valid(g)
    ensures var items := ParallelCutSuggestions(g, closed, limit).items;
      forall i :: 0 <= i < |items| ==> Scored(items[i].node, items[i].newActionable) in UnblockCounts(g, closed, g.n)
  {
    ItemsAreTopGains(g, closed, limit);
  }

  function Fork(): Graph { Graph(4, [[1, 2, 3], [], [], []], [[], [0], [0], [0]]) }

  lemma ForkCounts()
    ensures NewActionable(Fork(), [false, false, false, false], 0) == 3
    ensures forall v :: 1 <= v < 4 ==> NewActionable(Fork(), [false, false, false, false], v) == 0
  {
    var g, closed := Fork(), [false, false, false, false];
    assert SoleBlocker(g, closed, 0, 1) && SoleBlocker(g, closed, 0, 2) && SoleBlocker(g, closed, 0, 3);
    assert [1, 2, 3][1..] == [2, 3] && [2, 3][1..] == [3] && [3][1..] == [];
  }

  lemma ForkValid()
    ensures Valid(Fork())
  {
  }

  lemma ForkGains()
    ensures Gains(Fork(), [false, false, false, false], 4) == [Scored(0, 2)]
  {
    var g, closed := Fork(), [false, false, false, false];
    ForkCounts();
    assert Gains(g, closed, 0) == [];
    assert Gains(g, closed, 1) == [Scored(0, 2)];
    assert Gains(g, closed, 2) == [Scored(0, 2)];
    assert Gains(g, closed, 3) == [Scored(0, 2)];
  }

  lemma ForkTop()
    ensures Take(SortDesc(Gains(Fork(), [false, false, false, false], 4)), DefaultLimit) == [Scored(0, 2)]
  {
    ForkGains();
    assert [Scored(0, 2)][1..] == [];
    assert SortDesc([Scored(0, 2)]) == [Scored(0, 2)];
  }

  /** The fork 0 -> {1, 2, 3} with everything open yields one item: node 0, gain 2, new_actionable 3. */
  lemma ForkExample()
    ensures Valid(Fork())
    ensures ParallelCutDefault(Fork(), [false, false, false, false]).items == [ParallelCutItem(0, 2, 3)]
  {
    ForkValid();
    ForkTop();
    SingleTopItem(Fork(), [false, false, false, false], DefaultLimit, Scored(0, 2));
  }

  /** When the ranking keeps a single gain, the suggestions are that one item. */
  lemma SingleTopItem(g: Graph, closed: seq<bool>, limit: nat, x: Scored)
    requires Valid(g) && Take(SortDesc(Gains(g, closed, |g.succ|)), limit) == [x]
    ensures ParallelCutSuggestions(g, closed, limit).items == [ToItem(x)]
  {
  }

  /** In the fork only the root is actionable; all four nodes are open. */
  lemma ForkActionable()
    ensures CurrentActionable(Fork(), [false, false, false, false]) == 1
    ensures OpenNodes(Fork(), [false, false, false, false]) == 4
  {
    var g, closed := Fork(), [false, false, false, false];
    var r := Range(4);
    assert r == [0, 1, 2, 3];
    assert Actionable(g, closed, 0);
    assert !Actionable(g, closed, 1) by { assert g.pred[1][0] == 0; }
    assert !Actionable(g, closed, 2) by { assert g.pred[2][0] == 0; }
    assert !Actionable(g, closed, 3) by { assert g.pred[3][0] == 0; }
    assert r[1..] == [1, 2, 3] && r[1..][1..] == [2, 3] && r[1..][1..][1..] == [3] && r[1..][1..][1..][1..] == [];
  }
}
