/**
 * Sampling-based betweenness: the recommended pivot count for a graph size, the partial
 * Fisher-Yates shuffle that picks the pivots, and which branch `ApproxBetweenness` takes
 * (empty graph, exact fallback, or sampling).
 *
 * The random generator is an input: `draws[i]` is the value the generator returns for the
 * i-th call `Intn(len - i)`. The Brandes score computation itself is floating point and is
 * not modelled; a result records where its scores would come from.
 */
module Betweenness {
  import opened Wrappers
  import opened Sorting

  datatype Mode = Exact | Approximate

  /** Where the scores of a result come from. */
  datatype ScoreSource = NoScores | ExactScores | FromPivots(pivots: seq<int>)

  datatype BetweennessResult = BetweennessResult(mode: Mode, sampleSize: int, totalNodes: int, source: ScoreSource)

  /** The sample size recommended for a graph of `nodeCount` nodes (the edge count is not consulted). */
  function RecommendSampleSize(nodeCount: int, edgeCount: int): (r: int)
    ensures nodeCount < 100 ==> r == nodeCount
    ensures 100 <= nodeCount ==> 50 <= r <= 200
  {
    if nodeCount < 100 then nodeCount
    else if nodeCount < 500 then (if nodeCount / 5 > 50 then nodeCount / 5 else 50)
    else if nodeCount < 2000 then 100
    else 200
  }

  /** The recommendation never exceeds the graph, and reaches it exactly for graphs under 100 nodes. */
  lemma RecommendedWithinGraph(nodeCount: int, edgeCount: int)
    requires nodeCount >= 0
    ensures 0 <= RecommendSampleSize(nodeCount, edgeCount) <= nodeCount
    ensures RecommendSampleSize(nodeCount, edgeCount) == nodeCount <==> nodeCount < 100
  {
  }

  /** The band edges: exact below 100, a fifth of the nodes but at least 50 below 500, then 100, then 200. */
  lemma RecommendedBands(edgeCount: int)
    ensures RecommendSampleSize(99, edgeCount) == 99 && RecommendSampleSize(100, edgeCount) == 50
    ensures RecommendSampleSize(255, edgeCount) == 51 && RecommendSampleSize(499, edgeCount) == 99
    ensures RecommendSampleSize(500, edgeCount) == 100 && RecommendSampleSize(1999, edgeCount) == 100
    ensures RecommendSampleSize(2000, edgeCount) == 200
  {
  }

  /** `draws` are values the generator may return: the i-th lies in [0, len - i). */
  predicate DrawsOk(draws: seq<int>, len: nat, k: nat)
  {
    |draws| >= k && forall i :: 0 <= i < k ==> 0 <= draws[i] < len - i
  }

  /** The first `k` swaps of a Fisher-Yates shuffle of `s`, position i exchanged with i + draws[i]. */
  function Shuffled(s: seq<int>, draws: seq<int>, k: nat): (r: seq<int>)
    requires k <= |s| && DrawsOk(draws, |s|, k)
    ensures |r| == |s|
  {
    if k == 0 then s
    else
      var t := Shuffled(s, draws, k - 1);
      Swap(t, k - 1, k - 1 + draws[k - 1])
  }

  function Swap(t: seq<int>, i: nat, j: nat): (r: seq<int>)
    requires i < |t| && j < |t|
    ensures |r| == |t| && r[i] == t[j] && r[j] == t[i]
    ensures forall m :: 0 <= m < |t| && m != i && m != j ==> r[m] == t[m]
  {
    t[i := t[j]][j := t[i]]
  }

  lemma SwapPermutes(t: seq<int>, i: nat, j: nat)
    requires i < |t| && j < |t|
    ensures multiset(Swap(t, i, j)) == multiset(t)
  {
    var u := t[i := t[j]];
    assert multiset(u) == multiset(t) - multiset{t[i]} + multiset{t[j]};
    assert multiset(u[j := t[i]]) == multiset(u) - multiset{u[j]} + multiset{t[i]};
  }

  /** Shuffling only permutes: the result holds the same entries, as often. */
  lemma {:induction false} ShuffledPermutes(s: seq<int>, draws: seq<int>, k: nat)
    requires k <= |s| && DrawsOk(draws, |s|, k)
    ensures multiset(Shuffled(s, draws, k)) == multiset(s)
  {
    if k > 0 {
      ShuffledPermutes(s, draws, k - 1);
      SwapPermutes(Shuffled(s, draws, k - 1), k - 1, k - 1 + draws[k - 1]);
    }
  }

  /** Swaps never move an element back below position `k`: the prefix of length `k` is fixed after step `k`. */
  lemma {:induction false} ShuffledPrefixStable(s: seq<int>, draws: seq<int>, k: nat, m: nat)
    requires k <= m <= |s| && DrawsOk(draws, |s|, m)
    ensures Shuffled(s, draws, m)[..k] == Shuffled(s, draws, k)[..k]
    decreases m - k
  {
    if m > k {
      ShuffledPrefixStable(s, draws, k, m - 1);
      assert Shuffled(s, draws, m)[..k] == Shuffled(s, draws, m - 1)[..k];
    }
  }

  /**
   * The pivots: the input itself when `k` covers it, otherwise the first `k` entries of a copy
   * shuffled by `k` swaps. The caller's array is left untouched. A negative `k` runs no swap
   * and then fails slicing the copy to length `k`: `None` stands for that panic.
   */
  method SampleNodes(nodes: array<int>, k: int, draws: seq<int>) returns (r: Option<seq<int>>)
    requires 0 <= k < nodes.Length ==> DrawsOk(draws, nodes.Length, k)
    ensures r.None? <==> k < 0
    ensures k >= nodes.Length ==> r == Some(nodes[..])
    ensures 0 <= k < nodes.Length ==> r == Some(Shuffled(nodes[..], draws, k)[..k])
  {
    if k >= nodes.Length {
      return Some(nodes[..]);
    }
    ghost var s := nodes[..];
    var shuffled := new int[nodes.Length](i reads nodes requires 0 <= i < nodes.Length => nodes[i]);
    assert shuffled[..] == s;
    if k < 0 {
      // no swap runs, and slicing to a negative length panics
      return None;
    }
    for i := 0 to k
      invariant shuffled[..] == Shuffled(s, draws, i)
    {
      var j := i + draws[i];
      shuffled[i], shuffled[j] := shuffled[j], shuffled[i];
    }
    r := Some(shuffled[..k]);
  }

  /** A sample is exactly `k` of the input's entries, none taken twice. */
  lemma SampleIsSubMultiset(s: seq<int>, draws: seq<int>, k: nat)
    requires k <= |s| && DrawsOk(draws, |s|, k)
    ensures |Shuffled(s, draws, k)[..k]| == k
    ensures multiset(Shuffled(s, draws, k)[..k]) <= multiset(s)
  {
    ShuffledPermutes(s, draws, k);
    PrefixSubMultiset(Shuffled(s, draws, k), k);
  }

  lemma PrefixSubMultiset(t: seq<int>, k: nat)
    requires k <= |t|
    ensures multiset(t[..k]) <= multiset(t)
  {
    assert t == t[..k] + t[k..];
  }

  predicate Distinct(s: seq<int>)
  {
    forall i, j :: 0 <= i < j < |s| ==> s[i] != s[j]
  }

  /** Shuffling distinct nodes keeps them distinct and keeps the same set of nodes. */
  lemma {:induction false} ShuffledDistinct(s: seq<int>, draws: seq<int>, k: nat)
    requires k <= |s| && DrawsOk(draws, |s|, k) && Distinct(s)
    ensures Distinct(Shuffled(s, draws, k))
    ensures forall x :: x in Shuffled(s, draws, k) <==> x in s
  {
    if k > 0 {
      ShuffledDistinct(s, draws, k - 1);
      var t := Shuffled(s, draws, k - 1);
      SwapPermutes(t, k - 1, k - 1 + draws[k - 1]);
      var u := Swap(t, k - 1, k - 1 + draws[k - 1]);
      forall x ensures x in u <==> x in t {
        assert x in u <==> x in multiset(u);
      }
      forall a, b | 0 <= a < b < |u| ensures u[a] != u[b] {
        var a', b' := SwappedIndex(a, k - 1, k - 1 + draws[k - 1]), SwappedIndex(b, k - 1, k - 1 + draws[k - 1]);
        assert u[a] == t[a'] && u[b] == t[b'];
      }
    }
  }

  /** Where position `m` of a swap of positions `i` and `j` was taken from. */
  function SwappedIndex(m: nat, i: nat, j: nat): nat
  {
    if m == i then j else if m == j then i else m
  }

  /** Sampling distinct nodes gives distinct pivots, each one of the nodes. */
  lemma SampleDistinct(s: seq<int>, draws: seq<int>, k: nat)
    requires k <= |s| && DrawsOk(draws, |s|, k) && Distinct(s)
    ensures forall x :: x in Shuffled(s, draws, k)[..k] ==> x in s
    ensures Distinct(Shuffled(s, draws, k)[..k])
  {
    ShuffledDistinct(s, draws, k);
  }

  function IntLe(): (int, int) -> bool
  {
    (a: int, b: int) => a <= b
  }

  /**
   * The branch `ApproxBetweenness` takes on the nodes (given by ID) of a graph: nothing for an
   * empty graph, the exact algorithm with `SampleSize = n` when the sample covers the graph,
   * and otherwise `sampleSize` pivots drawn from the nodes sorted by ID. `None` stands for the
   * panic of the sampling step on a negative sample size.
   */
  method ApproxBetweenness(nodes: seq<int>, sampleSize: int, draws: seq<int>) returns (res: Option<BetweennessResult>)
    requires 0 <= sampleSize < |nodes| ==> DrawsOk(draws, |nodes|, sampleSize)
    ensures res.None? <==> 0 < |nodes| && sampleSize < 0
    ensures res.Some? ==> res.value.totalNodes == |nodes|
    ensures |nodes| == 0 ==> res == Some(BetweennessResult(Approximate, sampleSize, 0, NoScores))
    ensures 0 < |nodes| <= sampleSize ==> res == Some(BetweennessResult(Exact, |nodes|, |nodes|, ExactScores))
    ensures 0 <= sampleSize < |nodes| ==>
              res.Some? && res.value.mode == Approximate && res.value.sampleSize == sampleSize &&
              res.value.source.FromPivots? &&
              res.value.source.pivots == Shuffled(Sort(nodes, IntLe()), draws, sampleSize)[..sampleSize]
  {
    var n := |nodes|;
    var sorted := Sort(nodes, IntLe());
    if n == 0 {
      return Some(BetweennessResult(Approximate, sampleSize, n, NoScores));
    }
    if sampleSize >= n {
      return Some(BetweennessResult(Exact, n, n, ExactScores));
    }
    var arr := new int[n](i requires 0 <= i < n => sorted[i]);
    assert arr[..] == sorted;
    var pivots := SampleNodes(arr, sampleSize, draws);
    if pivots.None? {
      return None;
    }
    res := Some(BetweennessResult(Approximate, sampleSize, n, FromPivots(pivots.value)));
  }
}
