/**
 * The stable "largest key first" sort that both graph algorithms apply to a list of
 * (node, key) pairs built in ascending node order, written as an insertion sort that
 * places each element before every later element with an equal or smaller key.
 */
module Ranking {
  import opened Wrappers

  datatype Scored = Scored(node: nat, key: int)

  predicate NodesAscending(s: seq<Scored>)
  {
    forall i, j :: 0 <= i < j < |s| ==> s[i].node < s[j].node
  }

  predicate KeysDescending(s: seq<Scored>)
  {
    forall i, j :: 0 <= i < j < |s| ==> s[i].key >= s[j].key
  }

  /** a ranks strictly ahead of b: larger key, or equal key and smaller node. */
  predicate Before(a: Scored, b: Scored)
  {
    a.key > b.key || (a.key == b.key && a.node < b.node)
  }

  /** Larger key first; equal keys in ascending node order. */
  predicate Ranked(s: seq<Scored>)
  {
    forall i, j :: 0 <= i < j < |s| ==> Before(s[i], s[j])
  }

  function InsertDesc(x: Scored, t: seq<Scored>): (r: seq<Scored>)
    ensures multiset(r) == multiset(t) + multiset{x}
  {
    if t == [] || x.key >= t[0].key then [x] + t
    else
      assert t == [t[0]] + t[1..];
      [t[0]] + InsertDesc(x, t[1..])
  }

  /** Stable sort by key, largest first (Rust `sort_by(|a, b| b.key.cmp(&a.key))`). */
  function SortDesc(s: seq<Scored>): (r: seq<Scored>)
    ensures multiset(r) == multiset(s)
  {
    if s == [] then [] else
      assert s == [s[0]] + s[1..];
      InsertDesc(s[0], SortDesc(s[1..]))
  }

  lemma {:induction false} InsertRanked(x: Scored, t: seq<Scored>)
    requires Ranked(t)
    requires forall y :: y in t ==> x.node < y.node
    ensures Ranked(InsertDesc(x, t))
  {
    if t == [] || x.key >= t[0].key {
      var res := [x] + t;
      forall i, j | 0 <= i < j < |res| ensures Before(res[i], res[j]) {
        if i == 0 {
          assert res[j] == t[j - 1] && res[j] in t;
        } else {
          assert res[i] == t[i - 1] && res[j] == t[j - 1];
        }
      }
    } else {
      InsertRanked(x, t[1..]);
      var r := InsertDesc(x, t[1..]);
      var res := [t[0]] + r;
      forall i, j | 0 <= i < j < |res| ensures Before(res[i], res[j]) {
        if i == 0 {
          var y := r[j - 1];
          assert y in multiset(r);
          assert y == x || y in multiset(t[1..]);
          if y != x {
            var m :| 0 <= m < |t[1..]| && t[1..][m] == y;
            assert t[m + 1] == y;
          }
        } else {
          assert res[i] == r[i - 1] && res[j] == r[j - 1];
        }
      }
    }
  }

  /**
   * Sorting a list whose nodes ascend yields a permutation of it in which larger keys come
   * first and equal keys keep ascending node order: what a stable sort guarantees here.
   */
  lemma {:induction false} SortDescRanked(s: seq<Scored>)
    requires NodesAscending(s)
    ensures Ranked(SortDesc(s))
    ensures |SortDesc(s)| == |s|
  {
    if s != [] {
      SortDescRanked(s[1..]);
      var t := SortDesc(s[1..]);
      forall y | y in t ensures s[0].node < y.node {
        assert y in multiset(t);
        assert y in s[1..];
      }
      InsertRanked(s[0], t);
      assert |multiset(SortDesc(s))| == |multiset(s)|;
    }
  }

  lemma SortDescMembers(s: seq<Scored>)
    ensures forall c :: c in SortDesc(s) <==> c in s
  {
    forall c ensures c in SortDesc(s) <==> c in s {
      assert c in SortDesc(s) <==> c in multiset(SortDesc(s));
      assert c in s <==> c in multiset(s);
    }
  }

  lemma RankedKeysDescending(s: seq<Scored>)
    requires Ranked(s)
    ensures KeysDescending(s)
  {
  }

  predicate PositiveKey(c: Scored) { c.key > 0 }

  /** Dropping elements keeps the ranking. */
  lemma {:induction false} FilterRanked(s: seq<Scored>, p: Scored -> bool)
    requires Ranked(s)
    ensures Ranked(Filter(s, p))
  {
    if s != [] {
      FilterRanked(s[1..], p);
      var rest := Filter(s[1..], p);
      if p(s[0]) {
        var r := [s[0]] + rest;
        forall i, j | 0 <= i < j < |r| ensures Before(r[i], r[j]) {
          if i == 0 {
            assert r[j] in rest;
            var m :| 0 <= m < |s[1..]| && s[1..][m] == r[j];
            assert s[m + 1] == r[j];
          } else {
            assert r[i] == rest[i - 1] && r[j] == rest[j - 1];
          }
        }
      }
    }
  }

  lemma FilterNonPositive(s: seq<Scored>)
    requires forall i :: 0 <= i < |s| ==> s[i].key <= 0
    ensures Filter(s, PositiveKey) == []
  {
    if s != [] {
      FilterNonPositive(s[1..]);
    }
  }

  lemma TakeCons(x: Scored, t: seq<Scored>, k: nat)
    requires k > 0
    ensures Take([x] + t, k) == [x] + Take(t, k - 1)
  {
  }

  lemma FilterConsKept(x: Scored, t: seq<Scored>)
    requires PositiveKey(x)
    ensures Filter([x] + t, PositiveKey) == [x] + Filter(t, PositiveKey)
  {
    assert ([x] + t)[1..] == t;
  }

  /**
   * On a list sorted by key, largest first, cutting to k and then dropping the non-positive
   * keys gives the same list as dropping them first and cutting afterwards: the non-positive
   * keys all sit behind the positive ones.
   */
  lemma {:induction false} TakeFilterCommute(s: seq<Scored>, k: nat)
    requires KeysDescending(s)
    ensures Filter(Take(s, k), PositiveKey) == Take(Filter(s, PositiveKey), k)
  {
    if s == [] || k == 0 {
    } else if s[0].key > 0 {
      var x, t := s[0], s[1..];
      assert s == [x] + t;
      assert KeysDescending(t) by {
        forall i, j | 0 <= i < j < |t| ensures t[i].key >= t[j].key {
          assert t[i] == s[i + 1] && t[j] == s[j + 1];
        }
      }
      TakeFilterCommute(t, k - 1);
      TakeCons(x, t, k);
      FilterConsKept(x, Take(t, k - 1));
      FilterConsKept(x, t);
      TakeCons(x, Filter(t, PositiveKey), k);
      calc {
        Filter(Take(s, k), PositiveKey);
        Filter([x] + Take(t, k - 1), PositiveKey);
        [x] + Filter(Take(t, k - 1), PositiveKey);
        [x] + Take(Filter(t, PositiveKey), k - 1);
        Take([x] + Filter(t, PositiveKey), k);
        Take(Filter(s, PositiveKey), k);
      }
    } else {
      NonPositiveTail(s, k);
    }
  }

  /** Behind a non-positive first key, a key-descending list holds no positive key, cut or not. */
  lemma NonPositiveTail(s: seq<Scored>, k: nat)
    requires KeysDescending(s) && s != [] && s[0].key <= 0
    ensures Filter(Take(s, k), PositiveKey) == [] == Filter(s, PositiveKey)
  {
    var c := Take(s, k);
    assert forall i :: 0 <= i < |s| ==> s[i].key <= 0 by {
      forall i | 0 < i < |s| ensures s[i].key <= 0 {
        assert s[0].key >= s[i].key;
      }
    }
    FilterNonPositive(s);
    assert forall i :: 0 <= i < |c| ==> c[i].key <= 0 by {
      forall i | 0 <= i < |c| ensures c[i].key <= 0 {
        assert c[i] == s[i];
      }
    }
    FilterNonPositive(c);
  }
}
