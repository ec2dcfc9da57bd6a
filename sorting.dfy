/**
 * Sorting by a total preorder, written as an insertion sort: used for Go's `sort.Strings`
 * and `sort.Slice`. Go's `sort.Slice` is not stable, so callers rely only on the result
 * being sorted and a permutation of the input, never on the order of equivalent elements.
 */
module Sorting {
  import opened Wrappers

  ghost predicate TotalPreorder<T(!new)>(le: (T, T) -> bool)
  {
    (forall a, b :: le(a, b) || le(b, a)) &&
    (forall a, b, c :: le(a, b) && le(b, c) ==> le(a, c))
  }

  predicate SortedBy<T>(s: seq<T>, le: (T, T) -> bool)
  {
    forall i, j :: 0 <= i < j < |s| ==> le(s[i], s[j])
  }

  function Insert<T>(x: T, t: seq<T>, le: (T, T) -> bool): (r: seq<T>)
    ensures multiset(r) == multiset(t) + multiset{x}
    ensures |r| == |t| + 1
  {
    if t == [] || le(x, t[0]) then [x] + t
    else
      assert t == [t[0]] + t[1..];
      [t[0]] + Insert(x, t[1..], le)
  }

  function Sort<T>(s: seq<T>, le: (T, T) -> bool): (r: seq<T>)
    ensures multiset(r) == multiset(s)
    ensures |r| == |s|
  {
    if s == [] then []
    else
      assert s == [s[0]] + s[1..];
      Insert(s[0], Sort(s[1..], le), le)
  }

  lemma {:induction false} InsertSorted<T(!new)>(x: T, t: seq<T>, le: (T, T) -> bool)
    requires TotalPreorder(le) && SortedBy(t, le)
    ensures SortedBy(Insert(x, t, le), le)
  {
    var r := Insert(x, t, le);
    if t == [] || le(x, t[0]) {
      forall i, j | 0 <= i < j < |r| ensures le(r[i], r[j]) {
        if i == 0 && j > 1 {
          assert le(t[0], t[j - 1]);
        }
      }
    } else {
      InsertSorted(x, t[1..], le);
      var rest := Insert(x, t[1..], le);
      forall i, j | 0 <= i < j < |r| ensures le(r[i], r[j]) {
        if i == 0 {
          var y := rest[j - 1];
          assert y in multiset(rest);
          assert y == x || y in multiset(t[1..]);
          if y != x {
            var m :| 0 <= m < |t[1..]| && t[1..][m] == y;
            assert t[m + 1] == y;
          }
        } else {
          assert r[i] == rest[i - 1] && r[j] == rest[j - 1];
        }
      }
    }
  }

  /** Sorting by a total preorder gives a sorted permutation with the same elements. */
  lemma {:induction false} SortSorted<T(!new)>(s: seq<T>, le: (T, T) -> bool)
    requires TotalPreorder(le)
    ensures SortedBy(Sort(s, le), le)
    ensures |Sort(s, le)| == |s|
    ensures forall x :: x in Sort(s, le) <==> x in s
  {
    if s != [] {
      SortSorted(s[1..], le);
      InsertSorted(s[0], Sort(s[1..], le), le);
    }
    assert |multiset(Sort(s, le))| == |multiset(s)|;
    forall x ensures x in Sort(s, le) <==> x in s {
      assert x in Sort(s, le) <==> x in multiset(Sort(s, le));
      assert x in s <==> x in multiset(s);
    }
  }

  function StringLe(): (string, string) -> bool
  {
    (a: string, b: string) => StrLessEq(a, b)
  }

  lemma StringLeTotal()
    ensures TotalPreorder(StringLe())
  {
    forall a: string, b: string ensures StrLessEq(a, b) || StrLessEq(b, a) {
      StrLessTotal(a, b);
    }
    forall a: string, b: string, c: string | StrLessEq(a, b) && StrLessEq(b, c) ensures StrLessEq(a, c) {
      if a != b && b != c { StrLessTransitive(a, b, c); }
    }
  }

  /** `sort.Strings` */
  function SortStrings(s: seq<string>): seq<string>
  {
    Sort(s, StringLe())
  }

  lemma SortStringsSorted(s: seq<string>)
    ensures SortedStrings(SortStrings(s))
    ensures |SortStrings(s)| == |s| && multiset(SortStrings(s)) == multiset(s)
    ensures forall x :: x in SortStrings(s) <==> x in s
  {
    StringLeTotal();
    SortSorted(s, StringLe());
  }
}
