/**
 * Properties of the execution plan that relate several operations: track identifiers are a
 * bijective base-26 numbering, components and tracks are the classes of the undirected link
 * closure, tracks are disjoint and cover every actionable issue, the
 * summary is determined by its specification, and "unblocks" means what it says once the
 * blocker is closed.
 */
module PlanProps {
  import opened Wrappers
  import opened Issues
  import opened ExecutionPlan

  // ---------------------------------------------------------------- track identifiers

  predicate IsUpper(c: char)
  {
    'A' <= c <= 'Z'
  }

  predicate AllUpper(s: string)
  {
    forall i :: 0 <= i < |s| ==> IsUpper(s[i])
  }

  /** The number a bijective base-26 numeral denotes ("A" is 1, "Z" 26, "AA" 27). */
  function Value(s: string): int
  {
    if s == [] then 0 else Value(s[..|s| - 1]) * 26 + (s[|s| - 1] as int - 'A' as int + 1)
  }

  lemma ValueSnoc(p: string, c: char)
    ensures Value(p + [c]) == Value(p) * 26 + (c as int - 'A' as int + 1)
  {
    assert (p + [c])[..|p + [c]| - 1] == p;
  }

  lemma {:induction false} NumeralUpper(m: int)
    ensures AllUpper(Numeral(m))
    ensures m >= 0 <==> |Numeral(m)| > 0
    decreases m + 1
  {
    if m >= 0 {
      NumeralUpper(m / 26 - 1);
    }
  }

  /** `Numeral` undoes `Value`: the numeral of index `m` denotes `m + 1`. */
  lemma {:induction false} NumeralValue(m: int)
    requires m >= -1
    ensures Value(Numeral(m)) == m + 1
    decreases m + 1
  {
    if m >= 0 {
      var q, d := m / 26 - 1, m % 26;
      NumeralValue(q);
      ValueSnoc(Numeral(q), Letter(d));
    }
  }

  lemma {:induction false} ValuePositive(s: string)
    requires AllUpper(s) && s != []
    ensures Value(s) >= 1
  {
    var p := s[..|s| - 1];
    if p != [] {
      ValuePositive(p);
    }
  }

  /** Every non-empty string of capital letters is the numeral of exactly one index. */
  lemma {:induction false} ValueNumeral(s: string)
    requires AllUpper(s) && s != []
    ensures Numeral(Value(s) - 1) == s
    decreases |s|
  {
    var p, c := s[..|s| - 1], s[|s| - 1];
    assert s == p + [c];
    var d := c as int - 'A' as int;
    var m := Value(s) - 1;
    assert m == Value(p) * 26 + d;
    assert m / 26 == Value(p) && m % 26 == d;
    if p != [] {
      ValuePositive(p);
      ValueNumeral(p);
    }
    assert Letter(d) == c;
  }

  /** Only non-positive track numbers give "track-?". */
  lemma TrackIDUnknown(n: int)
    ensures TrackID(n) == TrackUnknown <==> n <= 0
  {
    if n >= 1 {
      NumeralUpper(n - 1);
      assert TrackID(n)[|TrackPrefix|] == Numeral(n - 1)[0];
    }
  }

  /** Distinct positive track numbers give distinct identifiers. */
  lemma TrackIDsDiffer(a: int, b: int)
    requires 1 <= a < b
    ensures TrackID(a) != TrackID(b)
  {
    if TrackID(a) == TrackID(b) {
      TrackIDInjective(a, b);
    }
  }

  lemma TrackIDInjective(a: int, b: int)
    requires a >= 1 && b >= 1 && TrackID(a) == TrackID(b)
    ensures a == b
  {
    assert TrackID(a)[|TrackPrefix|..] == Numeral(a - 1);
    assert TrackID(b)[|TrackPrefix|..] == Numeral(b - 1);
    NumeralValue(a - 1);
    NumeralValue(b - 1);
  }

  /** Every "track-" followed by capital letters is the identifier of some positive track number. */
  lemma TrackIDOnto(s: string)
    requires AllUpper(s) && s != []
    ensures Value(s) >= 1 && TrackID(Value(s)) == TrackPrefix + s
  {
    ValuePositive(s);
    ValueNumeral(s);
  }

  lemma TrackIDOneLetter()
    ensures TrackID(0) == "track-?" && TrackID(-3) == "track-?"
    ensures TrackID(1) == "track-A" && TrackID(26) == "track-Z"
  {
    assert Numeral(0) == "A";
    assert Numeral(25) == "Z";
  }

  lemma TrackIDTwoLetters()
    ensures TrackID(27) == "track-AA" && TrackID(52) == "track-AZ" && TrackID(702) == "track-ZZ"
  {
    assert Numeral(26) == Numeral(0) + "A";
    assert Numeral(51) == Numeral(0) + "Z";
    assert Numeral(701) == Numeral(25) + "Z";
  }

  lemma TrackIDThreeLetters()
    ensures TrackID(703) == "track-AAA"
  {
    assert Numeral(702) == Numeral(26) + "A";
    assert Numeral(26) == Numeral(0) + "A";
  }

  // ---------------------------------------------------------------- tracks

  /** Every track is numbered by its position and their identifiers are pairwise distinct. */
  lemma TrackIDsDistinct(tracks: seq<ExecutionTrack>, trackRoots: seq<string>, issues: map<string, Issue>,
                         components: map<string, seq<string>>, actionableSet: set<string>,
                         unblocksMap: map<string, seq<string>>)
    requires TracksOk(tracks, trackRoots, issues, components, actionableSet, unblocksMap)
    ensures forall t :: 0 <= t < |tracks| ==> tracks[t].trackID == TrackID(t + 1)
    ensures forall t, u :: 0 <= t < u < |tracks| ==> tracks[t].trackID != tracks[u].trackID
  {
    forall t | 0 <= t < |tracks| ensures tracks[t].trackID == TrackID(t + 1) {
      assert TrackOk(tracks[t], t + 1, issues, |components|, components[trackRoots[t]], actionableSet, unblocksMap);
    }
    forall t, u | 0 <= t < u < |tracks| ensures tracks[t].trackID != tracks[u].trackID {
      TrackIDsDiffer(t + 1, u + 1);
    }
  }

  /** No track is empty, and each item is an actionable issue of the track's component. */
  lemma TrackItemsActionable(tracks: seq<ExecutionTrack>, trackRoots: seq<string>, issues: map<string, Issue>,
                             components: map<string, seq<string>>, actionableSet: set<string>,
                             unblocksMap: map<string, seq<string>>, t: nat, k: nat)
    requires TracksOk(tracks, trackRoots, issues, components, actionableSet, unblocksMap)
    requires t < |tracks| && k < |tracks[t].items|
    ensures |tracks[t].items| > 0
    ensures tracks[t].items[k].id in actionableSet && tracks[t].items[k].id in components[trackRoots[t]]
    ensures tracks[t].items[k] == ToPlanItem(issues[tracks[t].items[k].id], unblocksMap)
  {
    var items := tracks[t].items;
    assert TrackOk(tracks[t], t + 1, issues, |components|, components[trackRoots[t]], actionableSet, unblocksMap);
    assert IDs(items)[k] == items[k].id;
  }

  /** An issue sits in at most one track. */
  lemma TracksDisjoint(tracks: seq<ExecutionTrack>, trackRoots: seq<string>, issues: map<string, Issue>,
                       components: map<string, seq<string>>, actionableSet: set<string>,
                       unblocksMap: map<string, seq<string>>, t: nat, u: nat, id: string)
    requires Partition(issues, components) && StrictlySorted(trackRoots)
    requires TracksOk(tracks, trackRoots, issues, components, actionableSet, unblocksMap)
    requires t < |tracks| && u < |tracks| && id in IDs(tracks[t].items) && id in IDs(tracks[u].items)
    ensures t == u
  {
    assert TrackOk(tracks[t], t + 1, issues, |components|, components[trackRoots[t]], actionableSet, unblocksMap);
    assert TrackOk(tracks[u], u + 1, issues, |components|, components[trackRoots[u]], actionableSet, unblocksMap);
    assert trackRoots[t] == trackRoots[u];
    if t < u {
      StrLessIrreflexive(trackRoots[t]);
    } else if u < t {
      StrLessIrreflexive(trackRoots[u]);
    }
  }

  /** Every actionable issue of the graph appears in some track. */
  lemma TracksCover(tracks: seq<ExecutionTrack>, trackRoots: seq<string>, issues: map<string, Issue>,
                    components: map<string, seq<string>>, actionableSet: set<string>,
                    unblocksMap: map<string, seq<string>>, id: string)
    requires Partition(issues, components)
    requires forall r :: r in trackRoots <==> r in components && HasActionable(components[r], actionableSet)
    requires TracksOk(tracks, trackRoots, issues, components, actionableSet, unblocksMap)
    requires id in issues && id in actionableSet
    ensures exists t :: 0 <= t < |tracks| && id in IDs(tracks[t].items)
  {
    var r :| r in components && id in components[r];
    assert HasActionable(components[r], actionableSet);
    var t :| 0 <= t < |trackRoots| && trackRoots[t] == r;
    assert TrackOk(tracks[t], t + 1, issues, |components|, components[r], actionableSet, unblocksMap);
  }

  // ---------------------------------------------------------------- components

  /**
   * Components that partition the issues, keep linked issues together and hold only
   * chain-connected members are exactly the classes of the undirected link closure.
   */
  lemma ComponentsAreConnectedClasses(issues: map<string, Issue>, comps: map<string, seq<string>>, a: string, b: string)
    requires Partition(issues, comps) && LinkedTogether(issues, comps) && ChainedTogether(issues, comps)
    requires a in issues && b in issues
    ensures SameComponent(comps, a, b) <==> Connected(issues, a, b)
  {
    if Connected(issues, a, b) {
      var p :| Chain(issues, p) && p[0] == a && p[|p| - 1] == b;
      ReachedInComponent(issues, comps, p, |p| - 1);
    }
  }

  /** Along a chain, every issue shares a component with the first. */
  lemma {:induction false} ReachedInComponent(issues: map<string, Issue>, comps: map<string, seq<string>>, p: seq<string>, k: nat)
    requires Partition(issues, comps) && LinkedTogether(issues, comps)
    requires Chain(issues, p) && k < |p|
    ensures SameComponent(comps, p[0], p[k])
  {
    if k == 0 {
      assert p[0] in issues;
      var r :| r in comps && p[0] in comps[r];
    } else {
      ReachedInComponent(issues, comps, p, k - 1);
      var r :| r in comps && p[0] in comps[r] && p[k - 1] in comps[r];
      assert Adjacent(issues, p[k - 1], p[k]);
      var x := if LinksTo(issues, p[k - 1], p[k]) then p[k - 1] else p[k];
      var y := if LinksTo(issues, p[k - 1], p[k]) then p[k] else p[k - 1];
      assert LinksTo(issues, x, y);
      var i :| 0 <= i < |issues[x].deps| && Links(issues, issues[x].deps[i]) && issues[x].deps[i].dependsOnID == y;
      var r' :| r' in comps && x in comps[r'] && y in comps[r'];
      assert p[k - 1] in comps[r'];
      assert r == r';
    }
  }

  /**
   * Two actionable issues of the plan sit in the same track exactly when a chain of links
   * joins them.
   */
  lemma TracksAreConnectedClasses(tracks: seq<ExecutionTrack>, trackRoots: seq<string>, issues: map<string, Issue>,
                                  components: map<string, seq<string>>, actionableSet: set<string>,
                                  unblocksMap: map<string, seq<string>>, t: nat, k: nat, u: nat, l: nat)
    requires Partition(issues, components) && LinkedTogether(issues, components) && ChainedTogether(issues, components)
    requires StrictlySorted(trackRoots) && TracksOk(tracks, trackRoots, issues, components, actionableSet, unblocksMap)
    requires t < |tracks| && k < |tracks[t].items| && u < |tracks| && l < |tracks[u].items|
    ensures t == u <==> Connected(issues, tracks[t].items[k].id, tracks[u].items[l].id)
  {
    var a, b := tracks[t].items[k].id, tracks[u].items[l].id;
    TrackItemsActionable(tracks, trackRoots, issues, components, actionableSet, unblocksMap, t, k);
    TrackItemsActionable(tracks, trackRoots, issues, components, actionableSet, unblocksMap, u, l);
    var rt, ru := trackRoots[t], trackRoots[u];
    assert a in components[rt] && b in components[ru];
    ComponentsAreConnectedClasses(issues, components, a, b);
    if Connected(issues, a, b) {
      var r :| r in components && a in components[r] && b in components[r];
      assert rt == r && ru == r;
      if t < u {
        StrLessIrreflexive(rt);
      } else if u < t {
        StrLessIrreflexive(ru);
      }
    }
  }

  // ---------------------------------------------------------------- summary

  /** The summary's specification leaves no choice: two summaries meeting it are equal. */
  lemma SummaryUnique(s1: PlanSummary, s2: PlanSummary, actionable: seq<Issue>, unblocksMap: map<string, seq<string>>)
    requires SummaryOk(s1, actionable, unblocksMap) && SummaryOk(s2, actionable, unblocksMap)
    ensures s1 == s2
  {
    if actionable != [] {
      var i1 :| 0 <= i1 < |actionable| && actionable[i1].id == s1.highestImpact;
      var i2 :| 0 <= i2 < |actionable| && actionable[i2].id == s2.highestImpact;
      assert s1.unblocksCount == s2.unblocksCount;
      assert StrLessEq(s1.highestImpact, s2.highestImpact) && StrLessEq(s2.highestImpact, s1.highestImpact);
      if s1.highestImpact != s2.highestImpact {
        StrLessAsymmetric(s1.highestImpact, s2.highestImpact);
      }
    }
  }

  // ---------------------------------------------------------------- unblocks

  function Closing(issues: map<string, Issue>, x: string): map<string, Issue>
    requires x in issues
  {
    issues[x := issues[x].(status := StatusClosed)]
  }

  /** Every `blocks` dependency of `deps` points at a missing or closed issue. */
  predicate Unblocked(issues: map<string, Issue>, deps: seq<Dependency>)
  {
    forall i :: 0 <= i < |deps| && deps[i].depType == DepBlocks ==> !IsOpenIn(issues, deps[i].dependsOnID)
  }

  /**
   * An open issue blocked by `x` is among those `x` unblocks exactly when, once `x` is closed,
   * none of its `blocks` dependencies is open.
   */
  lemma UnblocksMeansUnblockedAfterClosing(issues: map<string, Issue>, x: string, issue: Issue)
    requires x in issues && issue.status != StatusClosed && HasBlocker(issue.deps, x)
    ensures WouldUnblock(issues, issue, x) <==> Unblocked(Closing(issues, x), issue.deps)
  {
    var after := Closing(issues, x);
    if WouldUnblock(issues, issue, x) {
      forall i | 0 <= i < |issue.deps| && issue.deps[i].depType == DepBlocks
        ensures !IsOpenIn(after, issue.deps[i].dependsOnID)
      {
        if issue.deps[i].dependsOnID != x {
          assert !OpenBlockerOtherThan(issues, issue.deps[i], x);
        }
      }
    } else {
      var i :| 0 <= i < |issue.deps| && OpenBlockerOtherThan(issues, issue.deps[i], x);
      assert IsOpenIn(after, issue.deps[i].dependsOnID);
    }
  }
}
