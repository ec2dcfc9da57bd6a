/**
 * The execution plan of the analysis package: which issues a given issue would unblock,
 * connected components of the dependency graph (union-find with path compression),
 * parallel tracks of actionable work, the highest-impact summary and track identifiers.
 */
module ExecutionPlan {
  import opened Wrappers
  import opened Sorting
  import opened Issues
  import opened DisjointSets

  datatype PlanItem = PlanItem(id: string, title: string, priority: int, status: string, unblocksIDs: seq<string>)
  datatype ExecutionTrack = ExecutionTrack(trackID: string, items: seq<PlanItem>, reason: string)
  datatype PlanSummary = PlanSummary(highestImpact: string, impactReason: string, unblocksCount: int)
  datatype Plan = Plan(tracks: seq<ExecutionTrack>, totalActionable: int, totalBlocked: int, summary: PlanSummary)

  const ReasonSingle: string := "Single actionable item"
  const ReasonConnected: string := "All issues in connected graph"
  const ReasonIndependent: string := "Independent work stream"
  const ImpactOne: string := "Unblocks 1 task"
  const ImpactMany: string := "Unblocks multiple tasks"
  const ImpactNone: string := "No downstream dependencies"
  const TrackPrefix: string := "track-"
  const TrackUnknown: string := "track-?"

  // ---------------------------------------------------------------- unblocks

  predicate BlocksOn(d: Dependency, x: string)
  {
    d.depType == DepBlocks && d.dependsOnID == x
  }

  /** A `blocks` dependency on some existing, non-closed issue other than `x`. */
  predicate OpenBlockerOtherThan(issues: map<string, Issue>, d: Dependency, x: string)
  {
    d.depType == DepBlocks && d.dependsOnID != x && IsOpenIn(issues, d.dependsOnID)
  }

  predicate HasBlocker(deps: seq<Dependency>, x: string)
  {
    exists i :: 0 <= i < |deps| && BlocksOn(deps[i], x)
  }

  predicate HasOtherOpenBlocker(issues: map<string, Issue>, deps: seq<Dependency>, x: string)
  {
    exists i :: 0 <= i < |deps| && OpenBlockerOtherThan(issues, deps[i], x)
  }

  /** Closing `x` would leave `issue` with no open blocker. */
  predicate WouldUnblock(issues: map<string, Issue>, issue: Issue, x: string)
  {
    issue.status != StatusClosed && HasBlocker(issue.deps, x) && !HasOtherOpenBlocker(issues, issue.deps, x)
  }

  /** The dependency scan of one issue; it stops at the first other open blocker. */
  method ScanBlockers(issues: map<string, Issue>, deps: seq<Dependency>, x: string)
    returns (hasThisBlocker: bool, wouldBeBlocked: bool)
    ensures wouldBeBlocked <==> HasOtherOpenBlocker(issues, deps, x)
    ensures !wouldBeBlocked ==> (hasThisBlocker <==> HasBlocker(deps, x))
  {
    hasThisBlocker, wouldBeBlocked := false, false;
    for i := 0 to |deps|
      invariant !wouldBeBlocked
      invariant hasThisBlocker <==> exists j :: 0 <= j < i && BlocksOn(deps[j], x)
      invariant forall j :: 0 <= j < i ==> !OpenBlockerOtherThan(issues, deps[j], x)
    {
      var dep := deps[i];
      if dep.depType != DepBlocks {
        continue;
      }
      if dep.dependsOnID == x {
        hasThisBlocker := true;
        continue;
      }
      if dep.dependsOnID in issues && issues[dep.dependsOnID].status != StatusClosed {
        wouldBeBlocked := true;
        break;
      }
    }
  }

  /** The issues that become actionable once `x` is closed, sorted and without repeats. */
  method ComputeUnblocks(issues: map<string, Issue>, x: string) returns (unblocks: seq<string>)
    requires WellKeyed(issues)
    ensures SortedStrings(unblocks) && NoDuplicates(unblocks)
    ensures forall id :: id in unblocks <==> id in issues && WouldUnblock(issues, issues[id], x)
  {
    var acc: seq<string> := [];
    var todo := issues.Keys;
    while todo != {}
      invariant todo <= issues.Keys
      invariant NoDuplicates(acc)
      invariant forall id :: id in acc <==> id in issues && id !in todo && WouldUnblock(issues, issues[id], x)
      decreases |todo|
    {
      var key :| key in todo;
      todo := todo - {key};
      var issue := issues[key];
      if issue.status == StatusClosed {
        continue;
      }
      var has, blocked := ScanBlockers(issues, issue.deps, x);
      if has && !blocked {
        acc := acc + [issue.id];
      }
    }
    unblocks := SortStrings(acc);
    SortStringsSorted(acc);
    NoDuplicatesPermutation(acc, unblocks);
  }

  // ---------------------------------------------------------------- components

  /** A `blocks` dependency whose target is a known issue links two issues. */
  predicate Links(issues: map<string, Issue>, d: Dependency)
  {
    d.depType == DepBlocks && d.dependsOnID in issues
  }

  /** Every issue appears in exactly one component, once; each component is keyed by one of its members. */
  predicate Partition(issues: map<string, Issue>, comps: map<string, seq<string>>)
  {
    (forall r :: r in comps ==> r in comps[r] && NoDuplicates(comps[r])) &&
    (forall r, id :: r in comps && id in comps[r] ==> id in issues) &&
    (forall id :: id in issues ==> exists r :: r in comps && id in comps[r]) &&
    (forall r1, r2, id :: r1 in comps && r2 in comps && id in comps[r1] && id in comps[r2] ==> r1 == r2)
  }

  predicate SameComponent(comps: map<string, seq<string>>, a: string, b: string)
  {
    exists r :: r in comps && a in comps[r] && b in comps[r]
  }

  predicate LinkedTogether(issues: map<string, Issue>, comps: map<string, seq<string>>)
  {
    forall id, i :: id in issues && 0 <= i < |issues[id].deps| && Links(issues, issues[id].deps[i]) ==>
      SameComponent(comps, id, issues[id].deps[i].dependsOnID)
  }

  /** Registers every issue ID as a singleton set. */
  method InitSets(uf: UnionFind, issues: map<string, Issue>)
    requires uf.Valid() && uf.parent == map[]
    modifies uf
    ensures uf.Valid() && uf.parent.Keys == issues.Keys && uf.root.Keys == issues.Keys
    ensures forall x :: x in uf.root ==> uf.root[x] == x
  {
    var ids := MapKeys(issues);
    for i := 0 to |ids|
      invariant uf.Valid() && forall x :: x in uf.parent <==> x in ids[..i]
      invariant forall x :: x in uf.root ==> uf.root[x] == x
    {
      assert ids[..i + 1] == ids[..i] + [ids[i]];
      uf.MakeSet(ids[i]);
    }
    assert ids[..|ids|] == ids;
  }

  // ---------------------------------------------------------------- undirected chains

  /** Issue `a` has a `blocks` dependency on the known issue `b`. */
  ghost predicate LinksTo(issues: map<string, Issue>, a: string, b: string)
  {
    a in issues &&
    exists i :: 0 <= i < |issues[a].deps| && Links(issues, issues[a].deps[i]) && issues[a].deps[i].dependsOnID == b
  }

  /** `a` and `b` are linked by a `blocks` dependency, in either direction. */
  ghost predicate Adjacent(issues: map<string, Issue>, a: string, b: string)
  {
    LinksTo(issues, a, b) || LinksTo(issues, b, a)
  }

  /** A non-empty walk over known issues in which each step follows a link, in either direction. */
  ghost predicate Chain(issues: map<string, Issue>, p: seq<string>)
  {
    |p| > 0 && (forall k :: 0 <= k < |p| ==> p[k] in issues) &&
    forall k :: 0 <= k < |p| - 1 ==> Adjacent(issues, p[k], p[k + 1])
  }

  /** Some chain leads from `a` to `b`. */
  ghost predicate Connected(issues: map<string, Issue>, a: string, b: string)
  {
    exists p :: Chain(issues, p) && p[0] == a && p[|p| - 1] == b
  }

  lemma ConnectedRefl(issues: map<string, Issue>, a: string)
    requires a in issues
    ensures Connected(issues, a, a)
  {
    assert Chain(issues, [a]);
  }

  /** A chain followed by one more link is a chain. */
  lemma ConnectedStep(issues: map<string, Issue>, a: string, b: string, c: string)
    requires Connected(issues, a, b) && Adjacent(issues, b, c)
    ensures Connected(issues, a, c)
  {
    var p :| Chain(issues, p) && p[0] == a && p[|p| - 1] == b;
    var q := p + [c];
    assert c in issues by {
      if !LinksTo(issues, b, c) {
        assert LinksTo(issues, c, b);
      } else {
        var i :| 0 <= i < |issues[b].deps| && Links(issues, issues[b].deps[i]) && issues[b].deps[i].dependsOnID == c;
      }
    }
    forall k | 0 <= k < |q| - 1 ensures Adjacent(issues, q[k], q[k + 1]) {
      if k < |p| - 1 {
        assert q[k] == p[k] && q[k + 1] == p[k + 1];
      }
    }
    assert Chain(issues, q);
  }

  /** A chain read backwards is a chain. */
  lemma ConnectedSym(issues: map<string, Issue>, a: string, b: string)
    requires Connected(issues, a, b)
    ensures Connected(issues, b, a)
  {
    var p :| Chain(issues, p) && p[0] == a && p[|p| - 1] == b;
    var q := seq(|p|, k requires 0 <= k < |p| => p[|p| - 1 - k]);
    forall k | 0 <= k < |q| - 1 ensures Adjacent(issues, q[k], q[k + 1]) {
      var j := |p| - 2 - k;
      assert Adjacent(issues, p[j], p[j + 1]);
      assert q[k] == p[j + 1] && q[k + 1] == p[j];
    }
    assert Chain(issues, q);
  }

  /** Two chains meeting end to start make one chain. */
  lemma {:induction false} ConnectedTrans(issues: map<string, Issue>, a: string, b: string, c: string)
    requires Connected(issues, a, b) && Connected(issues, b, c)
    ensures Connected(issues, a, c)
  {
    var q :| Chain(issues, q) && q[0] == b && q[|q| - 1] == c;
    ConnectedAlongTo(issues, a, q, |q| - 1);
  }

  /** Every issue of the chain `q` is reached from `a` when its first one is. */
  lemma {:induction false} ConnectedAlongTo(issues: map<string, Issue>, a: string, q: seq<string>, k: nat)
    requires Chain(issues, q) && k < |q| && Connected(issues, a, q[0])
    ensures Connected(issues, a, q[k])
  {
    if k > 0 {
      ConnectedAlongTo(issues, a, q, k - 1);
      ConnectedStep(issues, a, q[k - 1], q[k]);
    }
  }

  /** Issues sharing a representative are connected by a chain. */
  ghost predicate RootsConnected(issues: map<string, Issue>, root: map<string, string>)
  {
    forall a, b :: a in root && b in root && root[a] == root[b] ==> Connected(issues, a, b)
  }

  /** Singleton sets: only an issue shares its representative with itself. */
  lemma SingletonsConnected(issues: map<string, Issue>, root: map<string, string>)
    requires root.Keys == issues.Keys && forall x :: x in root ==> root[x] == x
    ensures RootsConnected(issues, root)
  {
    forall a, b | a in root && b in root && root[a] == root[b] ensures Connected(issues, a, b) {
      ConnectedRefl(issues, a);
    }
  }

  /** Merging the sets of two adjacent issues keeps every set connected. */
  lemma MergeConnected(issues: map<string, Issue>, r0: map<string, string>, r1: map<string, string>, x: string, y: string)
    requires x in r0 && y in r0 && Merged(r0, r1, x, y)
    requires RootsConnected(issues, r0) && Adjacent(issues, x, y)
    ensures RootsConnected(issues, r1)
  {
    forall a, b | a in r1 && b in r1 && r1[a] == r1[b] ensures Connected(issues, a, b) {
      assert a in r0 && b in r0;
      if r0[a] == r0[b] {
      } else if r0[a] == r0[x] && r0[b] == r0[y] {
        ConnectedStep(issues, a, x, y);
        ConnectedTrans(issues, a, y, b);
      } else {
        assert r0[a] == r0[y] && r0[b] == r0[x];
        assert Adjacent(issues, y, x);
        ConnectedStep(issues, a, y, x);
        ConnectedTrans(issues, a, x, b);
      }
    }
  }

  /** Every issue `id` is linked to has the same representative as `id`. */
  ghost predicate LinkedUnder(issues: map<string, Issue>, root: map<string, string>, id: string)
    requires id in issues && root.Keys == issues.Keys
  {
    forall i :: 0 <= i < |issues[id].deps| && Links(issues, issues[id].deps[i]) ==>
      root[id] == root[issues[id].deps[i].dependsOnID]
  }

  lemma CoarserTransitive(r0: map<string, string>, r1: map<string, string>, r2: map<string, string>)
    requires Coarser(r0, r1) && Coarser(r1, r2)
    ensures Coarser(r0, r2)
  {
  }

  /** Every issue among `ids` is linked to everything it links to. */
  ghost predicate AllLinked(issues: map<string, Issue>, root: map<string, string>, ids: seq<string>)
    requires root.Keys == issues.Keys
  {
    forall j :: 0 <= j < |ids| && ids[j] in issues ==> LinkedUnder(issues, root, ids[j])
  }

  lemma LinkedPreserved(issues: map<string, Issue>, r0: map<string, string>, r1: map<string, string>, ids: seq<string>)
    requires r0.Keys == issues.Keys && Coarser(r0, r1) && AllLinked(issues, r0, ids)
    ensures AllLinked(issues, r1, ids)
  {
    forall j | 0 <= j < |ids| && ids[j] in issues ensures LinkedUnder(issues, r1, ids[j]) {
      assert LinkedUnder(issues, r0, ids[j]);
    }
  }

  lemma LinkedStep(issues: map<string, Issue>, r0: map<string, string>, r1: map<string, string>, ids: seq<string>, i: nat)
    requires r0.Keys == issues.Keys && i < |ids| && ids[i] in issues
    requires Coarser(r0, r1) && AllLinked(issues, r0, ids[..i]) && LinkedUnder(issues, r1, ids[i])
    ensures AllLinked(issues, r1, ids[..i + 1])
  {
    LinkedPreserved(issues, r0, r1, ids[..i]);
    assert ids[..i + 1] == ids[..i] + [ids[i]];
  }

  lemma LinkedCovers(issues: map<string, Issue>, root: map<string, string>, ids: seq<string>)
    requires root.Keys == issues.Keys && AllLinked(issues, root, ids) && forall id :: id in issues ==> id in ids
    ensures forall id :: id in issues ==> LinkedUnder(issues, root, id)
  {
    forall id | id in issues ensures LinkedUnder(issues, root, id) {
      var j :| 0 <= j < |ids| && ids[j] == id;
    }
  }

  /** Unions issue `key` with each existing issue it has a `blocks` dependency on. */
  method UnionDeps(uf: UnionFind, issues: map<string, Issue>, key: string)
    requires uf.Valid() && uf.parent.Keys == issues.Keys && uf.root.Keys == issues.Keys && key in issues
    requires RootsConnected(issues, uf.root)
    modifies uf
    ensures uf.Valid() && uf.parent.Keys == issues.Keys && uf.root.Keys == issues.Keys
    ensures LinkedUnder(issues, uf.root, key)
    ensures Coarser(old(uf.root), uf.root)
    ensures RootsConnected(issues, uf.root)
  {
    var deps := issues[key].deps;
    for i := 0 to |deps|
      invariant uf.Valid() && uf.parent.Keys == issues.Keys && uf.root.Keys == issues.Keys
      invariant JoinedUpTo(issues, uf.root, key, deps, i)
      invariant Coarser(old(uf.root), uf.root)
      invariant RootsConnected(issues, uf.root)
    {
      var dep := deps[i];
      ghost var before := uf.root;
      if dep.depType == DepBlocks && dep.dependsOnID in issues {
        uf.Union(key, dep.dependsOnID);
        CoarserTransitive(old(uf.root), before, uf.root);
        UnionConnected(issues, key, i, before, uf.root);
      } else {
        CoarserRefl(before);
      }
      JoinsStep(issues, deps, key, i, before, uf.root);
    }
  }

  /** Uniting `key` with the target of its `i`-th dependency, a link, keeps every set connected. */
  lemma UnionConnected(issues: map<string, Issue>, key: string, i: nat, r0: map<string, string>, r1: map<string, string>)
    requires key in issues && i < |issues[key].deps| && Links(issues, issues[key].deps[i])
    requires key in r0 && issues[key].deps[i].dependsOnID in r0
    requires Merged(r0, r1, key, issues[key].deps[i].dependsOnID) && RootsConnected(issues, r0)
    ensures RootsConnected(issues, r1)
  {
    var d := issues[key].deps[i].dependsOnID;
    assert LinksTo(issues, key, d);
    MergeConnected(issues, r0, r1, key, d);
  }

  /** `key` shares its representative with each of its first `i` linked dependencies. */
  ghost predicate JoinedUpTo(issues: map<string, Issue>, root: map<string, string>, key: string,
                             deps: seq<Dependency>, i: nat)
    requires root.Keys == issues.Keys && key in issues && i <= |deps|
  {
    forall j :: 0 <= j < i && Links(issues, deps[j]) ==> root[key] == root[deps[j].dependsOnID]
  }

  /** A coarser partition keeps the joins already made, and the `i`-th dependency, once joined, extends them. */
  lemma JoinsStep(issues: map<string, Issue>, deps: seq<Dependency>, key: string, i: nat,
                  r0: map<string, string>, r1: map<string, string>)
    requires Coarser(r0, r1) && r0.Keys == issues.Keys && key in issues && i < |deps|
    requires JoinedUpTo(issues, r0, key, deps, i)
    requires Links(issues, deps[i]) ==> r1[key] == r1[deps[i].dependsOnID]
    ensures JoinedUpTo(issues, r1, key, deps, i + 1)
  {
    forall j | 0 <= j < i + 1 && Links(issues, deps[j]) ensures r1[key] == r1[deps[j].dependsOnID] {
      if j < i {
        var d := deps[j].dependsOnID;
        assert key in r0 && d in r0 && r0[key] == r0[d];
      }
    }
  }

  /** Unions every issue with each existing issue it has a `blocks` dependency on. */
  method UnionLinked(uf: UnionFind, issues: map<string, Issue>)
    requires uf.Valid() && uf.parent.Keys == issues.Keys && uf.root.Keys == issues.Keys
    requires RootsConnected(issues, uf.root)
    modifies uf
    ensures uf.Valid() && uf.parent.Keys == issues.Keys && uf.root.Keys == issues.Keys
    ensures forall id :: id in issues ==> LinkedUnder(issues, uf.root, id)
    ensures RootsConnected(issues, uf.root)
  {
    var ids := MapKeys(issues);
    for i := 0 to |ids|
      invariant uf.Valid() && uf.parent.Keys == issues.Keys && uf.root.Keys == issues.Keys
      invariant AllLinked(issues, uf.root, ids[..i])
      invariant RootsConnected(issues, uf.root)
    {
      ghost var before := uf.root;
      UnionDeps(uf, issues, ids[i]);
      LinkedStep(issues, before, uf.root, ids, i);
    }
    LinkedCovers(issues, uf.root, ids[..|ids|]);
  }

  /** The grouping built so far: each issue outside `todo` sits, once, under its representative. */
  ghost predicate Grouped(components: map<string, seq<string>>, ids: set<string>, todo: set<string>, root: map<string, string>)
  {
    ids <= root.Keys &&
    (forall r :: r in components ==> r in ids && r in root && root[r] == r && NoDuplicates(components[r])) &&
    (forall r, x :: r in components && x in components[r] ==> x in ids && x !in todo && root[x] == r) &&
    (forall x :: x in ids && x !in todo ==> root[x] in components && x in components[root[x]])
  }

  lemma GroupStep(components: map<string, seq<string>>, ids: set<string>, todo: set<string>, root: map<string, string>, id: string)
    requires Grouped(components, ids, todo, root) && id in todo && id in ids
    requires root[id] in ids && root[root[id]] == root[id]
    ensures var r := root[id];
      Grouped(components[r := (if r in components then components[r] else []) + [id]], ids, todo - {id}, root)
  {
    var r := root[id];
    var members := if r in components then components[r] else [];
    assert id !in members;
    var c := components[r := members + [id]];
    forall r', x | r' in c && x in c[r'] ensures x in ids && x !in todo - {id} && root[x] == r' {
      if r' != r {
        assert x in components[r'];
      } else if x != id {
        assert x in members;
      }
    }
    forall x | x in ids && x !in todo - {id} ensures root[x] in c && x in c[root[x]] {
      if x != id {
        assert root[x] in components && x in components[root[x]];
      }
    }
  }

  /** Groups every issue ID under its representative. */
  method GroupByRoot(uf: UnionFind, issues: map<string, Issue>) returns (components: map<string, seq<string>>)
    requires uf.Valid() && uf.parent.Keys == issues.Keys
    modifies uf
    ensures uf.Valid() && uf.root == old(uf.root)
    ensures Grouped(components, issues.Keys, {}, uf.root)
  {
    ghost var root := uf.root;
    components := map[];
    var todo := issues.Keys;
    while todo != {}
      invariant todo <= issues.Keys
      invariant uf.Valid() && uf.parent.Keys == issues.Keys && uf.root == root
      invariant Grouped(components, issues.Keys, todo, root)
      decreases |todo|
    {
      var id :| id in todo;
      var r := uf.Find(id);
      assert NodeOk(uf.parent, uf.root, uf.rank, id);
      assert NodeOk(uf.parent, uf.root, uf.rank, r);
      GroupStep(components, issues.Keys, todo, root, id);
      RemoveShrinks(todo, id);
      todo := todo - {id};
      var members := if r in components then components[r] else [];
      components := components[r := members + [id]];
    }
  }

  lemma GroupedPartition(issues: map<string, Issue>, root: map<string, string>, components: map<string, seq<string>>)
    requires root.Keys == issues.Keys && Grouped(components, issues.Keys, {}, root)
    ensures Partition(issues, components)
  {
    GroupedCovers(issues, root, components);
    GroupedDisjoint(components, issues.Keys, root);
  }

  /** Every root heads its own list, and every issue is listed under some root. */
  lemma GroupedCovers(issues: map<string, Issue>, root: map<string, string>, components: map<string, seq<string>>)
    requires root.Keys == issues.Keys && Grouped(components, issues.Keys, {}, root)
    ensures forall r :: r in components ==> r in components[r] && NoDuplicates(components[r])
    ensures forall id :: id in issues ==> exists r :: r in components && id in components[r]
  {
    forall r | r in components ensures r in components[r] && NoDuplicates(components[r]) {
      assert root[r] == r;
    }
    forall id | id in issues ensures exists r :: r in components && id in components[r] {
      assert root[id] in components;
    }
  }

  /** Only the grouped identifiers are listed, each under its root alone. */
  lemma GroupedDisjoint(components: map<string, seq<string>>, ids: set<string>, root: map<string, string>)
    requires Grouped(components, ids, {}, root)
    ensures forall r, id :: r in components && id in components[r] ==> id in ids
    ensures forall r1, r2, id :: r1 in components && r2 in components && id in components[r1] && id in components[r2] ==> r1 == r2
  {
    forall r1, r2, id | r1 in components && r2 in components && id in components[r1] && id in components[r2]
      ensures r1 == r2
    {
      assert root[id] == r1 && root[id] == r2;
    }
  }

  lemma GroupedLinked(issues: map<string, Issue>, root: map<string, string>, components: map<string, seq<string>>)
    requires root.Keys == issues.Keys && Grouped(components, issues.Keys, {}, root)
    requires forall id :: id in issues ==> LinkedUnder(issues, root, id)
    ensures LinkedTogether(issues, components)
  {
    forall id, i | id in issues && 0 <= i < |issues[id].deps| && Links(issues, issues[id].deps[i])
      ensures SameComponent(components, id, issues[id].deps[i].dependsOnID)
    {
      assert LinkedUnder(issues, root, id);
      var r := root[id];
      var t := issues[id].deps[i].dependsOnID;
      assert root[t] == r;
      assert r in components && id in components[r] && t in components[r];
    }
  }

  /** Two members of one component are joined by a chain of links. */
  ghost predicate ChainedTogether(issues: map<string, Issue>, comps: map<string, seq<string>>)
  {
    forall r, a, b :: r in comps && a in comps[r] && b in comps[r] ==> Connected(issues, a, b)
  }

  lemma GroupedChained(issues: map<string, Issue>, root: map<string, string>, components: map<string, seq<string>>)
    requires root.Keys == issues.Keys && Grouped(components, issues.Keys, {}, root)
    requires RootsConnected(issues, root)
    ensures ChainedTogether(issues, components)
  {
    forall r, a, b | r in components && a in components[r] && b in components[r] ensures Connected(issues, a, b) {
      GroupedUnder(components, issues.Keys, root, r, a);
      GroupedUnder(components, issues.Keys, root, r, b);
      SharedRootConnected(issues, root, a, b);
    }
  }

  lemma GroupedUnder(components: map<string, seq<string>>, ids: set<string>, root: map<string, string>, r: string, x: string)
    requires Grouped(components, ids, {}, root) && r in components && x in components[r]
    ensures x in root && root[x] == r
  {
  }

  lemma SharedRootConnected(issues: map<string, Issue>, root: map<string, string>, a: string, b: string)
    requires RootsConnected(issues, root) && a in root && b in root && root[a] == root[b]
    ensures Connected(issues, a, b)
  {
  }

  /**
   * Groups issues linked by `blocks` dependencies (ignoring direction) into components:
   * linked issues share a component, and members of one component are joined by a chain
   * of links, so the components are the classes of the undirected link closure.
   */
  method FindConnectedComponents(issues: map<string, Issue>) returns (components: map<string, seq<string>>)
    requires WellKeyed(issues)
    ensures Partition(issues, components)
    ensures LinkedTogether(issues, components)
    ensures ChainedTogether(issues, components)
  {
    var uf := new UnionFind();
    InitSets(uf, issues);
    SingletonsConnected(issues, uf.root);
    UnionLinked(uf, issues);
    components := GroupByRoot(uf, issues);
    GroupedPartition(issues, uf.root, components);
    GroupedLinked(issues, uf.root, components);
    GroupedChained(issues, uf.root, components);
  }

  // ---------------------------------------------------------------- track identifiers

  function Letter(d: nat): char
    requires d < 26
  {
    ('A' as int + d) as char
  }

  /** Bijective base-26 numeral of the 0-based index `m` over A..Z (0 is "A", 25 "Z", 26 "AA"); empty below 0. */
  function Numeral(m: int): string
    decreases m + 1
  {
    if m < 0 then "" else Numeral(m / 26 - 1) + [Letter(m % 26)]
  }

  function TrackID(n: int): string
  {
    if n <= 0 then TrackUnknown else TrackPrefix + Numeral(n - 1)
  }

  lemma NumeralStep(m: nat, letters: string)
    ensures -1 <= m / 26 - 1 < m && 0 <= m % 26 < 26
    ensures Numeral(m / 26 - 1) + ([Letter(m % 26)] + letters) == Numeral(m) + letters
  {
  }

  /** The track identifier for the 1-based track number `n`. */
  method GenerateTrackID(n: int) returns (id: string)
    ensures id == TrackID(n)
  {
    if n <= 0 {
      return TrackUnknown;
    }
    var m := n - 1;
    var letters: string := [];
    while m >= 0
      invariant m >= -1
      invariant Numeral(m) + letters == Numeral(n - 1)
      decreases m + 1
    {
      NumeralStep(m, letters);
      letters := [Letter(m % 26)] + letters;
      m := m / 26 - 1;
    }
    id := TrackPrefix + letters;
  }

  // ---------------------------------------------------------------- tracks

  /** Priority ascending, then ID ascending. */
  function IssueLe(): (Issue, Issue) -> bool
  {
    (a: Issue, b: Issue) => a.priority < b.priority || (a.priority == b.priority && StrLessEq(a.id, b.id))
  }

  function ItemLe(): (PlanItem, PlanItem) -> bool
  {
    (a: PlanItem, b: PlanItem) => a.priority < b.priority || (a.priority == b.priority && StrLessEq(a.id, b.id))
  }

  lemma IssueLeTotal()
    ensures TotalPreorder(IssueLe())
  {
    StringLeTotal();
    assert TotalPreorder(StringLe());
    forall a: Issue, b: Issue ensures IssueLe()(a, b) || IssueLe()(b, a) {
      assert StringLe()(a.id, b.id) || StringLe()(b.id, a.id);
    }
    forall a: Issue, b: Issue, c: Issue | IssueLe()(a, b) && IssueLe()(b, c) ensures IssueLe()(a, c) {
      if a.priority == b.priority && b.priority == c.priority {
        assert StringLe()(a.id, b.id) && StringLe()(b.id, c.id);
      }
    }
  }

  function InSet(s: set<string>): string -> bool
  {
    (id: string) => id in s
  }

  function UnblocksOf(unblocksMap: map<string, seq<string>>, id: string): seq<string>
  {
    if id in unblocksMap then unblocksMap[id] else []
  }

  function ToPlanItem(issue: Issue, unblocksMap: map<string, seq<string>>): PlanItem
  {
    PlanItem(issue.id, issue.title, issue.priority, issue.status, UnblocksOf(unblocksMap, issue.id))
  }

  function IDs(items: seq<PlanItem>): (r: seq<string>)
    ensures |r| == |items| && forall k :: 0 <= k < |items| ==> r[k] == items[k].id
  {
    if items == [] then [] else [items[0].id] + IDs(items[1..])
  }

  function TrackReason(actionableCount: nat, componentCount: nat): string
  {
    if actionableCount == 1 then ReasonSingle
    else if componentCount == 1 then ReasonConnected
    else ReasonIndependent
  }

  predicate HasActionable(members: seq<string>, actionableSet: set<string>)
  {
    exists id :: id in members && id in actionableSet
  }

  /**
   * Track number `num` built from component `members`: its actionable members, each
   * copied from its issue, ordered by priority and then ID.
   */
  ghost predicate TrackOk(track: ExecutionTrack, num: nat, issues: map<string, Issue>, componentCount: nat,
                          members: seq<string>, actionableSet: set<string>, unblocksMap: map<string, seq<string>>)
  {
    track.trackID == TrackID(num) &&
    |track.items| > 0 &&
    ItemsOk(track.items, issues, members, actionableSet, unblocksMap) &&
    track.reason == TrackReason(|track.items|, componentCount)
  }

  /** The items of a track: one per actionable member, copied from its issue, by priority then ID. */
  ghost predicate ItemsOk(items: seq<PlanItem>, issues: map<string, Issue>, members: seq<string>,
                          actionableSet: set<string>, unblocksMap: map<string, seq<string>>)
  {
    |items| == CountWhere(members, InSet(actionableSet)) &&
    (forall id :: id in IDs(items) <==> id in members && id in actionableSet) &&
    (forall k :: 0 <= k < |items| ==>
      items[k].id in issues && items[k] == ToPlanItem(issues[items[k].id], unblocksMap)) &&
    SortedBy(items, ItemLe())
  }

  ghost predicate TracksOk(tracks: seq<ExecutionTrack>, trackRoots: seq<string>, issues: map<string, Issue>,
                           components: map<string, seq<string>>, actionableSet: set<string>, unblocksMap: map<string, seq<string>>)
  {
    |trackRoots| == |tracks| &&
    forall t :: 0 <= t < |tracks| ==>
      (trackRoots[t] in components &&
       TrackOk(tracks[t], t + 1, issues, |components|, components[trackRoots[t]], actionableSet, unblocksMap))
  }

  /** `am` holds the issue of every actionable member, once per occurrence, and nothing else. */
  ghost predicate Picked(am: seq<Issue>, issues: map<string, Issue>, members: seq<string>, actionableSet: set<string>)
  {
    |am| == CountWhere(members, InSet(actionableSet)) &&
    (forall k :: 0 <= k < |am| ==> am[k].id in members && am[k].id in actionableSet && am[k].id in issues && am[k] == issues[am[k].id]) &&
    (forall id :: id in members && id in actionableSet ==> id in issues && issues[id] in am)
  }

  lemma PickedNone(am: seq<Issue>, issues: map<string, Issue>, members: seq<string>, actionableSet: set<string>)
    requires Picked(am, issues, members, actionableSet) && |am| == 0
    ensures !HasActionable(members, actionableSet)
  {
  }

  /** The issues of the actionable `members`, in member order. */
  method ActionableMembers(issues: map<string, Issue>, members: seq<string>, actionableSet: set<string>)
    returns (am: seq<Issue>)
    requires WellKeyed(issues) && forall id :: id in members ==> id in issues
    ensures Picked(am, issues, members, actionableSet)
  {
    am := [];
    for i := 0 to |members|
      invariant Picked(am, issues, members[..i], actionableSet)
    {
      var id := members[i];
      assert members[..i + 1] == members[..i] + [id];
      CountWhereAppend<string>(members[..i], id, InSet(actionableSet));
      if id in actionableSet {
        am := am + [issues[id]];
      }
    }
    assert members[..|members|] == members;
  }

  function ItemsOf(sorted: seq<Issue>, unblocksMap: map<string, seq<string>>): (items: seq<PlanItem>)
    ensures |items| == |sorted|
    ensures forall k :: 0 <= k < |sorted| ==> items[k] == ToPlanItem(sorted[k], unblocksMap)
  {
    seq(|sorted|, k requires 0 <= k < |sorted| => ToPlanItem(sorted[k], unblocksMap))
  }

  method MakeItems(sorted: seq<Issue>, unblocksMap: map<string, seq<string>>) returns (items: seq<PlanItem>)
    ensures items == ItemsOf(sorted, unblocksMap)
  {
    items := [];
    for i := 0 to |sorted|
      invariant |items| == i
      invariant forall k :: 0 <= k < i ==> items[k] == ToPlanItem(sorted[k], unblocksMap)
    {
      items := items + [ToPlanItem(sorted[i], unblocksMap)];
    }
  }

  /** Sorting the actionable members and copying them into items gives the items of a track. */
  lemma SortedItemsOk(issues: map<string, Issue>, members: seq<string>, actionableSet: set<string>,
                      unblocksMap: map<string, seq<string>>, am: seq<Issue>)
    requires WellKeyed(issues) && forall id :: id in members ==> id in issues
    requires Picked(am, issues, members, actionableSet)
    ensures ItemsOk(ItemsOf(Sort(am, IssueLe()), unblocksMap), issues, members, actionableSet, unblocksMap)
  {
    var sorted := Sort(am, IssueLe());
    IssueLeTotal();
    SortSorted(am, IssueLe());
    var items := ItemsOf(sorted, unblocksMap);
    ItemsMembers(issues, members, actionableSet, unblocksMap, am, sorted, items);
    ItemsOrdered(sorted, unblocksMap, items);
  }

  /** The track for one component with at least one actionable member. */
  method MakeTrack(issues: map<string, Issue>, componentCount: nat, members: seq<string>, actionableSet: set<string>,
                   unblocksMap: map<string, seq<string>>, am: seq<Issue>, num: nat)
    returns (track: ExecutionTrack)
    requires WellKeyed(issues) && forall id :: id in members ==> id in issues
    requires |am| > 0 && Picked(am, issues, members, actionableSet)
    ensures TrackOk(track, num, issues, componentCount, members, actionableSet, unblocksMap)
  {
    var sorted := Sort(am, IssueLe());
    var items := MakeItems(sorted, unblocksMap);
    SortedItemsOk(issues, members, actionableSet, unblocksMap, am);
    var reason := ReasonIndependent;
    if |sorted| == 1 {
      reason := ReasonSingle;
    } else if componentCount == 1 {
      reason := ReasonConnected;
    }
    var tid := GenerateTrackID(num);
    track := ExecutionTrack(tid, items, reason);
  }

  lemma {:induction false} ItemsMembers(issues: map<string, Issue>, members: seq<string>, actionableSet: set<string>,
                     unblocksMap: map<string, seq<string>>, am: seq<Issue>, sorted: seq<Issue>, items: seq<PlanItem>)
    requires WellKeyed(issues) && forall id :: id in members ==> id in issues
    requires Picked(am, issues, members, actionableSet)
    requires forall x :: x in sorted <==> x in am
    requires |items| == |sorted| && forall k :: 0 <= k < |sorted| ==> items[k] == ToPlanItem(sorted[k], unblocksMap)
    ensures forall id :: id in IDs(items) <==> id in members && id in actionableSet
    ensures forall k :: 0 <= k < |items| ==> items[k].id in issues && items[k] == ToPlanItem(issues[items[k].id], unblocksMap)
  {
    forall id | id in IDs(items) ensures id in members && id in actionableSet {
      var k :| 0 <= k < |items| && IDs(items)[k] == id;
      assert sorted[k] in am;
      var j :| 0 <= j < |am| && am[j] == sorted[k];
    }
    forall id | id in members && id in actionableSet ensures id in IDs(items) {
      assert issues[id] in am;
      var k :| 0 <= k < |sorted| && sorted[k] == issues[id];
      assert IDs(items)[k] == id;
    }
    forall k | 0 <= k < |items| ensures items[k].id in issues && items[k] == ToPlanItem(issues[items[k].id], unblocksMap) {
      assert sorted[k] in am;
      var j :| 0 <= j < |am| && am[j] == sorted[k];
    }
  }

  lemma ItemsOrdered(sorted: seq<Issue>, unblocksMap: map<string, seq<string>>, items: seq<PlanItem>)
    requires SortedBy(sorted, IssueLe())
    requires |items| == |sorted| && forall k :: 0 <= k < |sorted| ==> items[k] == ToPlanItem(sorted[k], unblocksMap)
    ensures SortedBy(items, ItemLe())
  {
    forall i, j | 0 <= i < j < |items| ensures ItemLe()(items[i], items[j]) {
      assert IssueLe()(sorted[i], sorted[j]);
    }
  }

  /** Strictly increasing strings. */
  predicate StrictlySorted(s: seq<string>)
  {
    forall i, j :: 0 <= i < j < |s| ==> StrLess(s[i], s[j])
  }

  /** The map's keys in sorted order. */
  method SortedKeys(components: map<string, seq<string>>) returns (roots: seq<string>)
    ensures StrictlySorted(roots)
    ensures forall r :: r in roots <==> r in components
  {
    var collected := MapKeys(components);
    roots := SortStrings(collected);
    SortStringsSorted(collected);
    NoDuplicatesPermutation(collected, roots);
  }

  /** `index` names, in increasing order, the position in `roots[..k]` of each track's root. */
  ghost predicate IndexOk(trackRoots: seq<string>, index: seq<nat>, roots: seq<string>, k: nat)
  {
    |index| == |trackRoots| &&
    (forall t :: 0 <= t < |index| ==> index[t] < k && index[t] < |roots| && trackRoots[t] == roots[index[t]]) &&
    (forall t, u :: 0 <= t < u < |index| ==> index[t] < index[u])
  }

  /** The track roots are exactly the scanned roots whose component has an actionable member. */
  ghost predicate Covered(trackRoots: seq<string>, roots: seq<string>, k: nat, components: map<string, seq<string>>,
                          actionableSet: set<string>)
    requires k <= |roots|
  {
    forall r :: r in trackRoots <==> r in roots[..k] && r in components && HasActionable(components[r], actionableSet)
  }

  /** After scanning `roots[..k]`: the tracks so far, `index` naming the position of each track's root. */
  ghost predicate TracksSoFar(tracks: seq<ExecutionTrack>, trackRoots: seq<string>, index: seq<nat>, roots: seq<string>, k: nat,
                              issues: map<string, Issue>, components: map<string, seq<string>>, actionableSet: set<string>,
                              unblocksMap: map<string, seq<string>>)
  {
    k <= |roots| && (forall r :: r in roots ==> r in components) &&
    IndexOk(trackRoots, index, roots, k) &&
    Covered(trackRoots, roots, k, components, actionableSet) &&
    TracksOk(tracks, trackRoots, issues, components, actionableSet, unblocksMap)
  }

  lemma SkipIndex(trackRoots: seq<string>, index: seq<nat>, roots: seq<string>, k: nat)
    requires IndexOk(trackRoots, index, roots, k)
    ensures IndexOk(trackRoots, index, roots, k + 1)
  {
  }

  lemma AddIndex(trackRoots: seq<string>, index: seq<nat>, roots: seq<string>, k: nat)
    requires IndexOk(trackRoots, index, roots, k) && k < |roots|
    ensures IndexOk(trackRoots + [roots[k]], index + [k], roots, k + 1)
  {
  }

  lemma {:induction false} ExtendCovered(trackRoots: seq<string>, roots: seq<string>, k: nat, components: map<string, seq<string>>,
                                         actionableSet: set<string>, added: seq<string>)
    requires k < |roots| && Covered(trackRoots, roots, k, components, actionableSet)
    requires roots[k] in components
    requires added == (if HasActionable(components[roots[k]], actionableSet) then [roots[k]] else [])
    ensures Covered(trackRoots + added, roots, k + 1, components, actionableSet)
  {
    assert roots[..k + 1] == roots[..k] + [roots[k]];
  }

  lemma {:induction false} AddTrack(tracks: seq<ExecutionTrack>, trackRoots: seq<string>, root: string,
                                    issues: map<string, Issue>, components: map<string, seq<string>>, actionableSet: set<string>,
                                    unblocksMap: map<string, seq<string>>, track: ExecutionTrack)
    requires TracksOk(tracks, trackRoots, issues, components, actionableSet, unblocksMap) && root in components
    requires TrackOk(track, |tracks| + 1, issues, |components|, components[root], actionableSet, unblocksMap)
    ensures TracksOk(tracks + [track], trackRoots + [root], issues, components, actionableSet, unblocksMap)
  {
    var ts, rs := tracks + [track], trackRoots + [root];
    forall t | 0 <= t < |ts|
      ensures rs[t] in components && TrackOk(ts[t], t + 1, issues, |components|, components[rs[t]], actionableSet, unblocksMap)
    {
      if t < |tracks| {
        assert ts[t] == tracks[t] && rs[t] == trackRoots[t];
      }
    }
  }

  lemma SkipRoot(tracks: seq<ExecutionTrack>, trackRoots: seq<string>, index: seq<nat>, roots: seq<string>, k: nat,
                 issues: map<string, Issue>, components: map<string, seq<string>>, actionableSet: set<string>,
                 unblocksMap: map<string, seq<string>>)
    requires TracksSoFar(tracks, trackRoots, index, roots, k, issues, components, actionableSet, unblocksMap)
    requires k < |roots| && !HasActionable(components[roots[k]], actionableSet)
    ensures TracksSoFar(tracks, trackRoots, index, roots, k + 1, issues, components, actionableSet, unblocksMap)
  {
    SkipIndex(trackRoots, index, roots, k);
    ExtendCovered(trackRoots, roots, k, components, actionableSet, []);
    assert trackRoots + [] == trackRoots;
  }

  lemma AddRoot(tracks: seq<ExecutionTrack>, trackRoots: seq<string>, index: seq<nat>, roots: seq<string>, k: nat,
                issues: map<string, Issue>, components: map<string, seq<string>>, actionableSet: set<string>,
                unblocksMap: map<string, seq<string>>, track: ExecutionTrack)
    requires TracksSoFar(tracks, trackRoots, index, roots, k, issues, components, actionableSet, unblocksMap)
    requires k < |roots| && HasActionable(components[roots[k]], actionableSet)
    requires TrackOk(track, |tracks| + 1, issues, |components|, components[roots[k]], actionableSet, unblocksMap)
    ensures TracksSoFar(tracks + [track], trackRoots + [roots[k]], index + [k], roots, k + 1,
                        issues, components, actionableSet, unblocksMap)
  {
    AddIndex(trackRoots, index, roots, k);
    ExtendCovered(trackRoots, roots, k, components, actionableSet, [roots[k]]);
    AddTrack(tracks, trackRoots, roots[k], issues, components, actionableSet, unblocksMap, track);
  }

  lemma {:induction false} AllRoots(tracks: seq<ExecutionTrack>, trackRoots: seq<string>, index: seq<nat>, roots: seq<string>,
                 issues: map<string, Issue>, components: map<string, seq<string>>, actionableSet: set<string>,
                 unblocksMap: map<string, seq<string>>)
    requires TracksSoFar(tracks, trackRoots, index, roots, |roots|, issues, components, actionableSet, unblocksMap)
    requires StrictlySorted(roots) && forall r :: r in components ==> r in roots
    ensures StrictlySorted(trackRoots)
    ensures forall r :: r in trackRoots <==> r in components && HasActionable(components[r], actionableSet)
  {
    assert roots[..|roots|] == roots;
    forall t, u | 0 <= t < u < |trackRoots| ensures StrLess(trackRoots[t], trackRoots[u]) {
      assert index[t] < index[u];
    }
  }

  /** The track of component `root`, present exactly when the component has an actionable member. */
  method ComponentTrack(issues: map<string, Issue>, components: map<string, seq<string>>, root: string,
                        actionableSet: set<string>, unblocksMap: map<string, seq<string>>, num: nat)
    returns (present: bool, track: ExecutionTrack)
    requires WellKeyed(issues) && root in components
    requires forall id :: id in components[root] ==> id in issues
    ensures present <==> HasActionable(components[root], actionableSet)
    ensures present ==> TrackOk(track, num, issues, |components|, components[root], actionableSet, unblocksMap)
  {
    var members := components[root];
    var am := ActionableMembers(issues, members, actionableSet);
    if |am| == 0 {
      PickedNone(am, issues, members, actionableSet);
      return false, ExecutionTrack("", [], "");
    }
    assert am[0].id in members && am[0].id in actionableSet;
    track := MakeTrack(issues, |components|, members, actionableSet, unblocksMap, am, num);
    present := true;
  }

  /** Visits the component of `roots[k]`, appending its track when it has one. */
  method VisitRoot(issues: map<string, Issue>, components: map<string, seq<string>>, roots: seq<string>, k: nat,
                   actionableSet: set<string>, unblocksMap: map<string, seq<string>>,
                   tracks: seq<ExecutionTrack>, ghost trackRoots: seq<string>, ghost index: seq<nat>)
    returns (tracks': seq<ExecutionTrack>, ghost trackRoots': seq<string>, ghost index': seq<nat>)
    requires WellKeyed(issues)
    requires forall r, id :: r in components && id in components[r] ==> id in issues
    requires TracksSoFar(tracks, trackRoots, index, roots, k, issues, components, actionableSet, unblocksMap)
    requires k < |roots|
    ensures TracksSoFar(tracks', trackRoots', index', roots, k + 1, issues, components, actionableSet, unblocksMap)
  {
    var present, track := ComponentTrack(issues, components, roots[k], actionableSet, unblocksMap, |tracks| + 1);
    if present {
      AddRoot(tracks, trackRoots, index, roots, k, issues, components, actionableSet, unblocksMap, track);
      tracks', trackRoots', index' := tracks + [track], trackRoots + [roots[k]], index + [k];
    } else {
      SkipRoot(tracks, trackRoots, index, roots, k, issues, components, actionableSet, unblocksMap);
      tracks', trackRoots', index' := tracks, trackRoots, index;
    }
  }

  /**
   * One track per component with an actionable member, in sorted root order, numbered
   * consecutively from 1. `trackRoots` names the component of each track.
   */
  method BuildTracks(issues: map<string, Issue>, components: map<string, seq<string>>, actionableSet: set<string>,
                     unblocksMap: map<string, seq<string>>)
    returns (tracks: seq<ExecutionTrack>, ghost trackRoots: seq<string>)
    requires WellKeyed(issues)
    requires forall r, id :: r in components && id in components[r] ==> id in issues
    ensures |trackRoots| == |tracks| && StrictlySorted(trackRoots)
    ensures forall r :: r in trackRoots <==> r in components && HasActionable(components[r], actionableSet)
    ensures TracksOk(tracks, trackRoots, issues, components, actionableSet, unblocksMap)
  {
    var roots := SortedKeys(components);
    tracks, trackRoots := [], [];
    ghost var index: seq<nat> := [];
    for k := 0 to |roots|
      invariant TracksSoFar(tracks, trackRoots, index, roots, k, issues, components, actionableSet, unblocksMap)
    {
      tracks, trackRoots, index := VisitRoot(issues, components, roots, k, actionableSet, unblocksMap, tracks, trackRoots, index);
    }
    AllRoots(tracks, trackRoots, index, roots, issues, components, actionableSet, unblocksMap);
  }

  // ---------------------------------------------------------------- summary

  function UnblockCount(unblocksMap: map<string, seq<string>>, id: string): nat
  {
    |UnblocksOf(unblocksMap, id)|
  }

  function ImpactReason(count: int): string
  {
    if count == 1 then ImpactOne
    else if count > 1 then ImpactMany
    else ImpactNone
  }

  function IDLe(): (Issue, Issue) -> bool
  {
    (a: Issue, b: Issue) => StrLessEq(a.id, b.id)
  }

  lemma IDLeTotal()
    ensures TotalPreorder(IDLe())
  {
    StringLeTotal();
    assert TotalPreorder(StringLe());
    forall a: Issue, b: Issue ensures IDLe()(a, b) || IDLe()(b, a) {
      assert StringLe()(a.id, b.id) || StringLe()(b.id, a.id);
    }
    forall a: Issue, b: Issue, c: Issue | IDLe()(a, b) && IDLe()(b, c) ensures IDLe()(a, c) {
      assert StringLe()(a.id, b.id) && StringLe()(b.id, c.id);
    }
  }

  /** The first entry of maximal count in an ID-sorted copy is the smallest-ID maximum of the original. */
  lemma MaxOfSorted(actionable: seq<Issue>, sorted: seq<Issue>, unblocksMap: map<string, seq<string>>, best: nat)
    requires SortedBy(sorted, IDLe()) && (forall x :: x in sorted <==> x in actionable) && best < |sorted|
    requires forall j :: 0 <= j < |sorted| ==> UnblockCount(unblocksMap, sorted[j].id) <= UnblockCount(unblocksMap, sorted[best].id)
    requires forall j :: 0 <= j < |sorted| && UnblockCount(unblocksMap, sorted[j].id) == UnblockCount(unblocksMap, sorted[best].id) ==> best <= j
    ensures exists i :: 0 <= i < |actionable| && actionable[i].id == sorted[best].id
    ensures forall i :: 0 <= i < |actionable| ==> UnblockCount(unblocksMap, actionable[i].id) <= UnblockCount(unblocksMap, sorted[best].id)
    ensures forall i :: 0 <= i < |actionable| && UnblockCount(unblocksMap, actionable[i].id) == UnblockCount(unblocksMap, sorted[best].id) ==>
      StrLessEq(sorted[best].id, actionable[i].id)
  {
    var count := UnblockCount(unblocksMap, sorted[best].id);
    assert sorted[best] in actionable;
    forall i | 0 <= i < |actionable| ensures UnblockCount(unblocksMap, actionable[i].id) <= count {
      assert actionable[i] in sorted;
    }
    forall i | 0 <= i < |actionable| && UnblockCount(unblocksMap, actionable[i].id) == count
      ensures StrLessEq(sorted[best].id, actionable[i].id)
    {
      assert actionable[i] in sorted;
      var j :| 0 <= j < |sorted| && sorted[j] == actionable[i];
      if best < j {
        assert IDLe()(sorted[best], sorted[j]);
      }
    }
  }

  /**
   * The zero summary when nothing is actionable; otherwise the actionable issue that unblocks
   * the most, the smallest ID among equals, with the reason following the count.
   */
  predicate SummaryOk(s: PlanSummary, actionable: seq<Issue>, unblocksMap: map<string, seq<string>>)
  {
    if actionable == [] then s == PlanSummary("", "", 0)
    else
      (exists i :: 0 <= i < |actionable| && actionable[i].id == s.highestImpact) &&
      s.unblocksCount == UnblockCount(unblocksMap, s.highestImpact) &&
      (forall i :: 0 <= i < |actionable| ==> UnblockCount(unblocksMap, actionable[i].id) <= s.unblocksCount) &&
      (forall i :: 0 <= i < |actionable| && UnblockCount(unblocksMap, actionable[i].id) == s.unblocksCount ==>
        StrLessEq(s.highestImpact, actionable[i].id)) &&
      s.impactReason == ImpactReason(s.unblocksCount)
  }

  /** The scan of `computePlanSummary`: the first issue with the largest count, since only a larger one replaces it. */
  method FirstHighest(sorted: seq<Issue>, unblocksMap: map<string, seq<string>>)
    returns (highestID: string, highestCount: int, ghost best: nat)
    requires |sorted| > 0
    ensures best < |sorted| && highestID == sorted[best].id && highestCount == UnblockCount(unblocksMap, highestID)
    ensures forall j :: 0 <= j < |sorted| ==> UnblockCount(unblocksMap, sorted[j].id) <= highestCount
    ensures forall j :: 0 <= j < best ==> UnblockCount(unblocksMap, sorted[j].id) < highestCount
  {
    highestID := "";
    highestCount := -1;
    best := 0;
    for i := 0 to |sorted|
      invariant best <= i && (i == 0 ==> highestCount == -1)
      invariant i > 0 ==> best < i && highestID == sorted[best].id && highestCount == UnblockCount(unblocksMap, highestID)
      invariant forall j :: 0 <= j < i ==> UnblockCount(unblocksMap, sorted[j].id) <= highestCount
      invariant forall j :: 0 <= j < best ==> UnblockCount(unblocksMap, sorted[j].id) < highestCount
    {
      var count := UnblockCount(unblocksMap, sorted[i].id);
      if count > highestCount {
        highestCount := count;
        highestID := sorted[i].id;
        best := i;
      }
    }
  }

  method ComputePlanSummary(actionable: seq<Issue>, unblocksMap: map<string, seq<string>>) returns (s: PlanSummary)
    ensures SummaryOk(s, actionable, unblocksMap)
  {
    if |actionable| == 0 {
      return PlanSummary("", "", 0);
    }
    var sorted := Sort(actionable, IDLe());
    IDLeTotal();
    SortSorted(actionable, IDLe());
    var highestID, highestCount, best := FirstHighest(sorted, unblocksMap);
    var reason := ImpactNone;
    if highestCount == 1 {
      reason := ImpactOne;
    } else if highestCount > 1 {
      reason := ImpactMany;
    }
    s := PlanSummary(highestID, reason, highestCount);
    MaxOfSorted(actionable, sorted, unblocksMap, best);
  }

  // ---------------------------------------------------------------- the plan

  /** `u` is what `ComputeUnblocks(issues, x)` promises. */
  ghost predicate UnblocksOk(issues: map<string, Issue>, x: string, u: seq<string>)
  {
    SortedStrings(u) && NoDuplicates(u) &&
    forall id :: id in u <==> id in issues && WouldUnblock(issues, issues[id], x)
  }

  ghost function OpenIDs(issues: map<string, Issue>, ids: set<string>): set<string>
  {
    set id | id in ids && IsOpenIn(issues, id)
  }

  lemma OpenIDsAdd(issues: map<string, Issue>, ids: set<string>, k: string)
    requires k !in ids
    ensures |OpenIDs(issues, ids + {k})| == |OpenIDs(issues, ids)| + (if IsOpenIn(issues, k) then 1 else 0)
  {
    if IsOpenIn(issues, k) {
      assert OpenIDs(issues, ids + {k}) == OpenIDs(issues, ids) + {k};
    } else {
      assert OpenIDs(issues, ids + {k}) == OpenIDs(issues, ids);
    }
  }

  /** The number of issues that are not closed. */
  method CountOpen(issues: map<string, Issue>) returns (totalOpen: nat)
    ensures totalOpen == |OpenIDs(issues, issues.Keys)|
  {
    totalOpen := 0;
    var todo := issues.Keys;
    ghost var done: set<string> := {};
    while todo != {}
      invariant todo !! done && todo + done == issues.Keys
      invariant totalOpen == |OpenIDs(issues, done)|
      decreases |todo|
    {
      var k :| k in todo;
      OpenIDsAdd(issues, done, k);
      if issues[k].status != StatusClosed {
        totalOpen := totalOpen + 1;
      }
      todo, done := todo - {k}, done + {k};
    }
  }

  /** The IDs of the actionable issues, as a set. */
  method ActionableSet(actionable: seq<Issue>) returns (ids: set<string>)
    ensures forall id :: id in ids <==> exists i :: 0 <= i < |actionable| && actionable[i].id == id
  {
    ids := {};
    for i := 0 to |actionable|
      invariant forall id :: id in ids <==> exists j :: 0 <= j < i && actionable[j].id == id
    {
      ids := ids + {actionable[i].id};
    }
  }

  /** `ComputeUnblocks` of every actionable issue, keyed by its ID. */
  method UnblocksMap(issues: map<string, Issue>, actionable: seq<Issue>) returns (m: map<string, seq<string>>)
    requires WellKeyed(issues)
    ensures forall id :: id in m <==> exists i :: 0 <= i < |actionable| && actionable[i].id == id
    ensures forall id :: id in m ==> UnblocksOk(issues, id, m[id])
  {
    m := map[];
    for i := 0 to |actionable|
      invariant forall id :: id in m <==> exists j :: 0 <= j < i && actionable[j].id == id
      invariant forall id :: id in m ==> UnblocksOk(issues, id, m[id])
    {
      var u := ComputeUnblocks(issues, actionable[i].id);
      m := m[actionable[i].id := u];
    }
  }

  /**
   * The execution plan for the given actionable issues (as selected by the analyzer, which
   * is not part of this model): tracks over the connected components, totals and summary.
   */
  method GetExecutionPlan(issues: map<string, Issue>, actionable: seq<Issue>)
    returns (plan: Plan, ghost components: map<string, seq<string>>, ghost trackRoots: seq<string>,
             ghost actionableSet: set<string>, ghost unblocksMap: map<string, seq<string>>)
    requires WellKeyed(issues)
    ensures plan.totalActionable == |actionable|
    ensures plan.totalBlocked == |OpenIDs(issues, issues.Keys)| - |actionable|
    ensures forall id :: id in actionableSet <==> exists i :: 0 <= i < |actionable| && actionable[i].id == id
    ensures unblocksMap.Keys == actionableSet && forall id :: id in unblocksMap ==> UnblocksOk(issues, id, unblocksMap[id])
    ensures Partition(issues, components) && LinkedTogether(issues, components)
    ensures ChainedTogether(issues, components)
    ensures StrictlySorted(trackRoots)
    ensures forall r :: r in trackRoots <==> r in components && HasActionable(components[r], actionableSet)
    ensures TracksOk(plan.tracks, trackRoots, issues, components, actionableSet, unblocksMap)
    ensures SummaryOk(plan.summary, actionable, unblocksMap)
  {
    var aset := ActionableSet(actionable);
    var umap := UnblocksMap(issues, actionable);
    var comps := FindConnectedComponents(issues);
    var tracks;
    tracks, trackRoots := BuildTracks(issues, comps, aset, umap);
    var totalOpen := CountOpen(issues);
    var summary := ComputePlanSummary(actionable, umap);
    plan := Plan(tracks, |actionable|, totalOpen - |actionable|, summary);
    components, actionableSet, unblocksMap := comps, aset, umap;
  }
}
