/**
 * Triage proposals: from the issues of one rig and a triage analysis, the changes a triage
 * branch proposes (raise a priority, flag a stale issue, label a critical-path blocker or a
 * quick win), and the rows of the branch's diff against main.
 *
 * The database, the branch lifecycle and the writing of proposals are not modelled: the rows a
 * diff query returns are inputs, and the clock is the `now` parameter (whole seconds).
 */
module TriageBranch {
  import opened Wrappers
  import opened Issues
  import opened RelatedText

  datatype ChangeType = ChangePriority | ChangeStatus | ChangeLabel | ChangeLabelDel | ChangeDependency

  /** A proposed change; the human-readable reason is not modelled. */
  datatype ProposedChange = ProposedChange(issueID: string, changeType: ChangeType, field: string,
                                           oldValue: string, newValue: string, score: real)

  datatype Recommendation = Recommendation(id: string, score: real, unblocksIDs: seq<string>)
  datatype Blocker = Blocker(id: string, unblocksCount: int)
  datatype QuickWin = QuickWin(id: string, reason: string, score: real)
  datatype TriageResult = TriageResult(recommendations: seq<Recommendation>, blockersToClear: seq<Blocker>,
                                       quickWins: seq<QuickWin>)

  /** `Status.IsClosed`, taken here as the closed status itself. */
  predicate IsClosed(status: string)
  {
    status == StatusClosed
  }

  // ---------------------------------------------------------------- priorities

  /** "P<n>". */
  function PriorityLabel(p: int): (s: string)
    ensures |s| > 1 && s[0] == 'P' && s[1..] == Decimal(p)
  {
    "P" + Decimal(p)
  }

  /** Different priorities are shown differently. */
  lemma PriorityLabelInjective(a: int, b: int)
    ensures PriorityLabel(a) == PriorityLabel(b) <==> a == b
  {
    if PriorityLabel(a) == PriorityLabel(b) {
      DecimalRoundTrip(a);
      DecimalRoundTrip(b);
      assert Decimal(a) == PriorityLabel(a)[1..] == PriorityLabel(b)[1..] == Decimal(b);
    }
  }

  /**
   * `suggestPriority`: the priority a triage score calls for (P0 from 0.25, P1 from 0.18, P2 from
   * 0.12), but never a lower urgency than the current one.
   */
  function SuggestPriority(score: real, currentPriority: int): (p: int)
    ensures p <= currentPriority
    ensures score >= 0.25 ==> p == Min(0, currentPriority)
    ensures 0.18 <= score < 0.25 ==> p == Min(1, currentPriority)
    ensures 0.12 <= score < 0.18 ==> p == Min(2, currentPriority)
    ensures score < 0.12 ==> p == currentPriority
  {
    var suggested := if score >= 0.25 then 0 else if score >= 0.18 then 1 else if score >= 0.12 then 2 else -1;
    if suggested == -1 then currentPriority
    else if suggested < currentPriority then suggested
    else currentPriority
  }

  /** A higher score never suggests a less urgent priority. */
  lemma SuggestPriorityMonotone(s1: real, s2: real, currentPriority: int)
    requires s1 <= s2
    ensures SuggestPriority(s2, currentPriority) <= SuggestPriority(s1, currentPriority)
  {
  }

  // ---------------------------------------------------------------- indexes

  /** `issueMap`: each ID to the last issue carrying it. */
  function IssueIndex(issues: seq<Issue>): (m: map<string, Issue>)
    ensures WellKeyed(m)
    ensures forall id :: id in m <==> exists i :: 0 <= i < |issues| && issues[i].id == id
  {
    if issues == [] then map[]
    else
      var init := issues[..|issues| - 1];
      var m := IssueIndex(init)[issues[|issues| - 1].id := issues[|issues| - 1]];
      assert forall i :: 0 <= i < |init| ==> init[i] == issues[i];
      m
  }

  /** The indexed issue is the last one in the list with that ID. */
  lemma {:induction false} IssueIndexLast(issues: seq<Issue>, i: nat)
    requires i < |issues|
    requires forall j :: i < j < |issues| ==> issues[j].id != issues[i].id
    ensures IssueIndex(issues)[issues[i].id] == issues[i]
  {
    if i < |issues| - 1 {
      var init := issues[..|issues| - 1];
      IssueIndexLast(init, i);
    }
  }

  /** `hasLabel`: each indexed ID to the labels of its issue. */
  function LabelSets(index: map<string, Issue>): (h: map<string, set<string>>)
    ensures h.Keys == index.Keys
    ensures forall id :: id in h ==> forall l :: l in h[id] <==> l in index[id].labels
  {
    map id | id in index :: set l | l in index[id].labels
  }

  predicate HasLabel(hasLabel: map<string, set<string>>, id: string, name: string)
  {
    id in hasLabel && name in hasLabel[id]
  }

  // ---------------------------------------------------------------- the four kinds of proposal

  /** A recommendation's priority proposal: for a known, open issue whose suggested priority differs. */
  function PriorityFor(index: map<string, Issue>, rec: Recommendation): (r: seq<ProposedChange>)
    ensures |r| <= 1
    ensures r != [] <==> rec.id in index && !IsClosed(index[rec.id].status) &&
                         SuggestPriority(rec.score, index[rec.id].priority) != index[rec.id].priority
    ensures r != [] ==>
      var issue := index[rec.id];
      r[0].issueID == issue.id && r[0].changeType == ChangePriority && r[0].field == "priority" &&
      r[0].oldValue == PriorityLabel(issue.priority) &&
      r[0].newValue == PriorityLabel(SuggestPriority(rec.score, issue.priority)) &&
      SuggestPriority(rec.score, issue.priority) < issue.priority &&
      r[0].oldValue != r[0].newValue && r[0].score == rec.score
  {
    if rec.id !in index || IsClosed(index[rec.id].status) then []
    else
      var issue := index[rec.id];
      var suggested := SuggestPriority(rec.score, issue.priority);
      if suggested != issue.priority then
        PriorityLabelInjective(issue.priority, suggested);
        [ProposedChange(issue.id, ChangePriority, "priority", PriorityLabel(issue.priority),
                        PriorityLabel(suggested), rec.score)]
      else []
  }

  /** Whole days since the last update, as Go truncates the elapsed hours divided by 24. */
  function DaysSince(now: int, updatedAt: int): (d: int)
    ensures now >= updatedAt ==> d == (now - updatedAt) / 86400
  {
    GoDiv(now - updatedAt, 86400)
  }

  /** The age after which an issue is stale: a week for work in progress, ten days otherwise. */
  function StaleThreshold(status: string): (days: int)
    ensures status == StatusInProgress ==> days == 7
    ensures status != StatusInProgress ==> days == 10
  {
    if status == StatusInProgress then 7 else 10
  }

  /** An issue's stale proposal: for an active, unflagged issue idle for at least the threshold. */
  function StaleFor(hasLabel: map<string, set<string>>, now: int, issue: Issue): (r: seq<ProposedChange>)
    ensures |r| <= 1
    ensures r != [] <==> !IsClosed(issue.status) && issue.status != StatusDeferred && issue.status != StatusPinned &&
                         !HasLabel(hasLabel, issue.id, "stale") &&
                         DaysSince(now, issue.updatedAt) >= StaleThreshold(issue.status)
    ensures r != [] ==>
      r[0] == ProposedChange(issue.id, ChangeLabel, "label", "", "stale", DaysSince(now, issue.updatedAt) as real / 30.0)
  {
    if IsClosed(issue.status) || issue.status == StatusDeferred || issue.status == StatusPinned then []
    else if HasLabel(hasLabel, issue.id, "stale") then []
    else
      var daysSince := DaysSince(now, issue.updatedAt);
      if daysSince >= StaleThreshold(issue.status) then
        [ProposedChange(issue.id, ChangeLabel, "label", "", "stale", daysSince as real / 30.0)]
      else []
  }

  /** A blocker's critical-path proposal: for a known, open, unlabelled issue unblocking at least three. */
  function CriticalPathFor(index: map<string, Issue>, hasLabel: map<string, set<string>>, b: Blocker)
    : (r: seq<ProposedChange>)
    ensures |r| <= 1
    ensures r != [] <==> b.id in index && !IsClosed(index[b.id].status) &&
                         !HasLabel(hasLabel, index[b.id].id, "critical-path") && b.unblocksCount >= 3
    ensures r != [] ==>
      r[0] == ProposedChange(index[b.id].id, ChangeLabel, "label", "", "critical-path", b.unblocksCount as real / 10.0)
  {
    if b.id !in index || IsClosed(index[b.id].status) then []
    else if HasLabel(hasLabel, index[b.id].id, "critical-path") then []
    else if b.unblocksCount >= 3 then
      [ProposedChange(index[b.id].id, ChangeLabel, "label", "", "critical-path", b.unblocksCount as real / 10.0)]
    else []
  }

  /** A quick win's proposal: for a known, open issue not yet labelled as one. */
  function QuickWinFor(index: map<string, Issue>, hasLabel: map<string, set<string>>, q: QuickWin)
    : (r: seq<ProposedChange>)
    ensures |r| <= 1
    ensures r != [] <==> q.id in index && !IsClosed(index[q.id].status) && !HasLabel(hasLabel, index[q.id].id, "quick-win")
    ensures r != [] ==> r[0] == ProposedChange(index[q.id].id, ChangeLabel, "label", "", "quick-win", q.score)
  {
    if q.id !in index || IsClosed(index[q.id].status) then []
    else if HasLabel(hasLabel, index[q.id].id, "quick-win") then []
    else [ProposedChange(index[q.id].id, ChangeLabel, "label", "", "quick-win", q.score)]
  }

  function PriorityMake(index: map<string, Issue>): Recommendation -> seq<ProposedChange>
  {
    rec => PriorityFor(index, rec)
  }

  function StaleMake(hasLabel: map<string, set<string>>, now: int): Issue -> seq<ProposedChange>
  {
    issue => StaleFor(hasLabel, now, issue)
  }

  function CriticalPathMake(index: map<string, Issue>, hasLabel: map<string, set<string>>): Blocker -> seq<ProposedChange>
  {
    b => CriticalPathFor(index, hasLabel, b)
  }

  function QuickWinMake(index: map<string, Issue>, hasLabel: map<string, set<string>>): QuickWin -> seq<ProposedChange>
  {
    q => QuickWinFor(index, hasLabel, q)
  }

  /** `generateProposals`: the four groups, in this order. */
  function Proposals(issues: seq<Issue>, triage: TriageResult, now: int): seq<ProposedChange>
  {
    var index := IssueIndex(issues);
    var hasLabel := LabelSets(index);
    FlatMap(triage.recommendations, PriorityMake(index)) + FlatMap(issues, StaleMake(hasLabel, now)) +
    FlatMap(triage.blockersToClear, CriticalPathMake(index, hasLabel)) +
    FlatMap(triage.quickWins, QuickWinMake(index, hasLabel))
  }

  /** The group a proposal belongs to: priority, stale, critical-path, then quick-win. */
  function Group(p: ProposedChange): nat
  {
    if p.changeType == ChangePriority then 0
    else if p.newValue == "stale" then 1
    else if p.newValue == "critical-path" then 2
    else 3
  }

  /** Every output of a flat map is in group `g` when every element's outputs are. */
  lemma {:induction false} FlatMapInGroup<T>(xs: seq<T>, f: T -> seq<ProposedChange>, g: nat)
    requires forall x :: forall p :: p in f(x) ==> Group(p) == g
    ensures forall p :: p in FlatMap(xs, f) ==> Group(p) == g
  {
    forall p | p in FlatMap(xs, f) ensures Group(p) == g {
      FlatMapMember(xs, f, p);
    }
  }

  predicate InGroup(ps: seq<ProposedChange>, g: nat)
  {
    forall p :: p in ps ==> Group(p) == g
  }

  lemma PriorityGroup(index: map<string, Issue>, recs: seq<Recommendation>)
    ensures InGroup(FlatMap(recs, PriorityMake(index)), 0)
  {
    FlatMapInGroup(recs, PriorityMake(index), 0);
  }

  lemma StaleGroup(hasLabel: map<string, set<string>>, now: int, issues: seq<Issue>)
    ensures InGroup(FlatMap(issues, StaleMake(hasLabel, now)), 1)
  {
    FlatMapInGroup(issues, StaleMake(hasLabel, now), 1);
  }

  lemma CriticalPathGroup(index: map<string, Issue>, hasLabel: map<string, set<string>>, blockers: seq<Blocker>)
    ensures InGroup(FlatMap(blockers, CriticalPathMake(index, hasLabel)), 2)
  {
    FlatMapInGroup(blockers, CriticalPathMake(index, hasLabel), 2);
  }

  lemma QuickWinGroup(index: map<string, Issue>, hasLabel: map<string, set<string>>, quickWins: seq<QuickWin>)
    ensures InGroup(FlatMap(quickWins, QuickWinMake(index, hasLabel)), 3)
  {
    FlatMapInGroup(quickWins, QuickWinMake(index, hasLabel), 3);
  }

  /** Groups never decrease along the list. */
  predicate GroupOrdered(ps: seq<ProposedChange>)
  {
    forall i, j :: 0 <= i < j < |ps| ==> Group(ps[i]) <= Group(ps[j])
  }

  /** Appending a block of group `g` after proposals of groups up to `g` keeps the order. */
  lemma AppendGroup(ps: seq<ProposedChange>, block: seq<ProposedChange>, g: nat)
    requires GroupOrdered(ps) && forall p :: p in ps ==> Group(p) <= g
    requires forall p :: p in block ==> Group(p) == g
    ensures GroupOrdered(ps + block) && forall p :: p in ps + block ==> Group(p) <= g
  {
    var all := ps + block;
    forall i, j | 0 <= i < j < |all| ensures Group(all[i]) <= Group(all[j]) {
      if j < |ps| {
        assert all[i] == ps[i] && all[j] == ps[j];
      } else if i < |ps| {
        assert all[i] == ps[i] && all[j] == block[j - |ps|];
      } else {
        assert all[i] == block[i - |ps|] && all[j] == block[j - |ps|];
      }
    }
  }

  /** Proposals come out group by group: all priority changes, then stale flags, critical paths, quick wins. */
  lemma ProposalsInGroupOrder(issues: seq<Issue>, triage: TriageResult, now: int)
    ensures GroupOrdered(Proposals(issues, triage, now))
  {
    var index := IssueIndex(issues);
    var hasLabel := LabelSets(index);
    var g0 := FlatMap(triage.recommendations, PriorityMake(index));
    var g1 := FlatMap(issues, StaleMake(hasLabel, now));
    var g2 := FlatMap(triage.blockersToClear, CriticalPathMake(index, hasLabel));
    var g3 := FlatMap(triage.quickWins, QuickWinMake(index, hasLabel));
    PriorityGroup(index, triage.recommendations);
    StaleGroup(hasLabel, now, issues);
    CriticalPathGroup(index, hasLabel, triage.blockersToClear);
    QuickWinGroup(index, hasLabel, triage.quickWins);
    AppendGroup([], g0, 0);
    assert [] + g0 == g0;
    AppendGroup(g0, g1, 1);
    AppendGroup(g0 + g1, g2, 2);
    AppendGroup(g0 + g1 + g2, g3, 3);
  }

  lemma InFront<T>(front: seq<T>, back: seq<T>, x: T)
    requires x in front + back && x !in back
    ensures x in front
  {
  }

  /** The priority changes among the proposals all come from the first group. */
  lemma PriorityProposalsFirstGroup(issues: seq<Issue>, triage: TriageResult, now: int, p: ProposedChange)
    requires p in Proposals(issues, triage, now) && p.changeType == ChangePriority
    ensures p in FlatMap(triage.recommendations, PriorityMake(IssueIndex(issues)))
  {
    var index := IssueIndex(issues);
    var hasLabel := LabelSets(index);
    var g0 := FlatMap(triage.recommendations, PriorityMake(index));
    var g1 := FlatMap(issues, StaleMake(hasLabel, now));
    var g2 := FlatMap(triage.blockersToClear, CriticalPathMake(index, hasLabel));
    var g3 := FlatMap(triage.quickWins, QuickWinMake(index, hasLabel));
    StaleGroup(hasLabel, now, issues);
    CriticalPathGroup(index, hasLabel, triage.blockersToClear);
    QuickWinGroup(index, hasLabel, triage.quickWins);
    assert Group(p) == 0;
    InFront(g0 + g1 + g2, g3, p);
    InFront(g0 + g1, g2, p);
    InFront(g0, g1, p);
  }

  /**
   * Every priority proposal is for a known, open issue named by some recommendation, and raises
   * its priority: the proposed number is smaller than the current one.
   */
  lemma PriorityProposalsRaise(issues: seq<Issue>, triage: TriageResult, now: int, p: ProposedChange)
    requires p in Proposals(issues, triage, now) && p.changeType == ChangePriority
    ensures var index := IssueIndex(issues);
      p.issueID in index && !IsClosed(index[p.issueID].status) &&
      exists i :: 0 <= i < |triage.recommendations| && triage.recommendations[i].id == p.issueID &&
        var k := SuggestPriority(triage.recommendations[i].score, index[p.issueID].priority);
        k < index[p.issueID].priority &&
        p.oldValue == PriorityLabel(index[p.issueID].priority) && p.newValue == PriorityLabel(k)
  {
    var index := IssueIndex(issues);
    PriorityProposalsFirstGroup(issues, triage, now, p);
    FlatMapMember(triage.recommendations, PriorityMake(index), p);
    var i :| 0 <= i < |triage.recommendations| && p in PriorityFor(index, triage.recommendations[i]);
    assert index[triage.recommendations[i].id].id == triage.recommendations[i].id;
  }

  // ---------------------------------------------------------------- generateProposals, step by step

  /** The two lookup tables: `issueMap` and `hasLabel`. */
  method BuildIndexes(issues: seq<Issue>) returns (index: map<string, Issue>, hasLabel: map<string, set<string>>)
    ensures index == IssueIndex(issues) && hasLabel == LabelSets(index)
  {
    index := BuildIssueIndex(issues);
    hasLabel := BuildLabelSets(issues);
  }

  /** `issueMap`: a later issue with the same ID replaces an earlier one. */
  method BuildIssueIndex(issues: seq<Issue>) returns (index: map<string, Issue>)
    ensures index == IssueIndex(issues)
  {
    index := map[];
    for i := 0 to |issues|
      invariant index == IssueIndex(issues[..i])
    {
      assert issues[..i + 1][..i] == issues[..i];
      index := index[issues[i].id := issues[i]];
    }
    assert issues[..|issues|] == issues;
  }

  /** `hasLabel`: each issue's labels as a set, again keyed by the last issue with that ID. */
  method BuildLabelSets(issues: seq<Issue>) returns (hasLabel: map<string, set<string>>)
    ensures hasLabel == LabelSets(IssueIndex(issues))
  {
    hasLabel := map[];
    for i := 0 to |issues|
      invariant hasLabel == LabelSets(IssueIndex(issues[..i]))
    {
      assert issues[..i + 1][..i] == issues[..i];
      var labels := CollectLabels(issues[i].labels);
      assert labels == set l | l in issues[i].labels;
      assert IssueIndex(issues[..i + 1]) == IssueIndex(issues[..i])[issues[i].id := issues[i]];
      LabelSetsUpdate(IssueIndex(issues[..i]), issues[i]);
      hasLabel := hasLabel[issues[i].id := labels];
    }
    assert issues[..|issues|] == issues;
  }

  /** The labels of one issue as a set. */
  method CollectLabels(labels: seq<string>) returns (set_: set<string>)
    ensures forall l :: l in set_ <==> l in labels
  {
    set_ := {};
    for j := 0 to |labels|
      invariant set_ == set l | l in labels[..j]
    {
      assert labels[..j + 1] == labels[..j] + [labels[j]];
      set_ := set_ + {labels[j]};
    }
    assert labels[..|labels|] == labels;
  }

  /** Indexing one more issue adds or replaces its entry in the label table. */
  lemma LabelSetsUpdate(index: map<string, Issue>, issue: Issue)
    ensures LabelSets(index[issue.id := issue]) == LabelSets(index)[issue.id := set l | l in issue.labels]
  {
  }

  /** One recommendation's step of the priority pass: the priority proposal, or nothing. */
  method PriorityStep(index: map<string, Issue>, rec: Recommendation) returns (step: seq<ProposedChange>)
    ensures step == PriorityFor(index, rec)
  {
    step := [];
    if rec.id !in index || IsClosed(index[rec.id].status) {
      return;
    }
    var issue := index[rec.id];
    var suggested := SuggestPriority(rec.score, issue.priority);
    if suggested != issue.priority {
      step := [ProposedChange(issue.id, ChangePriority, "priority", PriorityLabel(issue.priority),
                              PriorityLabel(suggested), rec.score)];
    }
  }

  method AppendPriorityProposals(proposals: seq<ProposedChange>, index: map<string, Issue>, recs: seq<Recommendation>)
    returns (out: seq<ProposedChange>)
    ensures out == proposals + FlatMap(recs, PriorityMake(index))
  {
    out := proposals;
    for i := 0 to |recs|
      invariant out == proposals + FlatMap(recs[..i], PriorityMake(index))
    {
      var step := PriorityStep(index, recs[i]);
      assert step == PriorityMake(index)(recs[i]);
      FlatMapExtend(proposals, recs, i, PriorityMake(index));
      out := out + step;
    }
    assert recs[..|recs|] == recs;
  }

  /** One issue's step of the stale pass: the label proposal, or nothing. */
  method StaleStep(hasLabel: map<string, set<string>>, now: int, issue: Issue) returns (step: seq<ProposedChange>)
    ensures step == StaleFor(hasLabel, now, issue)
  {
    step := [];
    if IsClosed(issue.status) || issue.status == StatusDeferred || issue.status == StatusPinned {
      return;
    }
    if issue.id in hasLabel && "stale" in hasLabel[issue.id] {
      return;
    }
    var daysSince := DaysSince(now, issue.updatedAt);
    var threshold := 10;
    if issue.status == StatusInProgress {
      threshold := 7;
    }
    if daysSince >= threshold {
      step := [ProposedChange(issue.id, ChangeLabel, "label", "", "stale", daysSince as real / 30.0)];
    }
  }

  method AppendStaleProposals(proposals: seq<ProposedChange>, hasLabel: map<string, set<string>>, now: int,
                              issues: seq<Issue>)
    returns (out: seq<ProposedChange>)
    ensures out == proposals + FlatMap(issues, StaleMake(hasLabel, now))
  {
    out := proposals;
    for i := 0 to |issues|
      invariant out == proposals + FlatMap(issues[..i], StaleMake(hasLabel, now))
    {
      var step := StaleStep(hasLabel, now, issues[i]);
      assert step == StaleMake(hasLabel, now)(issues[i]);
      FlatMapExtend(proposals, issues, i, StaleMake(hasLabel, now));
      out := out + step;
    }
    assert issues[..|issues|] == issues;
  }

  /** One blocker's step of the critical-path pass: the label proposal, or nothing. */
  method CriticalPathStep(index: map<string, Issue>, hasLabel: map<string, set<string>>, b: Blocker)
    returns (step: seq<ProposedChange>)
    ensures step == CriticalPathFor(index, hasLabel, b)
  {
    step := [];
    if b.id !in index || IsClosed(index[b.id].status) {
      return;
    }
    var issue := index[b.id];
    if issue.id in hasLabel && "critical-path" in hasLabel[issue.id] {
      return;
    }
    if b.unblocksCount >= 3 {
      step := [ProposedChange(issue.id, ChangeLabel, "label", "", "critical-path", b.unblocksCount as real / 10.0)];
    }
  }

  method AppendCriticalPathProposals(proposals: seq<ProposedChange>, index: map<string, Issue>,
                                     hasLabel: map<string, set<string>>, blockers: seq<Blocker>)
    returns (out: seq<ProposedChange>)
    ensures out == proposals + FlatMap(blockers, CriticalPathMake(index, hasLabel))
  {
    out := proposals;
    for i := 0 to |blockers|
      invariant out == proposals + FlatMap(blockers[..i], CriticalPathMake(index, hasLabel))
    {
      var step := CriticalPathStep(index, hasLabel, blockers[i]);
      assert step == CriticalPathMake(index, hasLabel)(blockers[i]);
      FlatMapExtend(proposals, blockers, i, CriticalPathMake(index, hasLabel));
      out := out + step;
    }
    assert blockers[..|blockers|] == blockers;
  }

  /** One quick win's step of the quick-win pass: the label proposal, or nothing. */
  method QuickWinStep(index: map<string, Issue>, hasLabel: map<string, set<string>>, q: QuickWin)
    returns (step: seq<ProposedChange>)
    ensures step == QuickWinFor(index, hasLabel, q)
  {
    step := [];
    if q.id !in index || IsClosed(index[q.id].status) {
      return;
    }
    var issue := index[q.id];
    if issue.id in hasLabel && "quick-win" in hasLabel[issue.id] {
      return;
    }
    step := [ProposedChange(issue.id, ChangeLabel, "label", "", "quick-win", q.score)];
  }

  method AppendQuickWinProposals(proposals: seq<ProposedChange>, index: map<string, Issue>,
                                 hasLabel: map<string, set<string>>, quickWins: seq<QuickWin>)
    returns (out: seq<ProposedChange>)
    ensures out == proposals + FlatMap(quickWins, QuickWinMake(index, hasLabel))
  {
    out := proposals;
    for i := 0 to |quickWins|
      invariant out == proposals + FlatMap(quickWins[..i], QuickWinMake(index, hasLabel))
    {
      var step := QuickWinStep(index, hasLabel, quickWins[i]);
      assert step == QuickWinMake(index, hasLabel)(quickWins[i]);
      FlatMapExtend(proposals, quickWins, i, QuickWinMake(index, hasLabel));
      out := out + step;
    }
    assert quickWins[..|quickWins|] == quickWins;
  }

  /** `generateProposals`. */
  method GenerateProposals(issues: seq<Issue>, triage: TriageResult, now: int) returns (proposals: seq<ProposedChange>)
    ensures proposals == Proposals(issues, triage, now)
  {
    var index, hasLabel := BuildIndexes(issues);
    ghost var priority := FlatMap(triage.recommendations, PriorityMake(index));
    ghost var stale := FlatMap(issues, StaleMake(hasLabel, now));
    ghost var critical := FlatMap(triage.blockersToClear, CriticalPathMake(index, hasLabel));
    ghost var quick := FlatMap(triage.quickWins, QuickWinMake(index, hasLabel));
    proposals := AppendPriorityProposals([], index, triage.recommendations);
    assert proposals == priority;
    proposals := AppendStaleProposals(proposals, hasLabel, now, issues);
    assert proposals == priority + stale;
    proposals := AppendCriticalPathProposals(proposals, index, hasLabel, triage.blockersToClear);
    assert proposals == priority + stale + critical;
    proposals := AppendQuickWinProposals(proposals, index, hasLabel, triage.quickWins);
    assert proposals == priority + stale + critical + quick;
  }

  // ---------------------------------------------------------------- the branch diff

  /** A row of the issue diff; `None` is SQL NULL. */
  datatype IssueDiffRow = IssueDiffRow(issueID: string, fromPriority: Option<int>, toPriority: Option<int>,
                                       fromStatus: Option<string>, toStatus: Option<string>, diffType: string)

  /** A row of the label diff; `None` is SQL NULL. */
  datatype LabelDiffRow = LabelDiffRow(issueID: string, fromLabel: Option<string>, toLabel: Option<string>,
                                       diffType: string)

  datatype DiffEntry = DiffEntry(issueID: string, diffType: string, field: string, fromValue: string, toValue: string)

  /** The text of a nullable string column ("" for NULL). */
  function NullText(s: Option<string>): string
  {
    if s.Some? then s.value else ""
  }

  /** The entries of one issue row: a priority entry, then a status entry, each only for a real change. */
  function IssueRowEntries(row: IssueDiffRow): seq<DiffEntry>
  {
    var pri := if row.fromPriority.Some? && row.toPriority.Some? && row.fromPriority.value != row.toPriority.value then
                 [DiffEntry(row.issueID, row.diffType, "priority",
                            PriorityLabel(row.fromPriority.value), PriorityLabel(row.toPriority.value))]
               else [];
    var status := if row.fromStatus.Some? && row.toStatus.Some? && row.fromStatus.value != row.toStatus.value then
                    [DiffEntry(row.issueID, row.diffType, "status", row.fromStatus.value, row.toStatus.value)]
                  else [];
    pri + status
  }

  /**
   * A priority entry ("P<n>" on both sides) exactly when both priorities are present and differ,
   * and a status entry exactly when both statuses are present and differ; every entry shows a change.
   */
  lemma IssueRowEntriesSpec(row: IssueDiffRow)
    ensures var es := IssueRowEntries(row);
      |es| <= 2 &&
      ((|es| > 0 && es[0].field == "priority") <==>
       row.fromPriority.Some? && row.toPriority.Some? && row.fromPriority.value != row.toPriority.value) &&
      ((|es| > 0 && es[|es| - 1].field == "status") <==>
       row.fromStatus.Some? && row.toStatus.Some? && row.fromStatus.value != row.toStatus.value)
    ensures var es := IssueRowEntries(row);
      forall k :: 0 <= k < |es| ==>
        es[k].issueID == row.issueID && es[k].diffType == row.diffType && es[k].fromValue != es[k].toValue &&
        (es[k].field == "priority" ==> k == 0 && row.fromPriority.Some? && row.toPriority.Some? &&
                                       es[k].fromValue == PriorityLabel(row.fromPriority.value) &&
                                       es[k].toValue == PriorityLabel(row.toPriority.value)) &&
        (es[k].field == "status" ==> row.fromStatus.Some? && row.toStatus.Some? &&
                                     es[k].fromValue == row.fromStatus.value && es[k].toValue == row.toStatus.value)
  {
    if row.fromPriority.Some? && row.toPriority.Some? {
      PriorityLabelInjective(row.fromPriority.value, row.toPriority.value);
    }
  }

  /** The entry of one label row: an added label has no "from", a removed one no "to"; others give none. */
  function LabelRowEntries(row: LabelDiffRow): (es: seq<DiffEntry>)
    ensures |es| <= 1
    ensures es != [] <==> row.diffType == "added" || row.diffType == "removed"
    ensures row.diffType == "added" ==> es == [DiffEntry(row.issueID, "added", "label", "", NullText(row.toLabel))]
    ensures row.diffType == "removed" ==> es == [DiffEntry(row.issueID, "removed", "label", NullText(row.fromLabel), "")]
  {
    if row.diffType == "added" then [DiffEntry(row.issueID, row.diffType, "label", "", NullText(row.toLabel))]
    else if row.diffType == "removed" then [DiffEntry(row.issueID, row.diffType, "label", NullText(row.fromLabel), "")]
    else []
  }

  /** One row of the issue-diff loop: a priority entry, then a status entry, each when that field changed. */
  method IssueRowStep(row: IssueDiffRow) returns (entries: seq<DiffEntry>)
    ensures entries == IssueRowEntries(row)
  {
    entries := [];
    if row.fromPriority.Some? && row.toPriority.Some? && row.fromPriority.value != row.toPriority.value {
      entries := [DiffEntry(row.issueID, row.diffType, "priority",
                            PriorityLabel(row.fromPriority.value), PriorityLabel(row.toPriority.value))];
    }
    if row.fromStatus.Some? && row.toStatus.Some? && row.fromStatus.value != row.toStatus.value {
      entries := entries + [DiffEntry(row.issueID, row.diffType, "status", row.fromStatus.value, row.toStatus.value)];
    }
  }

  /** The issue-diff loop of `GetDiff`. */
  method AppendIssueDiffs(diffs: seq<DiffEntry>, rows: seq<IssueDiffRow>) returns (out: seq<DiffEntry>)
    ensures out == diffs + FlatMap(rows, IssueRowEntries)
  {
    out := diffs;
    for i := 0 to |rows|
      invariant out == diffs + FlatMap(rows[..i], IssueRowEntries)
    {
      var entries := IssueRowStep(rows[i]);
      FlatMapExtend(diffs, rows, i, IssueRowEntries);
      out := out + entries;
    }
    assert rows[..|rows|] == rows;
  }

  /** One row of the label-diff loop: an added or removed label, or nothing for another diff type. */
  method LabelRowStep(row: LabelDiffRow) returns (entries: seq<DiffEntry>)
    ensures entries == LabelRowEntries(row)
  {
    entries := [];
    if row.diffType == "added" {
      entries := [DiffEntry(row.issueID, row.diffType, "label", "", NullText(row.toLabel))];
    } else if row.diffType == "removed" {
      entries := [DiffEntry(row.issueID, row.diffType, "label", NullText(row.fromLabel), "")];
    }
  }

  /** The label-diff loop of `GetDiff`. */
  method AppendLabelDiffs(diffs: seq<DiffEntry>, rows: seq<LabelDiffRow>) returns (out: seq<DiffEntry>)
    ensures out == diffs + FlatMap(rows, LabelRowEntries)
  {
    out := diffs;
    for i := 0 to |rows|
      invariant out == diffs + FlatMap(rows[..i], LabelRowEntries)
    {
      var entries := LabelRowStep(rows[i]);
      FlatMapExtend(diffs, rows, i, LabelRowEntries);
      out := out + entries;
    }
    assert rows[..|rows|] == rows;
  }

  /**
   * `GetDiff` after the queries: the issue rows' entries, then the label rows' entries; when the
   * label query fails (`None`) only the issue entries are returned.
   */
  method GetDiff(issueRows: seq<IssueDiffRow>, labelRows: Option<seq<LabelDiffRow>>) returns (diffs: seq<DiffEntry>)
    ensures labelRows.None? ==> diffs == FlatMap(issueRows, IssueRowEntries)
    ensures labelRows.Some? ==> diffs == FlatMap(issueRows, IssueRowEntries) + FlatMap(labelRows.value, LabelRowEntries)
  {
    ghost var issueDiffs := FlatMap(issueRows, IssueRowEntries);
    diffs := AppendIssueDiffs([], issueRows);
    assert diffs == issueDiffs by {
      assert [] + issueDiffs == issueDiffs;
    }
    if labelRows.None? {
      return;
    }
    diffs := AppendLabelDiffs(diffs, labelRows.value);
  }
}
