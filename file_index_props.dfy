/**
 * What the reverse index holds, in terms of the bead histories: a file/bead pair has a
 * reference exactly when one of the bead's commits touches the file, and that reference
 * lists each such commit's short SHA once, carries the latest of their times and the sum of
 * their line changes to the file — whatever order the walk visited the beads in.
 */
module FileIndexProps {
  import opened Wrappers
  import opened History
  import opened FileIndex

  // ---------------------------------------------------------------- one reference

  /** The events of `evs` that concern file `f` and bead `id`, in order. */
  function Project(evs: seq<Event>, f: string, id: string): seq<Event>
  {
    if evs == [] then []
    else
      var e := evs[|evs| - 1];
      Project(evs[..|evs| - 1], f, id) + (if e.path == f && e.beadID == id then [e] else [])
  }

  /** The reference built from the events of one file/bead pair, the first one creating it. */
  function RefFold(ps: seq<Event>): BeadReference
    requires ps != []
  {
    if |ps| == 1 then Touch(NewRef(ps[0]), ps[0])
    else Touch(RefFold(ps[..|ps| - 1]), ps[|ps| - 1])
  }

  function SumChanges(ps: seq<Event>): int
  {
    if ps == [] then 0 else SumChanges(ps[..|ps| - 1]) + ps[|ps| - 1].changes
  }

  lemma {:induction false} ProjectMembership(evs: seq<Event>, f: string, id: string)
    ensures forall e :: e in Project(evs, f, id) <==> e in evs && e.path == f && e.beadID == id
  {
    if evs != [] {
      var p := evs[..|evs| - 1];
      ProjectMembership(p, f, id);
      assert evs == p + [evs[|evs| - 1]];
    }
  }

  lemma ProjectSnoc(evs: seq<Event>, e: Event, f: string, id: string)
    ensures Project(evs + [e], f, id) == Project(evs, f, id) + (if e.path == f && e.beadID == id then [e] else [])
  {
    assert (evs + [e])[..|evs|] == evs;
  }

  /** What one step of the walk does to the entry of a file/bead pair. */
  lemma ApplyLookup(m: FileBeadMap, e: Event, f: string, id: string)
    ensures (f in Apply(m, e) && id in Apply(m, e)[f]) <==> (f in m && id in m[f]) || (e.path == f && e.beadID == id)
    ensures f in Apply(m, e) && id in Apply(m, e)[f] ==>
              Apply(m, e)[f][id] == if e.path == f && e.beadID == id
                                    then Touch(if f in m && id in m[f] then m[f][id] else NewRef(e), e)
                                    else m[f][id]
  {
  }

  lemma RefFoldSnoc(ps: seq<Event>, e: Event)
    requires ps != []
    ensures RefFold(ps + [e]) == Touch(RefFold(ps), e)
  {
    assert (ps + [e])[..|ps|] == ps;
  }

  /** The table keeps, for each file/bead pair, exactly the fold of that pair's events. */
  lemma {:induction false} FoldProject(evs: seq<Event>, f: string, id: string)
    ensures (f in Fold(evs) && id in Fold(evs)[f]) <==> Project(evs, f, id) != []
    ensures Project(evs, f, id) != [] ==> Fold(evs)[f][id] == RefFold(Project(evs, f, id))
  {
    if evs != [] {
      var p, e := evs[..|evs| - 1], evs[|evs| - 1];
      FoldProject(p, f, id);
      assert Fold(evs) == Apply(Fold(p), e);
      ApplyLookup(Fold(p), e, f, id);
      var ps := Project(p, f, id);
      if e.path == f && e.beadID == id {
        assert Project(evs, f, id) == ps + [e];
        if ps != [] {
          RefFoldSnoc(ps, e);
        } else {
          assert ps + [e] == [e];
        }
      } else {
        assert Project(evs, f, id) == ps;
      }
    }
  }

  /** A file is in the table exactly when some event concerns it. */
  lemma {:induction false} FoldFiles(evs: seq<Event>, f: string)
    ensures f in Fold(evs) <==> exists e :: e in evs && e.path == f
  {
    if evs != [] {
      var p, e := evs[..|evs| - 1], evs[|evs| - 1];
      FoldFiles(p, f);
      assert Fold(evs) == Apply(Fold(p), e);
      assert evs == p + [e];
      if exists x :: x in evs && x.path == f {
        var x :| x in evs && x.path == f;
        assert x in p || x == e;
      }
    }
  }

  /** What a reference built from the events `ps` of one pair records. */
  ghost predicate Summarises(r: BeadReference, ps: seq<Event>)
    requires ps != []
  {
    r.beadID == ps[0].beadID && r.title == ps[0].title && r.status == ps[0].status &&
    NoDuplicates(r.commitSHAs) &&
    (forall s :: s in r.commitSHAs <==> exists e :: e in ps && e.sha == s) &&
    (forall e :: e in ps ==> e.timestamp <= r.lastTouch) &&
    (exists e :: e in ps && e.timestamp == r.lastTouch) &&
    r.totalChanges == SumChanges(ps)
  }

  /**
   * A reference lists each commit once, keeps the latest commit time and adds up all the
   * line changes.
   */
  lemma {:induction false} RefFoldSummarises(ps: seq<Event>)
    requires ps != []
    ensures Summarises(RefFold(ps), ps)
  {
    RefFoldHeader(ps);
    RefFoldCommits(ps);
    RefFoldLastTouch(ps);
    RefFoldChanges(ps);
  }

  /** The bead's ID, title and status come from the first event. */
  lemma {:induction false} RefFoldHeader(ps: seq<Event>)
    requires ps != []
    ensures var r := RefFold(ps); r.beadID == ps[0].beadID && r.title == ps[0].title && r.status == ps[0].status
  {
    if |ps| > 1 {
      RefFoldHeader(ps[..|ps| - 1]);
    }
  }

  /** Each commit of the events is listed, once. */
  lemma {:induction false} RefFoldCommits(ps: seq<Event>)
    requires ps != []
    ensures NoDuplicates(RefFold(ps).commitSHAs)
    ensures forall s :: s in RefFold(ps).commitSHAs <==> exists e :: e in ps && e.sha == s
  {
    var r := RefFold(ps);
    if |ps| == 1 {
      assert ps[0] in ps;
    } else {
      var p, e := ps[..|ps| - 1], ps[|ps| - 1];
      RefFoldCommits(p);
      var q := RefFold(p);
      assert ps == p + [e];
      forall s ensures s in r.commitSHAs <==> exists x :: x in ps && x.sha == s {
        if s in r.commitSHAs && s != e.sha {
          assert s in q.commitSHAs;
          var x :| x in p && x.sha == s;
          assert x in ps;
        }
        if s == e.sha {
          assert e in ps;
        }
      }
    }
  }

  /** The last touch is the latest commit time among the events. */
  lemma {:induction false} RefFoldLastTouch(ps: seq<Event>)
    requires ps != []
    ensures forall e :: e in ps ==> e.timestamp <= RefFold(ps).lastTouch
    ensures exists e :: e in ps && e.timestamp == RefFold(ps).lastTouch
  {
    if |ps| == 1 {
      assert ps[0] in ps;
    } else {
      var p, e := ps[..|ps| - 1], ps[|ps| - 1];
      RefFoldLastTouch(p);
      assert ps == p + [e];
      var x :| x in p && x.timestamp == RefFold(p).lastTouch;
      assert x in ps && e in ps;
    }
  }

  /** The line changes of all the events add up. */
  lemma {:induction false} RefFoldChanges(ps: seq<Event>)
    requires ps != []
    ensures RefFold(ps).totalChanges == SumChanges(ps)
  {
    if |ps| == 1 {
      assert SumChanges(ps) == SumChanges(ps[..0]) + ps[0].changes;
    } else {
      RefFoldChanges(ps[..|ps| - 1]);
    }
  }

  // ---------------------------------------------------------------- from events to histories

  lemma {:induction false} ProjectAppend(a: seq<Event>, b: seq<Event>, f: string, id: string)
    ensures Project(a + b, f, id) == Project(a, f, id) + Project(b, f, id)
  {
    if b != [] {
      var p := b[..|b| - 1];
      ProjectAppend(a, p, f, id);
      assert a + b == (a + p) + [b[|b| - 1]];
      ProjectSnoc(a + p, b[|b| - 1], f, id);
    } else {
      assert a + b == a;
    }
  }

  lemma {:induction false} SumAppend(a: seq<Event>, b: seq<Event>)
    ensures SumChanges(a + b) == SumChanges(a) + SumChanges(b)
  {
    if b != [] {
      var p := b[..|b| - 1];
      SumAppend(a, p);
      assert (a + b)[..|a + b| - 1] == a + p;
    } else {
      assert a + b == a;
    }
  }

  /** Commit `c` changes a file whose normalised path is `f`. */
  ghost predicate TouchesFile(c: CorrelatedCommit, f: string)
  {
    exists i :: 0 <= i < |c.files| && NormalizePath(c.files[i].path) == f
  }

  /** Some commit of the bead touches `f`. */
  ghost predicate Touched(h: BeadHistory, f: string)
  {
    exists j :: 0 <= j < |h.commits| && TouchesFile(h.commits[j], f)
  }

  /** The line changes (insertions plus deletions) made to `f` in `files`. */
  function FileChanges(files: seq<FileChange>, f: string): int
  {
    if files == [] then 0
    else
      var fc := files[|files| - 1];
      FileChanges(files[..|files| - 1], f) + (if NormalizePath(fc.path) == f then fc.insertions + fc.deletions else 0)
  }

  /** The line changes made to `f` over all `commits`. */
  function HistoryChanges(commits: seq<CorrelatedCommit>, f: string): int
  {
    if commits == [] then 0
    else HistoryChanges(commits[..|commits| - 1], f) + FileChanges(commits[|commits| - 1].files, f)
  }

  /** The `i`-th event of a commit is made from its `i`-th file change. */
  lemma CommitEventAt(id: string, h: BeadHistory, c: CorrelatedCommit, files: seq<FileChange>, i: nat)
    requires i < |files|
    ensures |CommitEvents(id, h, c, files)| == |files|
    ensures CommitEvents(id, h, c, files)[i] == FileEvent(id, h, c, files[i])
  {
    MapSeqAt(files, EventOf(id, h, c), i);
  }

  /** The events of a commit are its file changes, position by position. */
  lemma CommitEventsIndex(id: string, h: BeadHistory, c: CorrelatedCommit, files: seq<FileChange>)
    ensures |CommitEvents(id, h, c, files)| == |files|
    ensures forall i :: 0 <= i < |files| ==> CommitEvents(id, h, c, files)[i] == FileEvent(id, h, c, files[i])
  {
    forall i | 0 <= i < |files| ensures CommitEvents(id, h, c, files)[i] == FileEvent(id, h, c, files[i]) {
      CommitEventAt(id, h, c, files, i);
    }
  }

  /** Every event of a bead comes from a file change of one of its commits. */
  lemma {:induction false} BeadEventsFrom(id: string, h: BeadHistory, commits: seq<CorrelatedCommit>, e: Event)
    requires e in BeadEvents(id, h, commits)
    ensures exists j, i :: 0 <= j < |commits| && 0 <= i < |commits[j].files| && e == FileEvent(id, h, commits[j], commits[j].files[i])
  {
    var p, c := commits[..|commits| - 1], commits[|commits| - 1];
    if e in BeadEvents(id, h, p) {
      BeadEventsFrom(id, h, p, e);
      var j, i :| 0 <= j < |p| && 0 <= i < |p[j].files| && e == FileEvent(id, h, p[j], p[j].files[i]);
      assert commits[j] == p[j];
    } else {
      var evs := CommitEvents(id, h, c, c.files);
      assert e in evs;
      var i :| 0 <= i < |evs| && evs[i] == e;
      CommitEventAt(id, h, c, c.files, i);
      assert commits[|p|] == c;
    }
  }

  /** Every file change of every commit of a bead is one of its events. */
  lemma {:induction false} BeadEventsHas(id: string, h: BeadHistory, commits: seq<CorrelatedCommit>, j: nat, i: nat)
    requires j < |commits| && i < |commits[j].files|
    ensures FileEvent(id, h, commits[j], commits[j].files[i]) in BeadEvents(id, h, commits)
  {
    var p, c := commits[..|commits| - 1], commits[|commits| - 1];
    if j < |p| {
      assert p[j] == commits[j];
      BeadEventsHas(id, h, p, j, i);
    } else {
      CommitEventsIndex(id, h, c, c.files);
      assert CommitEvents(id, h, c, c.files)[i] == FileEvent(id, h, commits[j], commits[j].files[i]);
    }
  }

  lemma {:induction false} CommitSum(id: string, h: BeadHistory, c: CorrelatedCommit, files: seq<FileChange>, f: string)
    ensures SumChanges(Project(CommitEvents(id, h, c, files), f, id)) == FileChanges(files, f)
  {
    if files != [] {
      var p := files[..|files| - 1];
      CommitSum(id, h, c, p, f);
      var e := FileEvent(id, h, c, files[|files| - 1]);
      ProjectSnoc(CommitEvents(id, h, c, p), e, f, id);
      SumAppend(Project(CommitEvents(id, h, c, p), f, id), if e.path == f && e.beadID == id then [e] else []);
    }
  }

  /** The changes of a bead's events to `f` add up to `HistoryChanges`. */
  lemma {:induction false} BeadSum(id: string, h: BeadHistory, commits: seq<CorrelatedCommit>, f: string)
    ensures SumChanges(Project(BeadEvents(id, h, commits), f, id)) == HistoryChanges(commits, f)
  {
    if commits != [] {
      var p, c := commits[..|commits| - 1], commits[|commits| - 1];
      BeadSum(id, h, p, f);
      CommitSum(id, h, c, c.files, f);
      ProjectAppend(BeadEvents(id, h, p), CommitEvents(id, h, c, c.files), f, id);
      SumAppend(Project(BeadEvents(id, h, p), f, id), Project(CommitEvents(id, h, c, c.files), f, id));
    }
  }

  lemma {:induction false} ProjectNone(evs: seq<Event>, f: string, id: string)
    requires forall e :: e in evs ==> e.beadID != id
    ensures Project(evs, f, id) == []
  {
    if evs != [] {
      ProjectNone(evs[..|evs| - 1], f, id);
      assert evs[|evs| - 1] in evs;
    }
  }

  lemma BeadEventsOwner(id: string, h: BeadHistory, commits: seq<CorrelatedCommit>, f: string, other: string)
    requires other != id
    ensures Project(BeadEvents(id, h, commits), f, other) == []
  {
    forall e | e in BeadEvents(id, h, commits) ensures e.beadID != other {
      BeadEventsFrom(id, h, commits, e);
    }
    ProjectNone(BeadEvents(id, h, commits), f, other);
  }

  /** Only the bead's own events concern it: the walk's order over the other beads does not matter. */
  lemma {:induction false} ProjectAllEvents(hs: map<string, BeadHistory>, ids: seq<string>, f: string, id: string)
    requires NoDuplicates(ids)
    ensures Project(AllEvents(hs, ids), f, id) ==
            if id in ids && id in hs then Project(BeadEvents(id, hs[id], hs[id].commits), f, id) else []
  {
    if ids != [] {
      var p, x := ids[..|ids| - 1], ids[|ids| - 1];
      assert NoDuplicates(p);
      ProjectAllEvents(hs, p, f, id);
      var tail := if x in hs then BeadEvents(x, hs[x], hs[x].commits) else [];
      var front := AllEvents(hs, p);
      assert AllEvents(hs, ids) == front + tail;
      ProjectAppend(front, tail, f, id);
      if x == id {
        assert x !in p;
        assert Project(front, f, id) == [];
        assert Project(front, f, id) + Project(tail, f, id) == Project(tail, f, id);
        assert id in ids;
      } else {
        if x in hs {
          BeadEventsOwner(x, hs[x], hs[x].commits, f, id);
        } else {
          assert Project(tail, f, id) == [];
        }
        assert Project(front, f, id) + Project(tail, f, id) == Project(front, f, id);
        assert id in ids <==> id in p;
      }
    }
  }

  // ---------------------------------------------------------------- the index in history terms

  /** Reference `r` of bead `id` (history `h`) for file `f` records what the bead's history says. */
  ghost predicate RefOfHistory(r: BeadReference, id: string, h: BeadHistory, f: string)
  {
    r.beadID == id && r.title == h.title && r.status == h.status &&
    NoDuplicates(r.commitSHAs) &&
    (forall s :: s in r.commitSHAs <==>
                 exists j :: 0 <= j < |h.commits| && TouchesFile(h.commits[j], f) && h.commits[j].shortSHA == s) &&
    (forall j :: 0 <= j < |h.commits| && TouchesFile(h.commits[j], f) ==> h.commits[j].timestamp <= r.lastTouch) &&
    (exists j :: 0 <= j < |h.commits| && TouchesFile(h.commits[j], f) && h.commits[j].timestamp == r.lastTouch) &&
    r.totalChanges == HistoryChanges(h.commits, f)
  }

  /** An event of the pair `f`/`id` recorded from one of the bead's commits touching `f`. */
  ghost predicate FromTouchingCommit(e: Event, id: string, h: BeadHistory, f: string)
  {
    e.beadID == id && e.title == h.title && e.status == h.status &&
    exists j :: 0 <= j < |h.commits| && TouchesFile(h.commits[j], f) &&
                e.sha == h.commits[j].shortSHA && e.timestamp == h.commits[j].timestamp
  }

  /** Commit `j` left an event in `ps`. */
  ghost predicate Recorded(ps: seq<Event>, c: CorrelatedCommit)
  {
    exists e :: e in ps && e.sha == c.shortSHA && e.timestamp == c.timestamp
  }

  /** The events of a bead that concern `f` come from exactly the commits touching `f`. */
  lemma BeadFileEvents(id: string, h: BeadHistory, f: string)
    ensures var ps := Project(BeadEvents(id, h, h.commits), f, id);
            (forall e :: e in ps ==> FromTouchingCommit(e, id, h, f)) &&
            (forall j :: 0 <= j < |h.commits| && TouchesFile(h.commits[j], f) ==> Recorded(ps, h.commits[j]))
  {
    var ps := Project(BeadEvents(id, h, h.commits), f, id);
    ProjectMembership(BeadEvents(id, h, h.commits), f, id);
    forall e | e in ps ensures FromTouchingCommit(e, id, h, f) {
      BeadEventsFrom(id, h, h.commits, e);
      var j, i :| 0 <= j < |h.commits| && 0 <= i < |h.commits[j].files| && e == FileEvent(id, h, h.commits[j], h.commits[j].files[i]);
      assert NormalizePath(h.commits[j].files[i].path) == f;
    }
    forall j | 0 <= j < |h.commits| && TouchesFile(h.commits[j], f) ensures Recorded(ps, h.commits[j]) {
      var i :| 0 <= i < |h.commits[j].files| && NormalizePath(h.commits[j].files[i].path) == f;
      var e := FileEvent(id, h, h.commits[j], h.commits[j].files[i]);
      BeadEventsHas(id, h, h.commits, j, i);
      assert e in ps;
    }
  }

  /** A summary of events that all come from, and cover, the bead's commits touching `f` is a summary of those commits. */
  lemma SummaryOfHistory(r: BeadReference, ps: seq<Event>, id: string, h: BeadHistory, f: string)
    requires ps != [] && Summarises(r, ps)
    requires forall e :: e in ps ==> FromTouchingCommit(e, id, h, f)
    requires forall j :: 0 <= j < |h.commits| && TouchesFile(h.commits[j], f) ==> Recorded(ps, h.commits[j])
    requires SumChanges(ps) == HistoryChanges(h.commits, f)
    ensures RefOfHistory(r, id, h, f)
  {
    assert ps[0] in ps;
    forall s ensures s in r.commitSHAs <==>
                     exists j :: 0 <= j < |h.commits| && TouchesFile(h.commits[j], f) && h.commits[j].shortSHA == s {
      if s in r.commitSHAs {
        var e :| e in ps && e.sha == s;
        assert FromTouchingCommit(e, id, h, f);
      }
      if exists j :: 0 <= j < |h.commits| && TouchesFile(h.commits[j], f) && h.commits[j].shortSHA == s {
        var j :| 0 <= j < |h.commits| && TouchesFile(h.commits[j], f) && h.commits[j].shortSHA == s;
        assert Recorded(ps, h.commits[j]);
      }
    }
    forall j | 0 <= j < |h.commits| && TouchesFile(h.commits[j], f) ensures h.commits[j].timestamp <= r.lastTouch {
      assert Recorded(ps, h.commits[j]);
    }
    var e :| e in ps && e.timestamp == r.lastTouch;
    assert FromTouchingCommit(e, id, h, f);
  }

  /**
   * The table the walk builds, described per file and bead: an entry exists exactly when one
   * of the bead's commits touches the file, and it records that bead's commits to the file.
   */
  lemma IndexedRef(hs: map<string, BeadHistory>, ids: seq<string>, f: string, id: string)
    requires NoDuplicates(ids) && forall x :: x in ids <==> x in hs
    ensures var m := Fold(AllEvents(hs, ids));
            ((f in m && id in m[f]) <==> id in hs && Touched(hs[id], f)) &&
            (f in m && id in m[f] ==> RefOfHistory(m[f][id], id, hs[id], f))
  {
    FoldProject(AllEvents(hs, ids), f, id);
    ProjectAllEvents(hs, ids, f, id);
    if id in hs {
      var h := hs[id];
      var ps := Project(BeadEvents(id, h, h.commits), f, id);
      BeadFileEvents(id, h, f);
      if Touched(h, f) {
        var j :| 0 <= j < |h.commits| && TouchesFile(h.commits[j], f);
        assert Recorded(ps, h.commits[j]);
      }
      if ps != [] {
        assert ps[0] in ps;
        RefFoldSummarises(ps);
        BeadSum(id, h, h.commits, f);
        SummaryOfHistory(RefFold(ps), ps, id, h, f);
      }
    }
  }

  /** Every event leaves an entry for its file and bead. */
  lemma EventIndexed(evs: seq<Event>, e: Event)
    requires e in evs
    ensures e.path in Fold(evs) && e.beadID in Fold(evs)[e.path]
  {
    ProjectMembership(evs, e.path, e.beadID);
    assert e in Project(evs, e.path, e.beadID);
    FoldProject(evs, e.path, e.beadID);
  }

  /** A file is indexed exactly when some bead's commit touches it. */
  lemma IndexedFile(hs: map<string, BeadHistory>, ids: seq<string>, f: string)
    requires NoDuplicates(ids) && forall x :: x in ids <==> x in hs
    ensures f in Fold(AllEvents(hs, ids)) <==> exists id :: id in hs && Touched(hs[id], f)
  {
    var evs := AllEvents(hs, ids);
    FoldFiles(evs, f);
    if f in Fold(evs) {
      var e :| e in evs && e.path == f;
      EventIndexed(evs, e);
      IndexedRef(hs, ids, f, e.beadID);
    }
    if exists id :: id in hs && Touched(hs[id], f) {
      var id :| id in hs && Touched(hs[id], f);
      IndexedRef(hs, ids, f, id);
    }
  }

  // ---------------------------------------------------------------- statistics

  /** Every file has at least one reference, so the links are at least the files plus the multi-bead files. */
  lemma {:induction false} LinksBound(m: map<string, seq<BeadReference>>)
    requires forall f :: f in m ==> |m[f]| >= 1
    ensures Tally(m, RefCount) >= |m.Keys| + Tally(m, Multiple)
    ensures Tally(m, Multiple) <= |m.Keys|
    decreases |m.Keys|
  {
    if m.Keys != {} {
      var f :| f in m.Keys;
      TallyRemove(m, RefCount, f);
      TallyRemove(m, Multiple, f);
      assert (m - {f}).Keys == m.Keys - {f};
      LinksBound(m - {f});
    }
  }

  /** Every file entry of the table holds at least one bead. */
  lemma {:induction false} FoldNonEmpty(evs: seq<Event>)
    ensures forall f :: f in Fold(evs) ==> |Fold(evs)[f]| >= 1
  {
    if evs != [] {
      var p, e := evs[..|evs| - 1], evs[|evs| - 1];
      FoldNonEmpty(p);
      assert Fold(evs) == Apply(Fold(p), e);
      var inner := Fold(evs)[e.path];
      assert e.beadID in inner.Keys;
      assert |inner.Keys| >= 1;
    }
  }

  /** The statistics of a built index: links and multi-bead files are bounded by the file count. */
  lemma StatsBounds(index: FileBeadIndex, m: FileBeadMap)
    requires index.fileToBeads.Keys == m.Keys && AllListed(index.fileToBeads, m)
    requires index.stats.totalFiles == |m.Keys|
    requires index.stats.totalBeadLinks == Tally(index.fileToBeads, RefCount)
    requires index.stats.filesWithMultipleBeads == Tally(index.fileToBeads, Multiple)
    requires exists evs :: m == Fold(evs)
    ensures index.stats.filesWithMultipleBeads <= index.stats.totalFiles
    ensures index.stats.totalBeadLinks >= index.stats.totalFiles + index.stats.filesWithMultipleBeads
  {
    var evs :| m == Fold(evs);
    FoldNonEmpty(evs);
    LinksBound(index.fileToBeads);
  }
}
