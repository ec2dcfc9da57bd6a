/**
 * The file-to-bead reverse index of the correlation package: for every (normalised) file
 * path, one reference per bead whose correlated commits touched it, accumulating the short
 * SHAs, the latest commit time and the line changes.
 *
 * Building the index walks every bead history, every commit of it and every file of each
 * commit. The walk is specified as a fold over the sequence of "events" it visits (one per
 * file change), so that the result can be described independently of Go's map iteration
 * order: `FileIndexProps` shows that each reference depends only on its own bead's history.
 */
module FileIndex {
  import opened Wrappers
  import opened Sorting
  import opened History

  datatype BeadReference = BeadReference(beadID: string, title: string, status: string,
                                         commitSHAs: seq<string>, lastTouch: int, totalChanges: int)

  datatype FileIndexStats = FileIndexStats(totalFiles: nat, totalBeadLinks: nat, filesWithMultipleBeads: nat)

  datatype FileBeadIndex = FileBeadIndex(fileToBeads: map<string, seq<BeadReference>>, stats: FileIndexStats)

  /** The intermediate table: file -> bead ID -> reference. */
  type FileBeadMap = map<string, map<string, BeadReference>>

  // ---------------------------------------------------------------- the walk, as events

  /** One file change of one commit of one bead, as the walk sees it. */
  datatype Event = Event(beadID: string, title: string, status: string, sha: string, timestamp: int,
                         path: string, changes: int)

  function FileEvent(id: string, h: BeadHistory, c: CorrelatedCommit, fc: FileChange): Event
  {
    Event(id, h.title, h.status, c.shortSHA, c.timestamp, NormalizePath(fc.path), fc.insertions + fc.deletions)
  }

  /** The event of each file change of commit `c`. */
  function EventOf(id: string, h: BeadHistory, c: CorrelatedCommit): FileChange -> Event
  {
    fc => FileEvent(id, h, c, fc)
  }

  function CommitEvents(id: string, h: BeadHistory, c: CorrelatedCommit, files: seq<FileChange>): seq<Event>
  {
    MapSeq(files, EventOf(id, h, c))
  }

  function BeadEvents(id: string, h: BeadHistory, commits: seq<CorrelatedCommit>): seq<Event>
  {
    if commits == [] then []
    else
      var c := commits[|commits| - 1];
      BeadEvents(id, h, commits[..|commits| - 1]) + CommitEvents(id, h, c, c.files)
  }

  /** The events of the beads `ids`, visited in that order. */
  function AllEvents(hs: map<string, BeadHistory>, ids: seq<string>): seq<Event>
  {
    if ids == [] then []
    else
      var id := ids[|ids| - 1];
      AllEvents(hs, ids[..|ids| - 1]) + (if id in hs then BeadEvents(id, hs[id], hs[id].commits) else [])
  }

  /** The reference created the first time a bead touches a file: no SHAs yet, no changes. */
  function NewRef(e: Event): BeadReference
  {
    BeadReference(e.beadID, e.title, e.status, [], e.timestamp, 0)
  }

  /** One change recorded on a reference: the SHA added once, a later time kept, the changes added. */
  function Touch(r: BeadReference, e: Event): BeadReference
  {
    r.(commitSHAs := if e.sha in r.commitSHAs then r.commitSHAs else r.commitSHAs + [e.sha],
       lastTouch := if e.timestamp > r.lastTouch then e.timestamp else r.lastTouch,
       totalChanges := r.totalChanges + e.changes)
  }

  function Apply(m: FileBeadMap, e: Event): FileBeadMap
  {
    var inner := if e.path in m then m[e.path] else map[];
    var ref := if e.beadID in inner then inner[e.beadID] else NewRef(e);
    m[e.path := inner[e.beadID := Touch(ref, e)]]
  }

  /** The table after the walk, starting from `m`, has visited `evs`. */
  function FoldFrom(m: FileBeadMap, evs: seq<Event>): FileBeadMap
  {
    if evs == [] then m else Apply(FoldFrom(m, evs[..|evs| - 1]), evs[|evs| - 1])
  }

  /** The table after the whole walk over `evs`, starting empty. */
  function Fold(evs: seq<Event>): FileBeadMap
  {
    FoldFrom(map[], evs)
  }

  lemma {:induction false} FoldAppend(m: FileBeadMap, a: seq<Event>, b: seq<Event>)
    ensures FoldFrom(m, a + b) == FoldFrom(FoldFrom(m, a), b)
  {
    if b != [] {
      assert (a + b)[..|a + b| - 1] == a + b[..|b| - 1];
      FoldAppend(m, a, b[..|b| - 1]);
    } else {
      assert a + b == a;
    }
  }

  lemma CommitEventsStep(id: string, h: BeadHistory, c: CorrelatedCommit, k: nat)
    requires k < |c.files|
    ensures CommitEvents(id, h, c, c.files[..k + 1]) == CommitEvents(id, h, c, c.files[..k]) + [FileEvent(id, h, c, c.files[k])]
  {
    assert c.files[..k + 1][..k] == c.files[..k];
  }

  lemma BeadEventsStep(id: string, h: BeadHistory, j: nat)
    requires j < |h.commits|
    ensures BeadEvents(id, h, h.commits[..j + 1]) ==
            BeadEvents(id, h, h.commits[..j]) + CommitEvents(id, h, h.commits[j], h.commits[j].files)
  {
    assert h.commits[..j + 1][..j] == h.commits[..j];
  }

  lemma FoldSnoc(m: FileBeadMap, evs: seq<Event>, e: Event)
    ensures FoldFrom(m, evs + [e]) == Apply(FoldFrom(m, evs), e)
  {
    assert (evs + [e])[..|evs|] == evs;
  }

  // ---------------------------------------------------------------- building

  /** Whether `sha` is already among `shas`, by a linear search. */
  method ContainsSHA(shas: seq<string>, sha: string) returns (found: bool)
    ensures found <==> sha in shas
  {
    found := false;
    for i := 0 to |shas|
      invariant found <==> sha in shas[..i]
    {
      if shas[i] == sha {
        found := true;
        break;
      }
    }
  }

  /** Records one file change in the table. */
  method RecordChange(m: FileBeadMap, e: Event) returns (m': FileBeadMap)
    ensures m' == Apply(m, e)
  {
    var inner := if e.path in m then m[e.path] else map[];
    var ref := if e.beadID in inner then inner[e.beadID] else NewRef(e);
    var found := ContainsSHA(ref.commitSHAs, e.sha);
    if !found {
      ref := ref.(commitSHAs := ref.commitSHAs + [e.sha]);
    }
    if e.timestamp > ref.lastTouch {
      ref := ref.(lastTouch := e.timestamp);
    }
    ref := ref.(totalChanges := ref.totalChanges + e.changes);
    m' := m[e.path := inner[e.beadID := ref]];
  }

  /** The file changes of one commit, in order. */
  method WalkFiles(m: FileBeadMap, id: string, h: BeadHistory, c: CorrelatedCommit) returns (m': FileBeadMap)
    ensures m' == FoldFrom(m, CommitEvents(id, h, c, c.files))
  {
    m' := m;
    for k := 0 to |c.files|
      invariant m' == FoldFrom(m, CommitEvents(id, h, c, c.files[..k]))
    {
      var fc := c.files[k];
      var e := FileEvent(id, h, c, fc);
      m' := RecordChange(m', e);
      CommitEventsStep(id, h, c, k);
      FoldSnoc(m, CommitEvents(id, h, c, c.files[..k]), e);
    }
    assert c.files[..|c.files|] == c.files;
  }

  /** The commits of one bead, in order. */
  method WalkCommits(m: FileBeadMap, id: string, h: BeadHistory) returns (m': FileBeadMap)
    ensures m' == FoldFrom(m, BeadEvents(id, h, h.commits))
  {
    m' := m;
    for j := 0 to |h.commits|
      invariant m' == FoldFrom(m, BeadEvents(id, h, h.commits[..j]))
    {
      var c := h.commits[j];
      m' := WalkFiles(m', id, h, c);
      BeadEventsStep(id, h, j);
      FoldAppend(m, BeadEvents(id, h, h.commits[..j]), CommitEvents(id, h, c, c.files));
    }
    assert h.commits[..|h.commits|] == h.commits;
  }

  /** The walk over every bead (in the unspecified order `ids`), commit and file change. */
  method BuildFileBeadMap(hs: map<string, BeadHistory>) returns (m: FileBeadMap, ghost ids: seq<string>)
    ensures NoDuplicates(ids) && forall id :: id in ids <==> id in hs
    ensures m == Fold(AllEvents(hs, ids))
  {
    var keys := MapKeys(hs);
    ids := keys;
    m := map[];
    for i := 0 to |keys|
      invariant m == Fold(AllEvents(hs, keys[..i]))
    {
      var id := keys[i];
      m := WalkCommits(m, id, hs[id]);
      assert keys[..i + 1][..i] == keys[..i];
      FoldAppend(map[], AllEvents(hs, keys[..i]), BeadEvents(id, hs[id], hs[id].commits));
    }
    assert keys[..|keys|] == keys;
  }

  // ---------------------------------------------------------------- converting

  /** Most recent first. */
  function ByLastTouch(): (BeadReference, BeadReference) -> bool
  {
    (a: BeadReference, b: BeadReference) => a.lastTouch >= b.lastTouch
  }

  lemma ByLastTouchTotal()
    ensures TotalPreorder(ByLastTouch())
  {
  }

  /** `refs` lists the references of `beads`, one per bead ID, most recent first. */
  ghost predicate ListsRefs(refs: seq<BeadReference>, beads: map<string, BeadReference>)
  {
    |refs| == |beads| &&
    (forall i :: 0 <= i < |refs| ==> refs[i].beadID in beads && beads[refs[i].beadID] == refs[i]) &&
    (forall id :: id in beads ==> beads[id] in refs) &&
    (forall i, j :: 0 <= i < j < |refs| ==> refs[i].beadID != refs[j].beadID) &&
    (forall i, j :: 0 <= i < j < |refs| ==> refs[i].lastTouch >= refs[j].lastTouch)
  }

  /** Every reference is filed under its own bead ID. */
  ghost predicate KeyedByBead(beads: map<string, BeadReference>)
  {
    forall id :: id in beads ==> beads[id].beadID == id
  }

  /** The references of one file, collected in map order and then sorted by last touch. */
  method CollectRefs(beads: map<string, BeadReference>) returns (refs: seq<BeadReference>)
    requires KeyedByBead(beads)
    ensures ListsRefs(refs, beads)
  {
    var ids := MapKeys(beads);
    var collected: seq<BeadReference> := [];
    for i := 0 to |ids|
      invariant |collected| == i
      invariant forall k :: 0 <= k < i ==> collected[k] == beads[ids[k]]
    {
      collected := collected + [beads[ids[i]]];
    }
    CollectedRefs(beads, ids, collected);
    refs := Sort(collected, ByLastTouch());
    SortedRefs(beads, collected, refs);
  }

  /** The values of a map keyed by bead ID, read along an enumeration of its keys. */
  lemma CollectedRefs(beads: map<string, BeadReference>, ids: seq<string>, collected: seq<BeadReference>)
    requires KeyedByBead(beads)
    requires NoDuplicates(ids) && forall id :: id in ids <==> id in beads
    requires |collected| == |ids| && forall k :: 0 <= k < |ids| ==> collected[k] == beads[ids[k]]
    ensures NoDuplicates(collected) && |collected| == |beads|
    ensures forall id :: id in beads ==> beads[id] in collected
    ensures forall r :: r in collected ==> r.beadID in beads && beads[r.beadID] == r
  {
    forall a, b | 0 <= a < b < |collected| ensures collected[a] != collected[b] {
      assert collected[a].beadID == ids[a] && collected[b].beadID == ids[b];
    }
    forall id | id in beads ensures beads[id] in collected {
      var k :| 0 <= k < |ids| && ids[k] == id;
      assert collected[k] == beads[id];
    }
    NoDuplicatesCard(ids, beads.Keys);
  }

  lemma SortedRefs(beads: map<string, BeadReference>, collected: seq<BeadReference>, refs: seq<BeadReference>)
    requires NoDuplicates(collected) && |collected| == |beads|
    requires forall id :: id in beads ==> beads[id] in collected
    requires forall r :: r in collected ==> r.beadID in beads && beads[r.beadID] == r
    requires refs == Sort(collected, ByLastTouch())
    ensures ListsRefs(refs, beads)
  {
    ByLastTouchTotal();
    SortSorted(collected, ByLastTouch());
    SortedRefsMembers(beads, collected, refs);
    forall i, j | 0 <= i < j < |refs| ensures refs[i].lastTouch >= refs[j].lastTouch {
      assert ByLastTouch()(refs[i], refs[j]);
    }
  }

  /** A permutation of the collected references lists each bead once. */
  lemma SortedRefsMembers(beads: map<string, BeadReference>, collected: seq<BeadReference>, refs: seq<BeadReference>)
    requires NoDuplicates(collected) && |collected| == |beads|
    requires forall id :: id in beads ==> beads[id] in collected
    requires forall r :: r in collected ==> r.beadID in beads && beads[r.beadID] == r
    requires multiset(refs) == multiset(collected)
    ensures |refs| == |beads|
    ensures forall i :: 0 <= i < |refs| ==> refs[i].beadID in beads && beads[refs[i].beadID] == refs[i]
    ensures forall id :: id in beads ==> beads[id] in refs
    ensures forall i, j :: 0 <= i < j < |refs| ==> refs[i].beadID != refs[j].beadID
  {
    assert |refs| == |multiset(refs)| == |multiset(collected)| == |collected|;
    NoDuplicatesPermutation(collected, refs);
    forall i | 0 <= i < |refs| ensures refs[i].beadID in beads && beads[refs[i].beadID] == refs[i] {
      assert refs[i] in multiset(collected);
    }
    forall id | id in beads ensures beads[id] in refs {
      assert beads[id] in multiset(refs);
    }
    forall i, j | 0 <= i < j < |refs| ensures refs[i].beadID != refs[j].beadID {
      assert refs[i] in multiset(collected) && refs[j] in multiset(collected);
    }
  }

  /** Number of references in a list. */
  function RefCount(refs: seq<BeadReference>): nat { |refs| }

  /** 1 for a file touched by more than one bead. */
  function Multiple(refs: seq<BeadReference>): nat { if |refs| > 1 then 1 else 0 }

  /** The total of `w` over the lists of an index, whatever the order of its files. */
  ghost function Tally(m: map<string, seq<BeadReference>>, w: seq<BeadReference> -> nat): nat
    decreases |m.Keys|
  {
    if m.Keys == {} then 0
    else
      var k :| k in m.Keys;
      w(m[k]) + Tally(m - {k}, w)
  }

  /** Any file can be counted first. */
  lemma {:induction false} TallyRemove(m: map<string, seq<BeadReference>>, w: seq<BeadReference> -> nat, k: string)
    requires k in m
    ensures Tally(m, w) == w(m[k]) + Tally(m - {k}, w)
    decreases |m.Keys|
  {
    var j :| j in m.Keys && Tally(m, w) == w(m[j]) + Tally(m - {j}, w);
    if j != k {
      var mj, mk := m - {j}, m - {k};
      assert mj.Keys == m.Keys - {j};
      assert mk.Keys == m.Keys - {k};
      TallyRemove(mj, w, k);
      TallyRemove(mk, w, j);
      RemoveSwap(m, j, k);
    }
  }

  /** Removing two keys, in either order. */
  lemma RemoveSwap(m: map<string, seq<BeadReference>>, a: string, b: string)
    ensures (m - {a}) - {b} == (m - {b}) - {a}
  {
    assert ((m - {a}) - {b}).Keys == m.Keys - {a, b} == ((m - {b}) - {a}).Keys;
  }

  lemma TallyAdd(m: map<string, seq<BeadReference>>, f: string, refs: seq<BeadReference>, w: seq<BeadReference> -> nat)
    requires f !in m
    ensures Tally(m[f := refs], w) == w(refs) + Tally(m, w)
  {
    TallyRemove(m[f := refs], w, f);
    assert m[f := refs] - {f} == m;
  }

  /** Each file of `result` is a file of `m`, its list built from `m`'s references. */
  ghost predicate AllListed(result: map<string, seq<BeadReference>>, m: FileBeadMap)
  {
    forall f :: f in result ==> f in m && ListsRefs(result[f], m[f])
  }

  lemma ListedAdd(result: map<string, seq<BeadReference>>, m: FileBeadMap, f: string, refs: seq<BeadReference>)
    requires AllListed(result, m) && f in m && ListsRefs(refs, m[f])
    ensures AllListed(result[f := refs], m)
  {
  }

  /** One file of the conversion: its sorted list stored, the two counters advanced. */
  method ConvertFile(m: FileBeadMap, f: string, result: map<string, seq<BeadReference>>, totalLinks: nat, multiple: nat)
    returns (result': map<string, seq<BeadReference>>, totalLinks': nat, multiple': nat)
    requires f in m && f !in result && KeyedByBead(m[f]) && AllListed(result, m)
    requires totalLinks == Tally(result, RefCount) && multiple == Tally(result, Multiple)
    ensures result'.Keys == result.Keys + {f} && AllListed(result', m)
    ensures totalLinks' == Tally(result', RefCount) && multiple' == Tally(result', Multiple)
  {
    var refs := CollectRefs(m[f]);
    TallyAdd(result, f, refs, RefCount);
    TallyAdd(result, f, refs, Multiple);
    ListedAdd(result, m, f, refs);
    result' := result[f := refs];
    totalLinks' := totalLinks + |refs|;
    multiple' := multiple;
    if |refs| > 1 {
      multiple' := multiple + 1;
    }
  }

  lemma SameKeys<V, W>(a: map<string, V>, b: map<string, W>, keys: seq<string>)
    requires forall f :: f in a <==> f in keys
    requires forall f :: f in keys <==> f in b
    ensures a.Keys == b.Keys && |a.Keys| == |b.Keys|
  {
  }

  lemma NotInPrefix(files: seq<string>, i: nat)
    requires NoDuplicates(files) && i < |files|
    ensures files[i] !in files[..i]
  {
  }

  /** The files among the first `i` of `files`. */
  ghost function PrefixSet(files: seq<string>, i: nat): set<string>
    requires i <= |files|
  {
    set f | f in files[..i]
  }

  lemma PrefixKeysStep(files: seq<string>, i: nat)
    requires i < |files|
    ensures PrefixSet(files, i + 1) == PrefixSet(files, i) + {files[i]}
  {
    assert files[..i + 1] == files[..i] + [files[i]];
  }

  /** The conversion loop over the files `files`, visited in that order. */
  method ConvertFiles(m: FileBeadMap, files: seq<string>)
    returns (result: map<string, seq<BeadReference>>, totalLinks: nat, multiple: nat)
    requires NoDuplicates(files) && forall f :: f in files ==> f in m && KeyedByBead(m[f])
    ensures forall f :: f in result <==> f in files
    ensures AllListed(result, m)
    ensures totalLinks == Tally(result, RefCount) && multiple == Tally(result, Multiple)
  {
    result, totalLinks, multiple := map[], 0, 0;
    for i := 0 to |files|
      invariant result.Keys == PrefixSet(files, i)
      invariant AllListed(result, m)
      invariant totalLinks == Tally(result, RefCount) && multiple == Tally(result, Multiple)
    {
      NotInPrefix(files, i);
      PrefixKeysStep(files, i);
      result, totalLinks, multiple := ConvertFile(m, files[i], result, totalLinks, multiple);
    }
    assert files[..|files|] == files;
  }

  /** Converts the table into sorted lists and computes the statistics. */
  method ConvertIndex(m: FileBeadMap) returns (index: FileBeadIndex)
    requires forall f :: f in m ==> KeyedByBead(m[f])
    ensures index.fileToBeads.Keys == m.Keys
    ensures AllListed(index.fileToBeads, m)
    ensures index.stats.totalFiles == |m.Keys|
    ensures index.stats.totalBeadLinks == Tally(index.fileToBeads, RefCount)
    ensures index.stats.filesWithMultipleBeads == Tally(index.fileToBeads, Multiple)
  {
    var files := MapKeys(m);
    var result, totalLinks, multipleBeadsCount := ConvertFiles(m, files);
    SameKeys(result, m, files);
    index := FileBeadIndex(result, FileIndexStats(|result.Keys|, totalLinks, multipleBeadsCount));
  }

  /** Every reference the walk creates is filed under its own bead ID. */
  lemma {:induction false} FoldKeyedByBead(m: FileBeadMap, evs: seq<Event>)
    requires forall f :: f in m ==> KeyedByBead(m[f])
    ensures forall f :: f in FoldFrom(m, evs) ==> KeyedByBead(FoldFrom(m, evs)[f])
  {
    if evs != [] {
      FoldKeyedByBead(m, evs[..|evs| - 1]);
    }
  }

  /** `BuildFileIndex`: the empty index for a missing report, otherwise the walk followed by the conversion. */
  method BuildFileIndex(report: Option<HistoryReport>) returns (index: FileBeadIndex, ghost ids: seq<string>)
    ensures report.None? ==> index == FileBeadIndex(map[], FileIndexStats(0, 0, 0))
    ensures report.Some? ==>
              NoDuplicates(ids) && (forall id :: id in ids <==> id in report.value.histories) &&
              var m := Fold(AllEvents(report.value.histories, ids));
              index.fileToBeads.Keys == m.Keys &&
              AllListed(index.fileToBeads, m) &&
              index.stats.totalFiles == |m.Keys| &&
              index.stats.totalBeadLinks == Tally(index.fileToBeads, RefCount) &&
              index.stats.filesWithMultipleBeads == Tally(index.fileToBeads, Multiple)
  {
    ids := [];
    if report.None? {
      return FileBeadIndex(map[], FileIndexStats(0, 0, 0)), ids;
    }
    var m;
    m, ids := BuildFileBeadMap(report.value.histories);
    FoldKeyedByBead(map[], AllEvents(report.value.histories, ids));
    index := ConvertIndex(m);
  }
}
