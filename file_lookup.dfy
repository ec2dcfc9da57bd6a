/**
 * Queries on the reverse index: the beads that touched a file (or, failing an exact match,
 * any file under a directory), split into open and closed by their current status; every
 * indexed file; and the files touched by the most beads.
 *
 * The current status and title of a bead come from the bead histories the lookup was built
 * with; a reference whose bead is not there keeps what the index recorded.
 */
module FileLookup {
  import opened Wrappers
  import opened Sorting
  import opened History
  import opened FileIndex
  import opened CoChange

  /** The index, the bead histories it was built from (for current statuses), and the co-change matrix. */
  datatype FileLookup = FileLookup(index: FileBeadIndex, beads: map<string, BeadHistory>, coChange: CoChangeMatrix)

  /**
   * `NewFileLookup`: the index and the co-change matrix built from the same report, and the
   * report's histories as the current bead states (none without a report).
   */
  method NewFileLookup(report: Option<HistoryReport>)
    returns (fl: FileLookup, ghost ids: seq<string>, ghost cs: seq<CorrelatedCommit>)
    ensures report.None? ==> fl == FileLookup(FileBeadIndex(map[], FileIndexStats(0, 0, 0)), map[],
                                              CoChangeMatrix(map[], map[], map[]))
    ensures report.Some? ==>
              fl.beads == report.value.histories &&
              NoDuplicates(ids) && (forall id :: id in ids <==> id in report.value.histories) &&
              fl.index.fileToBeads.Keys == Fold(AllEvents(report.value.histories, ids)).Keys &&
              AllListed(fl.index.fileToBeads, Fold(AllEvents(report.value.histories, ids)))
    ensures Summarises(fl.coChange, cs) && NoDuplicates(Shas(cs))
    ensures report.Some? ==> forall id, c :: id in report.value.histories && c in report.value.histories[id].commits ==>
                                             c.sha in Shas(cs)
  {
    var index;
    index, ids := BuildFileIndex(report);
    var coChange;
    coChange, cs := BuildCoChangeMatrix(report);
    var beads := if report.Some? then report.value.histories else map[];
    fl := FileLookup(index, beads, coChange);
  }

  datatype LookupResult = LookupResult(filePath: string, openBeads: seq<BeadReference>,
                                       closedBeads: seq<BeadReference>, totalBeads: nat)

  // ---------------------------------------------------------------- current status

  /** The reference with its bead's current title and status, when the bead is known. */
  function Refresh(beads: map<string, BeadHistory>, r: BeadReference): (r': BeadReference)
    ensures r'.beadID == r.beadID && r'.commitSHAs == r.commitSHAs
    ensures r'.lastTouch == r.lastTouch && r'.totalChanges == r.totalChanges
    ensures r.beadID in beads ==> r'.title == beads[r.beadID].title && r'.status == beads[r.beadID].status
    ensures r.beadID !in beads ==> r' == r
  {
    if r.beadID in beads then r.(status := beads[r.beadID].status, title := beads[r.beadID].title) else r
  }

  function BucketOf(beads: map<string, BeadHistory>, r: BeadReference): Bucket
  {
    ClassifyBeadStatus(Refresh(beads, r).status)
  }

  /** The refreshed references of `refs` that fall in bucket `b`, in order. */
  function Bucketed(beads: map<string, BeadHistory>, refs: seq<BeadReference>, b: Bucket): seq<BeadReference>
  {
    if refs == [] then []
    else
      var r := refs[|refs| - 1];
      Bucketed(beads, refs[..|refs| - 1], b) + (if BucketOf(beads, r) == b then [Refresh(beads, r)] else [])
  }

  /** One more reference extends each bucket by at most its refreshed self. */
  lemma BucketedStep(beads: map<string, BeadHistory>, refs: seq<BeadReference>, k: nat, b: Bucket)
    requires k < |refs|
    ensures Bucketed(beads, refs[..k + 1], b) ==
            Bucketed(beads, refs[..k], b) + (if BucketOf(beads, refs[k]) == b then [Refresh(beads, refs[k])] else [])
  {
    assert refs[..k + 1][..k] == refs[..k];
  }

  /** Every reference of bucket `b` in the list appears, refreshed, in that bucket. */
  lemma {:induction false} BucketedHas(beads: map<string, BeadHistory>, refs: seq<BeadReference>, b: Bucket, k: nat)
    requires k < |refs| && BucketOf(beads, refs[k]) == b
    ensures Refresh(beads, refs[k]) in Bucketed(beads, refs, b)
    decreases |refs|
  {
    var n := |refs| - 1;
    var r := Refresh(beads, refs[k]);
    BucketedStep(beads, refs, n, b);
    assert refs[..n + 1] == refs;
    var tail := if BucketOf(beads, refs[n]) == b then [Refresh(beads, refs[n])] else [];
    assert Bucketed(beads, refs, b) == Bucketed(beads, refs[..n], b) + tail;
    if k < n {
      assert refs[..n][k] == refs[k];
      BucketedHas(beads, refs[..n], b, k);
      assert r in Bucketed(beads, refs[..n], b);
    } else {
      assert tail == [r];
      assert Bucketed(beads, refs, b)[|Bucketed(beads, refs[..n], b)|] == r;
    }
  }

  /** A bucketed reference is a refreshed reference of the list whose current status falls in that bucket. */
  lemma {:induction false} BucketedFrom(beads: map<string, BeadHistory>, refs: seq<BeadReference>, b: Bucket, r: BeadReference)
    requires r in Bucketed(beads, refs, b)
    ensures exists k :: 0 <= k < |refs| && r == Refresh(beads, refs[k]) && BucketOf(beads, refs[k]) == b
    ensures ClassifyBeadStatus(r.status) == b
    decreases |refs|
  {
    var p := refs[..|refs| - 1];
    if r in Bucketed(beads, p, b) {
      BucketedFrom(beads, p, b, r);
      var k :| 0 <= k < |p| && r == Refresh(beads, p[k]) && BucketOf(beads, p[k]) == b;
      assert refs[k] == p[k];
    } else {
      assert r == Refresh(beads, refs[|refs| - 1]);
    }
  }

  // ---------------------------------------------------------------- ordering

  /** Most recent first, ties broken by ascending bead ID. */
  function RefLe(): (BeadReference, BeadReference) -> bool
  {
    (a: BeadReference, b: BeadReference) =>
      a.lastTouch > b.lastTouch || (a.lastTouch == b.lastTouch && StrLessEq(a.beadID, b.beadID))
  }

  lemma RefLeTotal()
    ensures TotalPreorder(RefLe())
  {
    forall a: BeadReference, b: BeadReference ensures RefLe()(a, b) || RefLe()(b, a) {
      StrLessTotal(a.beadID, b.beadID);
    }
    forall a: BeadReference, b: BeadReference, c: BeadReference | RefLe()(a, b) && RefLe()(b, c)
      ensures RefLe()(a, c)
    {
      if a.lastTouch == b.lastTouch == c.lastTouch && a.beadID != b.beadID && b.beadID != c.beadID {
        StrLessTransitive(a.beadID, b.beadID, c.beadID);
      }
    }
  }

  /** `sortBeadRefs`. */
  function SortBeadRefs(refs: seq<BeadReference>): seq<BeadReference>
  {
    Sort(refs, RefLe())
  }

  /** Sorting keeps the references and orders them by recency, then bead ID. */
  lemma SortBeadRefsSorted(refs: seq<BeadReference>)
    ensures SortedBy(SortBeadRefs(refs), RefLe())
    ensures multiset(SortBeadRefs(refs)) == multiset(refs)
    ensures forall r :: r in SortBeadRefs(refs) <==> r in refs
  {
    RefLeTotal();
    SortSorted(refs, RefLe());
  }

  /** Two distinct beads are never tied: the order between their references is strict. */
  lemma RefLeStrict(a: BeadReference, b: BeadReference)
    requires a.beadID != b.beadID && RefLe()(a, b)
    ensures !RefLe()(b, a)
  {
    if a.lastTouch == b.lastTouch {
      StrLessAsymmetric(a.beadID, b.beadID);
    }
  }

  // ---------------------------------------------------------------- searching

  /** The bead IDs of a list of references. */
  function IDs(refs: seq<BeadReference>): (ids: seq<string>)
    ensures |ids| == |refs| && forall i :: 0 <= i < |refs| ==> ids[i] == refs[i].beadID
  {
    seq(|refs|, i requires 0 <= i < |refs| => refs[i].beadID)
  }

  /** `containsBeadRef`: whether some reference of the list is for bead `beadID`. */
  method ContainsBeadRef(refs: seq<BeadReference>, beadID: string) returns (found: bool)
    ensures found <==> beadID in IDs(refs)
  {
    for i := 0 to |refs|
      invariant beadID !in IDs(refs[..i])
    {
      if refs[i].beadID == beadID {
        assert IDs(refs)[i] == beadID;
        return true;
      }
      assert IDs(refs[..i + 1]) == IDs(refs[..i]) + [refs[i].beadID];
    }
    assert refs[..|refs|] == refs;
    return false;
  }

  // ---------------------------------------------------------------- LookupByFile

  /** The exact-match branch: every reference of the file, refreshed and bucketed, each bucket sorted. */
  method LookupExact(refs: seq<BeadReference>, beads: map<string, BeadHistory>, path: string) returns (res: LookupResult)
    ensures res == LookupResult(path, SortBeadRefs(Bucketed(beads, refs, OpenBucket)),
                                SortBeadRefs(Bucketed(beads, refs, ClosedBucket)), res.totalBeads)
    ensures res.totalBeads == |res.openBeads| + |res.closedBeads|
  {
    var open: seq<BeadReference> := [];
    var closed: seq<BeadReference> := [];
    for k := 0 to |refs|
      invariant open == Bucketed(beads, refs[..k], OpenBucket)
      invariant closed == Bucketed(beads, refs[..k], ClosedBucket)
    {
      BucketedStep(beads, refs, k, OpenBucket);
      BucketedStep(beads, refs, k, ClosedBucket);
      var ref := Refresh(beads, refs[k]);
      var bucket := ClassifyBeadStatus(ref.status);
      if bucket == ClosedBucket {
        closed := closed + [ref];
      } else if bucket == OpenBucket {
        open := open + [ref];
      }
    }
    assert refs[..|refs|] == refs;
    open := SortBeadRefs(open);
    closed := SortBeadRefs(closed);
    res := LookupResult(path, open, closed, |open| + |closed|);
  }

  /** `f` is a file under the directory `dir`. */
  predicate UnderDir(f: string, dir: string)
  {
    HasPrefix(f, dir + "/")
  }

  /** `r` is the refreshed reference of some file under `dir`, in bucket `b`. */
  ghost predicate FromDir(index: map<string, seq<BeadReference>>, beads: map<string, BeadHistory>, dir: string,
                          b: Bucket, r: BeadReference)
  {
    exists f, k :: f in index && UnderDir(f, dir) && 0 <= k < |index[f]| &&
                   r == Refresh(beads, index[f][k]) && BucketOf(beads, index[f][k]) == b
  }

  /** A bucket of the directory branch: sound, free of repeated beads, and covering every bead of bucket `b` in `refs`. */
  ghost predicate DirBucket(index: map<string, seq<BeadReference>>, beads: map<string, BeadHistory>, dir: string,
                            b: Bucket, out: seq<BeadReference>)
  {
    (forall j :: 0 <= j < |out| ==> FromDir(index, beads, dir, b, out[j])) &&
    NoDuplicates(IDs(out))
  }

  ghost predicate Covers(beads: map<string, BeadHistory>, refs: seq<BeadReference>, b: Bucket, out: seq<BeadReference>)
  {
    forall k :: 0 <= k < |refs| && BucketOf(beads, refs[k]) == b ==> refs[k].beadID in IDs(out)
  }

  /** Covering survives growing the bucket at its end. */
  lemma CoversGrow(beads: map<string, BeadHistory>, refs: seq<BeadReference>, b: Bucket, out: seq<BeadReference>, out': seq<BeadReference>)
    requires Covers(beads, refs, b, out) && out <= out'
    ensures Covers(beads, refs, b, out')
  {
    forall k | 0 <= k < |refs| && BucketOf(beads, refs[k]) == b ensures refs[k].beadID in IDs(out') {
      var j :| 0 <= j < |out| && IDs(out)[j] == refs[k].beadID;
      assert out'[j] == out[j];
      assert IDs(out')[j] == refs[k].beadID;
    }
  }

  /** Covering one more reference of the list. */
  lemma CoversStep(beads: map<string, BeadHistory>, refs: seq<BeadReference>, k: nat, b: Bucket, out: seq<BeadReference>)
    requires k < |refs| && Covers(beads, refs[..k], b, out)
    requires BucketOf(beads, refs[k]) == b ==> refs[k].beadID in IDs(out)
    ensures Covers(beads, refs[..k + 1], b, out)
  {
    var s := refs[..k + 1];
    forall j | 0 <= j < |s| && BucketOf(beads, s[j]) == b ensures s[j].beadID in IDs(out) {
      if j < k {
        assert refs[..k][j] == s[j];
      }
    }
  }

  lemma PrefixTrans(a: seq<BeadReference>, b: seq<BeadReference>, c: seq<BeadReference>)
    requires a <= b && b <= c
    ensures a <= c
  {
    assert c[..|a|] == b[..|a|];
  }

  /** Adds a reference to a bucket unless its bead is already there. */
  method AddUnique(ghost index: map<string, seq<BeadReference>>, ghost beads: map<string, BeadHistory>, ghost dir: string,
                   ghost b: Bucket, out: seq<BeadReference>, ref: BeadReference) returns (out': seq<BeadReference>)
    requires DirBucket(index, beads, dir, b, out) && FromDir(index, beads, dir, b, ref)
    ensures DirBucket(index, beads, dir, b, out') && ref.beadID in IDs(out') && out <= out'
    ensures out' == if ref.beadID in IDs(out) then out else out + [ref]
  {
    var present := ContainsBeadRef(out, ref.beadID);
    out' := out;
    if !present {
      out' := out + [ref];
      assert IDs(out') == IDs(out) + [ref.beadID];
      forall j | 0 <= j < |out'| ensures FromDir(index, beads, dir, b, out'[j]) {
        if j < |out| {
          assert out'[j] == out[j];
        }
      }
    }
  }

  /** The references of one file under the directory, added to the two buckets without repeating a bead. */
  method DirFile(index: map<string, seq<BeadReference>>, beads: map<string, BeadHistory>, dir: string, f: string,
                 open: seq<BeadReference>, closed: seq<BeadReference>)
    returns (open': seq<BeadReference>, closed': seq<BeadReference>)
    requires f in index && UnderDir(f, dir)
    requires DirBucket(index, beads, dir, OpenBucket, open) && DirBucket(index, beads, dir, ClosedBucket, closed)
    ensures DirBucket(index, beads, dir, OpenBucket, open') && DirBucket(index, beads, dir, ClosedBucket, closed')
    ensures open <= open' && closed <= closed'
    ensures Covers(beads, index[f], OpenBucket, open') && Covers(beads, index[f], ClosedBucket, closed')
  {
    var refs := index[f];
    open', closed' := open, closed;
    for k := 0 to |refs|
      invariant DirBucket(index, beads, dir, OpenBucket, open') && DirBucket(index, beads, dir, ClosedBucket, closed')
      invariant open <= open' && closed <= closed'
      invariant Covers(beads, refs[..k], OpenBucket, open') && Covers(beads, refs[..k], ClosedBucket, closed')
    {
      var ref := Refresh(beads, refs[k]);
      var bucket := ClassifyBeadStatus(ref.status);
      ghost var o, c := open', closed';
      if bucket == ClosedBucket {
        assert FromDir(index, beads, dir, bucket, ref);
        closed' := AddUnique(index, beads, dir, ClosedBucket, closed', ref);
      } else if bucket == OpenBucket {
        assert FromDir(index, beads, dir, bucket, ref);
        open' := AddUnique(index, beads, dir, OpenBucket, open', ref);
      }
      PrefixTrans(open, o, open');
      PrefixTrans(closed, c, closed');
      CoversGrow(beads, refs[..k], OpenBucket, o, open');
      CoversGrow(beads, refs[..k], ClosedBucket, c, closed');
      CoversStep(beads, refs, k, OpenBucket, open');
      CoversStep(beads, refs, k, ClosedBucket, closed');
    }
    assert refs[..|refs|] == refs;
  }

  /** The directory branch over the indexed files in the (unspecified) order `files`. */
  method LookupDir(index: map<string, seq<BeadReference>>, beads: map<string, BeadHistory>, dir: string, files: seq<string>)
    returns (open: seq<BeadReference>, closed: seq<BeadReference>)
    requires forall i :: 0 <= i < |files| ==> files[i] in index
    ensures DirBucket(index, beads, dir, OpenBucket, open) && DirBucket(index, beads, dir, ClosedBucket, closed)
    ensures forall i :: 0 <= i < |files| && UnderDir(files[i], dir) ==>
              Covers(beads, index[files[i]], OpenBucket, open) && Covers(beads, index[files[i]], ClosedBucket, closed)
  {
    open, closed := [], [];
    for i := 0 to |files|
      invariant DirBucket(index, beads, dir, OpenBucket, open) && DirBucket(index, beads, dir, ClosedBucket, closed)
      invariant forall i' :: 0 <= i' < i && UnderDir(files[i'], dir) ==>
                  Covers(beads, index[files[i']], OpenBucket, open) && Covers(beads, index[files[i']], ClosedBucket, closed)
    {
      if UnderDir(files[i], dir) {
        ghost var o, c := open, closed;
        open, closed := DirFile(index, beads, dir, files[i], open, closed);
        forall i' | 0 <= i' < i && UnderDir(files[i'], dir)
          ensures Covers(beads, index[files[i']], OpenBucket, open) && Covers(beads, index[files[i']], ClosedBucket, closed)
        {
          CoversGrow(beads, index[files[i']], OpenBucket, o, open);
          CoversGrow(beads, index[files[i']], ClosedBucket, c, closed);
        }
      }
    }
  }

  /** A list whose bead IDs are distinct holds no reference twice. */
  lemma DistinctRefs(out: seq<BeadReference>)
    requires NoDuplicates(IDs(out))
    ensures NoDuplicates(out)
  {
    forall i, j | 0 <= i < j < |out| ensures out[i] != out[j] {
      assert IDs(out)[i] != IDs(out)[j];
    }
  }

  /** A permutation of references with distinct bead IDs has distinct bead IDs. */
  lemma DistinctIDsPermutation(out: seq<BeadReference>, s: seq<BeadReference>)
    requires NoDuplicates(IDs(out)) && multiset(out) == multiset(s)
    ensures NoDuplicates(IDs(s))
  {
    DistinctRefs(out);
    NoDuplicatesPermutation(out, s);
    forall i, j | 0 <= i < j < |s| ensures IDs(s)[i] != IDs(s)[j] {
      assert s[i] in multiset(out) && s[j] in multiset(out);
      var p :| 0 <= p < |out| && out[p] == s[i];
      var q :| 0 <= q < |out| && out[q] == s[j];
      assert IDs(out)[p] == s[i].beadID && IDs(out)[q] == s[j].beadID;
    }
  }

  /** References with the same elements carry the same bead IDs. */
  lemma SameElementsIDs(out: seq<BeadReference>, s: seq<BeadReference>)
    requires forall r :: r in out ==> r in s
    ensures forall id :: id in IDs(out) ==> id in IDs(s)
  {
    forall id | id in IDs(out) ensures id in IDs(s) {
      var p :| 0 <= p < |out| && IDs(out)[p] == id;
      assert out[p] in s;
      var q :| 0 <= q < |s| && s[q] == out[p];
      assert IDs(s)[q] == id;
    }
  }

  /** Sorting a bucket keeps it sound, free of repeats and covering. */
  lemma SortedBucket(index: map<string, seq<BeadReference>>, beads: map<string, BeadHistory>, dir: string, b: Bucket,
                     out: seq<BeadReference>)
    requires DirBucket(index, beads, dir, b, out)
    ensures DirBucket(index, beads, dir, b, SortBeadRefs(out))
    ensures forall id :: id in IDs(out) ==> id in IDs(SortBeadRefs(out))
  {
    var s := SortBeadRefs(out);
    SortBeadRefsSorted(out);
    forall j | 0 <= j < |s| ensures FromDir(index, beads, dir, b, s[j]) {
      assert s[j] in out;
    }
    DistinctIDsPermutation(out, s);
    SameElementsIDs(out, s);
  }

  /**
   * The answer of `LookupByFile` for `path`: an exact match of the normalised path wins;
   * otherwise every indexed file under it as a directory contributes, each bead at most once
   * per bucket. Tombstoned beads are left out; each bucket is sorted.
   */
  ghost predicate LookupOk(fl: FileLookup, path: string, res: LookupResult)
  {
    var np := NormalizePath(path);
    res.filePath == path && res.totalBeads == |res.openBeads| + |res.closedBeads| &&
    (np in fl.index.fileToBeads ==>
       res.openBeads == SortBeadRefs(Bucketed(fl.beads, fl.index.fileToBeads[np], OpenBucket)) &&
       res.closedBeads == SortBeadRefs(Bucketed(fl.beads, fl.index.fileToBeads[np], ClosedBucket))) &&
    (np !in fl.index.fileToBeads ==>
       DirBucket(fl.index.fileToBeads, fl.beads, np, OpenBucket, res.openBeads) &&
       DirBucket(fl.index.fileToBeads, fl.beads, np, ClosedBucket, res.closedBeads) &&
       (forall f :: f in fl.index.fileToBeads && UnderDir(f, np) ==>
          Covers(fl.beads, fl.index.fileToBeads[f], OpenBucket, res.openBeads) &&
          Covers(fl.beads, fl.index.fileToBeads[f], ClosedBucket, res.closedBeads))) &&
    SortedBy(res.openBeads, RefLe()) && SortedBy(res.closedBeads, RefLe())
  }

  /** `LookupByFile`: the answer `LookupOk` describes. */
  method LookupByFile(fl: FileLookup, path: string) returns (res: LookupResult)
    ensures LookupOk(fl, path, res)
  {
    var np := NormalizePath(path);
    if np in fl.index.fileToBeads {
      res := LookupExact(fl.index.fileToBeads[np], fl.beads, path);
      SortBeadRefsSorted(Bucketed(fl.beads, fl.index.fileToBeads[np], OpenBucket));
      SortBeadRefsSorted(Bucketed(fl.beads, fl.index.fileToBeads[np], ClosedBucket));
      return;
    }
    var files := MapKeys(fl.index.fileToBeads);
    var open, closed := LookupDir(fl.index.fileToBeads, fl.beads, np, files);
    SortedBucket(fl.index.fileToBeads, fl.beads, np, OpenBucket, open);
    SortedBucket(fl.index.fileToBeads, fl.beads, np, ClosedBucket, closed);
    SortBeadRefsSorted(open);
    SortBeadRefsSorted(closed);
    var sortedOpen, sortedClosed := SortBeadRefs(open), SortBeadRefs(closed);
    forall f | f in fl.index.fileToBeads && UnderDir(f, np)
      ensures Covers(fl.beads, fl.index.fileToBeads[f], OpenBucket, sortedOpen) &&
              Covers(fl.beads, fl.index.fileToBeads[f], ClosedBucket, sortedClosed)
    {
      var i :| 0 <= i < |files| && files[i] == f;
    }
    res := LookupResult(path, sortedOpen, sortedClosed, |sortedOpen| + |sortedClosed|);
  }

  // ---------------------------------------------------------------- GetAllFiles

  /** `GetAllFiles`: every indexed path once, in ascending order. */
  method GetAllFiles(fl: FileLookup) returns (files: seq<string>)
    ensures SortedStrings(files) && NoDuplicates(files)
    ensures forall f :: f in files <==> f in fl.index.fileToBeads
  {
    var keys := MapKeys(fl.index.fileToBeads);
    files := SortStrings(keys);
    SortStringsSorted(keys);
    NoDuplicatesPermutation(keys, files);
  }

  // ---------------------------------------------------------------- GetHotspots

  datatype FileHotspot = FileHotspot(filePath: string, totalBeads: nat, openBeads: nat, closedBeads: nat)

  /** A bead's current status: the one in the histories when the bead is known, else the indexed one. */
  function CurrentStatus(beads: map<string, BeadHistory>, r: BeadReference): string
  {
    Refresh(beads, r).status
  }

  /** How many of the references are open in the hot-spot sense: current status other than exactly "closed". */
  function CountOpen(beads: map<string, BeadHistory>, refs: seq<BeadReference>): (n: nat)
    ensures n <= |refs|
  {
    if refs == [] then 0
    else CountOpen(beads, refs[..|refs| - 1]) + (if CurrentStatus(beads, refs[|refs| - 1]) != "closed" then 1 else 0)
  }

  /** No reference open means every current status is "closed", and all of them open means none is. */
  lemma {:induction false} CountOpenExtremes(beads: map<string, BeadHistory>, refs: seq<BeadReference>)
    ensures CountOpen(beads, refs) == 0 <==> forall k :: 0 <= k < |refs| ==> CurrentStatus(beads, refs[k]) == "closed"
    ensures CountOpen(beads, refs) == |refs| <==> forall k :: 0 <= k < |refs| ==> CurrentStatus(beads, refs[k]) != "closed"
  {
    if refs != [] {
      var p := refs[..|refs| - 1];
      CountOpenExtremes(beads, p);
      assert forall k :: 0 <= k < |p| ==> p[k] == refs[k];
    }
  }

  /** Counts the open references of one file. */
  method CountOpenRefs(beads: map<string, BeadHistory>, refs: seq<BeadReference>) returns (n: nat)
    ensures n == CountOpen(beads, refs)
  {
    n := 0;
    for k := 0 to |refs|
      invariant n == CountOpen(beads, refs[..k])
    {
      assert refs[..k + 1][..k] == refs[..k];
      var status := refs[k].status;
      if refs[k].beadID in beads {
        status := beads[refs[k].beadID].status;
      }
      if status != "closed" {
        n := n + 1;
      }
    }
    assert refs[..|refs|] == refs;
  }

  /** What the hot-spot list says about file `h.filePath`. */
  ghost predicate IsHotspot(m: map<string, seq<BeadReference>>, beads: map<string, BeadHistory>, h: FileHotspot)
  {
    h.filePath in m && h.totalBeads == |m[h.filePath]| &&
    h.openBeads == CountOpen(beads, m[h.filePath]) && h.openBeads + h.closedBeads == h.totalBeads
  }

  predicate Listed(hs: seq<FileHotspot>, f: string)
  {
    exists i :: 0 <= i < |hs| && hs[i].filePath == f
  }

  datatype FileCount = FileCount(path: string, count: nat, refs: seq<BeadReference>)

  /** An entry is the file's own count and references: the path determines it. */
  ghost predicate Entry(m: map<string, seq<BeadReference>>, e: FileCount)
  {
    e.path in m && e.count == |m[e.path]| && e.refs == m[e.path]
  }

  function ByCount(): (FileCount, FileCount) -> bool
  {
    (a: FileCount, b: FileCount) => a.count >= b.count
  }

  lemma ByCountTotal()
    ensures TotalPreorder(ByCount())
  {
  }

  /** One entry per indexed file. */
  method CollectCounts(m: map<string, seq<BeadReference>>) returns (counts: seq<FileCount>)
    ensures |counts| == |m|
    ensures forall i :: 0 <= i < |counts| ==> Entry(m, counts[i])
    ensures forall f :: f in m ==> exists i :: 0 <= i < |counts| && counts[i].path == f
    ensures NoDuplicates(counts)
  {
    var paths := MapKeys(m);
    NoDuplicatesCard(paths, m.Keys);
    counts := [];
    for i := 0 to |paths|
      invariant |counts| == i
      invariant forall j :: 0 <= j < i ==> counts[j] == FileCount(paths[j], |m[paths[j]]|, m[paths[j]])
    {
      counts := counts + [FileCount(paths[i], |m[paths[i]]|, m[paths[i]])];
    }
    forall f | f in m ensures exists i :: 0 <= i < |counts| && counts[i].path == f {
      var i :| 0 <= i < |paths| && paths[i] == f;
      assert counts[i].path == f;
    }
    forall i, j | 0 <= i < j < |counts| ensures counts[i] != counts[j] {
      assert paths[i] != paths[j];
    }
  }

  /** `sort.Slice` by descending count: one entry per file, each file still present. */
  method SortCounts(m: map<string, seq<BeadReference>>, counts: seq<FileCount>) returns (s: seq<FileCount>)
    requires forall i :: 0 <= i < |counts| ==> Entry(m, counts[i])
    requires forall f :: f in m ==> exists i :: 0 <= i < |counts| && counts[i].path == f
    requires NoDuplicates(counts)
    ensures |s| == |counts|
    ensures forall i :: 0 <= i < |s| ==> Entry(m, s[i])
    ensures forall i, j :: 0 <= i < j < |s| ==> s[i].path != s[j].path && s[i].count >= s[j].count
    ensures forall f :: f in m ==> exists q :: 0 <= q < |s| && s[q].path == f && s[q].count == |m[f]|
  {
    s := Sort(counts, ByCount());
    ByCountTotal();
    SortSorted(counts, ByCount());
    NoDuplicatesPermutation(counts, s);
    forall i | 0 <= i < |s| ensures Entry(m, s[i]) {
      assert s[i] in counts;
    }
    forall f | f in m ensures exists q :: 0 <= q < |s| && s[q].path == f && s[q].count == |m[f]| {
      var k :| 0 <= k < |counts| && counts[k].path == f;
      assert Entry(m, counts[k]) && counts[k] in s;
    }
  }

  /** The hot-spot entry of one file: its bead count split by current status. */
  method Hotspot(m: map<string, seq<BeadReference>>, beads: map<string, BeadHistory>, c: FileCount) returns (h: FileHotspot)
    requires Entry(m, c)
    ensures IsHotspot(m, beads, h) && h.filePath == c.path && h.totalBeads == c.count
  {
    var open := CountOpenRefs(beads, c.refs);
    h := FileHotspot(c.path, c.count, open, c.count - open);
  }

  /**
   * `GetHotspots`: the files touched by the most beads, most first, at most `limit` of them
   * (all when `limit` is not positive or exceeds the number of files). Equal counts come in no
   * particular order.
   */
  method GetHotspots(fl: FileLookup, limit: int) returns (hs: seq<FileHotspot>)
    ensures |hs| == if limit <= 0 || limit > |fl.index.fileToBeads| then |fl.index.fileToBeads| else limit
    ensures forall i :: 0 <= i < |hs| ==> IsHotspot(fl.index.fileToBeads, fl.beads, hs[i])
    ensures forall i, j :: 0 <= i < j < |hs| ==> hs[i].totalBeads >= hs[j].totalBeads
    ensures forall i, j :: 0 <= i < j < |hs| ==> hs[i].filePath != hs[j].filePath
    ensures forall f, i :: f in fl.index.fileToBeads && 0 <= i < |hs| && |fl.index.fileToBeads[f]| > hs[i].totalBeads ==>
              Listed(hs, f)
  {
    var m := fl.index.fileToBeads;
    var counts := CollectCounts(m);
    var sorted := SortCounts(m, counts);
    var n := if limit <= 0 || limit > |counts| then |counts| else limit;
    hs := TakeHotspots(m, fl.beads, sorted, n);
    TopN(m, sorted, hs);
    forall i, j | 0 <= i < j < |hs| ensures hs[i].filePath != hs[j].filePath && hs[i].totalBeads >= hs[j].totalBeads {
      assert sorted[i].path != sorted[j].path && sorted[i].count >= sorted[j].count;
    }
  }

  /** The hot-spot entries of the first `n` sorted files. */
  method TakeHotspots(m: map<string, seq<BeadReference>>, beads: map<string, BeadHistory>, sorted: seq<FileCount>, n: nat)
    returns (hs: seq<FileHotspot>)
    requires n <= |sorted| && forall i :: 0 <= i < |sorted| ==> Entry(m, sorted[i])
    ensures |hs| == n
    ensures forall j :: 0 <= j < n ==> hs[j].filePath == sorted[j].path && hs[j].totalBeads == sorted[j].count
    ensures forall j :: 0 <= j < n ==> IsHotspot(m, beads, hs[j])
  {
    hs := [];
    for i := 0 to n
      invariant |hs| == i
      invariant forall j :: 0 <= j < i ==> hs[j].filePath == sorted[j].path && hs[j].totalBeads == sorted[j].count
      invariant forall j :: 0 <= j < i ==> IsHotspot(m, beads, hs[j])
    {
      var h := Hotspot(m, beads, sorted[i]);
      hs := hs + [h];
    }
  }

  /** A file left out of a prefix of the entries sorted by count counts no more than any listed file. */
  lemma TopN(m: map<string, seq<BeadReference>>, sorted: seq<FileCount>, hs: seq<FileHotspot>)
    requires |hs| <= |sorted|
    requires forall i, j :: 0 <= i < j < |sorted| ==> sorted[i].count >= sorted[j].count
    requires forall f :: f in m ==> exists q :: 0 <= q < |sorted| && sorted[q].path == f && sorted[q].count == |m[f]|
    requires forall j :: 0 <= j < |hs| ==> hs[j].filePath == sorted[j].path && hs[j].totalBeads == sorted[j].count
    ensures forall f, i :: f in m && 0 <= i < |hs| && |m[f]| > hs[i].totalBeads ==> Listed(hs, f)
  {
    forall f, i | f in m && 0 <= i < |hs| && |m[f]| > hs[i].totalBeads ensures Listed(hs, f) {
      var q :| 0 <= q < |sorted| && sorted[q].path == f && sorted[q].count == |m[f]|;
      assert q < i;
      assert hs[q].filePath == f;
    }
  }
}
