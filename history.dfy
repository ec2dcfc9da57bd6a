/**
 * The bead-history report the correlation package works on, and the two normalisations it
 * applies everywhere: file paths (separators, a leading "./", a trailing "/") and bead
 * statuses (trimmed, lower-cased, then bucketed).
 *
 * Timestamps are integers (nanoseconds); "after" is `>`.
 */
module History {
  import opened Wrappers

  datatype FileChange = FileChange(path: string, insertions: int, deletions: int)

  datatype CorrelatedCommit = CorrelatedCommit(sha: string, shortSHA: string, timestamp: int, files: seq<FileChange>)

  datatype BeadHistory = BeadHistory(title: string, status: string, commits: seq<CorrelatedCommit>)

  /** Bead histories by bead ID, and for each commit SHA the beads it touches. */
  datatype HistoryReport = HistoryReport(histories: map<string, BeadHistory>, commitIndex: map<string, seq<string>>)

  // ---------------------------------------------------------------- paths

  /** Every backslash replaced by a forward slash. */
  function ForwardSlashes(s: string): (r: string)
    ensures |r| == |s|
    ensures '\\' !in r
  {
    if s == [] then [] else ForwardSlashes(s[..|s| - 1]) + [if s[|s| - 1] == '\\' then '/' else s[|s| - 1]]
  }

  /** Position by position, a backslash becomes a forward slash and any other character stays. */
  lemma {:induction false} ForwardSlashesAt(s: string, i: nat)
    requires i < |s|
    ensures ForwardSlashes(s)[i] == (if s[i] == '\\' then '/' else s[i])
  {
    var p := s[..|s| - 1];
    if i < |p| {
      ForwardSlashesAt(p, i);
      assert s[i] == p[i];
    }
  }

  /** A path as the index stores it: forward slashes, one leading "./" and one trailing "/" removed. */
  function NormalizePath(path: string): (r: string)
    ensures '\\' !in r
  {
    var s := ForwardSlashes(path);
    var t := TrimPrefix(s, "./");
    TrimKeepsOut(s, t, "./", '\\');
    var r := TrimSuffix(t, "/");
    TrimKeepsOut(t, r, "/", '\\');
    r
  }

  /** Cutting a prefix or a suffix brings in no new character. */
  lemma TrimKeepsOut(s: string, r: string, p: string, c: char)
    requires r == TrimPrefix(s, p) || r == TrimSuffix(s, p)
    requires c !in s
    ensures c !in r
  {
    if r == TrimPrefix(s, p) && HasPrefix(s, p) {
      assert s == p + r;
    } else if r == TrimSuffix(s, p) && HasSuffix(s, p) {
      assert s == r + p;
    }
  }

  /** The normalised path is what is left of the slash-converted path once an optional "./" and an optional "/" are cut off. */
  lemma NormalizeShape(path: string)
    ensures exists pre: string, suf: string :: (pre == "" || pre == "./") && (suf == "" || suf == "/") &&
                                               ForwardSlashes(path) == pre + NormalizePath(path) + suf
  {
    var s := ForwardSlashes(path);
    var t := TrimPrefix(s, "./");
    var r := NormalizePath(path);
    var pre: string := if HasPrefix(s, "./") then "./" else "";
    var suf: string := if HasSuffix(t, "/") then "/" else "";
    assert s == pre + t;
    assert t == r + suf;
    assert s == pre + r + suf;
  }

  lemma NormalizeExamples()
    ensures NormalizePath("./") == ""
    ensures NormalizePath("a/") == "a"
    ensures NormalizePath(".\\a\\b") == "a/b"
  {
    NormalizeBare("./", "./", "");
    NormalizeBare("a/", "a/", "a");
    NormalizeBackslashes();
  }

  lemma NormalizeBackslashes()
    ensures NormalizePath(".\\a\\b") == "a/b"
  {
    var p := ".\\a\\b";
    forall i | 0 <= i < |p| ensures ForwardSlashes(p)[i] == "./a/b"[i] {
      ForwardSlashesAt(p, i);
    }
    assert TrimPrefix("./a/b", "./") == "a/b";
    NormalizeBare(p, "./a/b", "a/b");
  }

  /** Normalising a path whose slash-converted form is known. */
  lemma NormalizeBare(path: string, s: string, r: string)
    requires |ForwardSlashes(path)| == |s| && forall i :: 0 <= i < |s| ==> ForwardSlashes(path)[i] == s[i]
    requires r == TrimSuffix(TrimPrefix(s, "./"), "/")
    ensures NormalizePath(path) == r
  {
    assert ForwardSlashes(path) == s;
  }

  // ---------------------------------------------------------------- statuses

  /** A status compared case-insensitively and without surrounding white space. */
  function NormalizeStatus(status: string): (r: string)
    ensures forall i :: 0 <= i < |r| ==> !('A' <= r[i] <= 'Z')
  {
    Lower(TrimSpace(status))
  }

  datatype Bucket = Skip | ClosedBucket | OpenBucket

  /** Tombstones are skipped, "closed" goes to the closed bucket, anything else is open. */
  function ClassifyBeadStatus(status: string): (b: Bucket)
    ensures b == Skip <==> NormalizeStatus(status) == "tombstone"
    ensures b == ClosedBucket <==> NormalizeStatus(status) == "closed"
  {
    var n := NormalizeStatus(status);
    if n == "tombstone" then Skip
    else if n == "closed" then ClosedBucket
    else OpenBucket
  }

  /** One status per bucket: a tombstone, a closed one, and an open one with blanks and capitals. */
  lemma ClassifyExamples()
    ensures ClassifyBeadStatus("tombstone") == Skip
    ensures ClassifyBeadStatus("closed") == ClosedBucket
    ensures ClassifyBeadStatus(" Open ") == OpenBucket
  {
    NormalizeTombstone();
    NormalizeClosed();
    NormalizeOpen();
  }

  lemma NormalizeTombstone()
    ensures NormalizeStatus("tombstone") == "tombstone"
  {
    var t := "tombstone";
    assert t[0] == 't' && t[8] == 'e';
    assert TrimLeft(t) == t;
    assert TrimRight(t) == t;
    assert Lower(t) == t;
  }

  lemma NormalizeClosed()
    ensures NormalizeStatus("closed") == "closed"
  {
    var c := "closed";
    assert c[0] == 'c' && c[5] == 'd';
    assert TrimLeft(c) == c;
    assert TrimRight(c) == c;
    assert Lower(c) == c;
  }

  lemma NormalizeOpen()
    ensures NormalizeStatus(" Open ") == "open"
  {
    var o := " Open ";
    assert IsSpace(o[0]) && o[1..] == "Open ";
    assert !IsSpace("Open "[0]) && TrimLeft("Open ") == "Open ";
    assert TrimLeft(o) == "Open ";
    assert IsSpace("Open "[4]) && "Open "[..4] == "Open";
    assert !IsSpace("Open"[3]) && TrimRight("Open") == "Open";
    assert TrimRight("Open ") == "Open";
    assert Lower("Open") == "open";
  }
}
