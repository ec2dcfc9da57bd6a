/**
 * Workspace discovery: building the list of repositories ("rigs") of a workspace from a beads
 * routes table, and from a list of Dolt database names.
 *
 * Reading the routes file, JSON decoding and `filepath.Clean` are library code: the file's
 * lines are an input, and decoding and path cleaning are function parameters.
 */
module Workspace {
  import opened Wrappers
  import opened Sorting

  datatype RepoConfig = RepoConfig(name: string, path: string, prefix: string, doltDatabase: string)

  datatype WorkspaceConfig = WorkspaceConfig(name: string, repos: seq<RepoConfig>)

  /** One decoded line of the routes table. */
  datatype RouteEntry = RouteEntry(prefix: string, path: string)

  // ---------------------------------------------------------------- rig names

  /** The text before the first '/', or all of it. */
  function FirstComponent(s: string): (r: string)
    ensures |r| <= |s| && r == s[..|r|] && '/' !in r
    ensures |r| < |s| ==> s[|r|] == '/'
  {
    if s == [] || s[0] == '/' then "" else [s[0]] + FirstComponent(s[1..])
  }

  /** `extractRigName`: the first path component, after one leading "./"; nothing for "" and ".". */
  function ExtractRigName(path: string): (name: string)
    ensures var p := TrimPrefix(path, "./");
      (p == "" || p == ".") ==> name == ""
    ensures var p := TrimPrefix(path, "./");
      p != "" && p != "." ==>
        |name| <= |p| && name == p[..|name|] && '/' !in name && (|name| < |p| ==> p[|name|] == '/')
  {
    var p := TrimPrefix(path, "./");
    if p == "" || p == "." then "" else FirstComponent(p)
  }

  /** A path without '/' is its own rig name (unless it is "" or "."), and the first component is taken otherwise. */
  lemma ExtractRigNameExamples()
    ensures ExtractRigName("bv/mayor/rig") == "bv"
    ensures ExtractRigName("./bv/mayor/rig") == "bv"
    ensures ExtractRigName(".") == "" && ExtractRigName("") == ""
    ensures forall p :: '/' !in p && !HasPrefix(p, "./") && p != "" && p != "." ==> ExtractRigName(p) == p
  {
    NestedRigName();
    assert TrimPrefix("./bv/mayor/rig", "./") == "bv/mayor/rig";
    forall p | '/' !in p && !HasPrefix(p, "./") && p != "" && p != "." ensures ExtractRigName(p) == p {
      WholeRigName(p);
    }
  }

  lemma NestedRigName()
    ensures FirstComponent("bv/mayor/rig") == "bv"
  {
    assert "bv/mayor/rig"[1..] == "v/mayor/rig";
    assert "v/mayor/rig"[1..] == "/mayor/rig";
  }

  lemma WholeRigName(p: string)
    requires '/' !in p && !HasPrefix(p, "./") && p != "" && p != "."
    ensures ExtractRigName(p) == p
  {
  }

  // ---------------------------------------------------------------- paths

  predicate IsAbs(path: string)
  {
    HasPrefix(path, "/")
  }

  /** `filepath.Join` of two elements: empty elements are ignored and the result is cleaned. */
  function Join(a: string, b: string, clean: string -> string): string
  {
    if a == "" && b == "" then "" else if a == "" then clean(b) else if b == "" then clean(a) else clean(a + "/" + b)
  }

  /** The repository path of an entry: absolute paths as given, relative ones under the workspace root. */
  function RepoPath(e: RouteEntry, root: string, clean: string -> string): string
  {
    if IsAbs(e.path) then e.path else Join(root, e.path, clean)
  }

  /** The rig name: from the path, or else the prefix without its trailing "-". */
  function RigName(e: RouteEntry): (name: string)
    ensures ExtractRigName(e.path) != "" ==> name == ExtractRigName(e.path)
    ensures ExtractRigName(e.path) == "" && HasSuffix(e.prefix, "-") ==> name + "-" == e.prefix
  {
    var n := ExtractRigName(e.path);
    if n == "" then TrimSuffix(e.prefix, "-") else n
  }

  /** A standard rig prefix: it ends in "-" and has no other "-". */
  predicate Eligible(e: RouteEntry)
  {
    HasSuffix(e.prefix, "-") && CountChar(e.prefix, '-') <= 1
  }

  function MakeRepo(e: RouteEntry, root: string, clean: string -> string): (r: RepoConfig)
    ensures r.name == r.doltDatabase == RigName(e) && r.prefix == e.prefix
  {
    var name := RigName(e);
    RepoConfig(name, RepoPath(e, root, clean), e.prefix, name)
  }

  function Prefixes(repos: seq<RepoConfig>): set<string>
  {
    set r | r in repos :: r.prefix
  }

  function ResolvedPaths(repos: seq<RepoConfig>, clean: string -> string): set<string>
  {
    set r | r in repos :: clean(r.path)
  }

  /**
   * The repositories the filter loop keeps: each eligible entry in turn, unless an earlier kept
   * one has the same prefix or the same cleaned path.
   */
  function Admitted(entries: seq<RouteEntry>, root: string, clean: string -> string): seq<RepoConfig>
  {
    if entries == [] then []
    else
      var prev := Admitted(entries[..|entries| - 1], root, clean);
      var e := entries[|entries| - 1];
      if Eligible(e) && e.prefix !in Prefixes(prev) && clean(RepoPath(e, root, clean)) !in ResolvedPaths(prev, clean)
      then prev + [MakeRepo(e, root, clean)]
      else prev
  }

  /** Every kept repository comes from an eligible entry, named after its rig, with the rig as its database. */
  lemma {:induction false} AdmittedShape(entries: seq<RouteEntry>, root: string, clean: string -> string)
    ensures forall r :: r in Admitted(entries, root, clean) ==>
      exists i :: 0 <= i < |entries| && Eligible(entries[i]) && r == MakeRepo(entries[i], root, clean)
  {
    if entries != [] {
      var init := entries[..|entries| - 1];
      AdmittedShape(init, root, clean);
      forall r | r in Admitted(init, root, clean)
        ensures exists i :: 0 <= i < |entries| && Eligible(entries[i]) && r == MakeRepo(entries[i], root, clean)
      {
        var i :| 0 <= i < |init| && Eligible(init[i]) && r == MakeRepo(init[i], root, clean);
        assert entries[i] == init[i];
      }
    }
  }

  lemma AdmittedStep(prev: seq<RouteEntry>, e: RouteEntry, next: seq<RouteEntry>, root: string, clean: string -> string)
    requires next == prev + [e]
    ensures var rs := Admitted(prev, root, clean);
      Admitted(next, root, clean) ==
        if Eligible(e) && e.prefix !in Prefixes(rs) && clean(RepoPath(e, root, clean)) !in ResolvedPaths(rs, clean)
        then rs + [MakeRepo(e, root, clean)] else rs
  {
    assert next[..|next| - 1] == prev;
  }

  lemma SeenSnoc(rs: seq<RepoConfig>, r: RepoConfig, clean: string -> string)
    ensures Prefixes(rs + [r]) == Prefixes(rs) + {r.prefix}
    ensures ResolvedPaths(rs + [r], clean) == ResolvedPaths(rs, clean) + {clean(r.path)}
  {
    assert forall x :: x in rs + [r] <==> x in rs || x == r;
  }

  /** No two kept repositories share a prefix or a cleaned path. */
  lemma {:induction false} AdmittedDistinct(entries: seq<RouteEntry>, root: string, clean: string -> string)
    ensures var rs := Admitted(entries, root, clean);
      forall i, j :: 0 <= i < j < |rs| ==> rs[i].prefix != rs[j].prefix && clean(rs[i].path) != clean(rs[j].path)
  {
    if entries != [] {
      var init := entries[..|entries| - 1];
      var e := entries[|entries| - 1];
      AdmittedDistinct(init, root, clean);
      AdmittedStep(init, e, entries, root, clean);
      var prev := Admitted(init, root, clean);
      var rs := Admitted(entries, root, clean);
      if rs != prev {
        var r := MakeRepo(e, root, clean);
        assert rs == prev + [r];
        assert r.prefix !in Prefixes(prev) && clean(r.path) !in ResolvedPaths(prev, clean);
        forall i, j | 0 <= i < j < |rs| ensures rs[i].prefix != rs[j].prefix && clean(rs[i].path) != clean(rs[j].path) {
          assert rs[i] == prev[i];
          if j == |rs| - 1 {
            assert rs[j] == r;
            assert prev[i] in prev;
            assert prev[i].prefix in Prefixes(prev);
            assert clean(prev[i].path) in ResolvedPaths(prev, clean);
          } else {
            assert rs[j] == prev[j];
          }
        }
      }
    }
  }

  /**
   * The first entry wins: every eligible entry is kept or an earlier-kept repository already has
   * its prefix or its cleaned path.
   */
  lemma {:induction false} AdmittedCovers(entries: seq<RouteEntry>, root: string, clean: string -> string)
    ensures var rs := Admitted(entries, root, clean);
      forall i :: 0 <= i < |entries| && Eligible(entries[i]) ==> Taken(entries[i], rs, root, clean)
  {
    if entries != [] {
      var init, e := entries[..|entries| - 1], entries[|entries| - 1];
      AdmittedCovers(init, root, clean);
      AdmittedStep(init, e, entries, root, clean);
      var prev := Admitted(init, root, clean);
      var rs := Admitted(entries, root, clean);
      var r := MakeRepo(e, root, clean);
      forall i | 0 <= i < |entries| && Eligible(entries[i]) ensures Taken(entries[i], rs, root, clean) {
        if i < |init| {
          assert entries[i] == init[i];
          if rs != prev {
            TakenGrows(entries[i], prev, r, root, clean);
          }
        } else if rs != prev {
          SeenSnoc(prev, r, clean);
        }
      }
    }
  }

  /** Entry `e` is already represented among `rs`: by its prefix or by its cleaned path. */
  predicate Taken(e: RouteEntry, rs: seq<RepoConfig>, root: string, clean: string -> string)
  {
    e.prefix in Prefixes(rs) || clean(RepoPath(e, root, clean)) in ResolvedPaths(rs, clean)
  }

  lemma TakenGrows(e: RouteEntry, rs: seq<RepoConfig>, r: RepoConfig, root: string, clean: string -> string)
    requires Taken(e, rs, root, clean)
    ensures Taken(e, rs + [r], root, clean)
  {
    SeenSnoc(rs, r, clean);
  }

  // ---------------------------------------------------------------- loading the routes table

  /** A line's entry: blank lines and lines that do not decode give none. */
  function LineEntry(decode: string -> Option<RouteEntry>, line: string): (es: seq<RouteEntry>)
    ensures |es| <= 1
    ensures es != [] <==> TrimSpace(line) != "" && decode(TrimSpace(line)).Some?
  {
    var t := TrimSpace(line);
    if t == "" then [] else match decode(t) case None => [] case Some(e) => [e]
  }

  function LineEntryOf(decode: string -> Option<RouteEntry>): string -> seq<RouteEntry>
  {
    line => LineEntry(decode, line)
  }

  /** The scanning loop: the decoded entries of the non-blank lines, in file order. */
  method ReadEntries(lines: seq<string>, decode: string -> Option<RouteEntry>) returns (entries: seq<RouteEntry>)
    ensures entries == FlatMap(lines, LineEntryOf(decode))
  {
    entries := [];
    for i := 0 to |lines|
      invariant entries == FlatMap(lines[..i], LineEntryOf(decode))
    {
      FlatMapStep(lines[..i], lines[i], lines[..i + 1], LineEntryOf(decode));
      var line := TrimSpace(lines[i]);
      if line == "" {
        continue;
      }
      var entry := decode(line);
      if entry.None? {
        continue;
      }
      entries := entries + [entry.value];
    }
    assert lines[..|lines|] == lines;
  }

  /** The filter loop, with the prefixes and cleaned paths seen so far. */
  method FilterEntries(entries: seq<RouteEntry>, root: string, clean: string -> string) returns (repos: seq<RepoConfig>)
    ensures repos == Admitted(entries, root, clean)
  {
    var seenPrefix: set<string> := {};
    var seenPath: set<string> := {};
    repos := [];
    for i := 0 to |entries|
      invariant repos == Admitted(entries[..i], root, clean)
      invariant seenPrefix == Prefixes(repos) && seenPath == ResolvedPaths(repos, clean)
    {
      AdmittedStep(entries[..i], entries[i], entries[..i + 1], root, clean);
      var entry := entries[i];
      if !HasSuffix(entry.prefix, "-") {
        continue;
      }
      if CountChar(entry.prefix, '-') > 1 {
        continue;
      }
      var repoPath := entry.path;
      if !IsAbs(repoPath) {
        repoPath := Join(root, repoPath, clean);
      }
      var rigName := ExtractRigName(entry.path);
      if rigName == "" {
        rigName := TrimSuffix(entry.prefix, "-");
      }
      if entry.prefix in seenPrefix {
        continue;
      }
      var resolvedPath := clean(repoPath);
      if resolvedPath in seenPath {
        continue;
      }
      seenPrefix := seenPrefix + {entry.prefix};
      seenPath := seenPath + {resolvedPath};
      var repo := RepoConfig(rigName, repoPath, entry.prefix, rigName);
      assert repo == MakeRepo(entry, root, clean);
      SeenSnoc(repos, repo, clean);
      repos := repos + [repo];
    }
    assert entries[..|entries|] == entries;
  }

  function NameLe(): (RepoConfig, RepoConfig) -> bool
  {
    (a: RepoConfig, b: RepoConfig) => StrLessEq(a.name, b.name)
  }

  lemma NameLeTotal()
    ensures TotalPreorder(NameLe())
  {
    forall a: RepoConfig, b: RepoConfig ensures NameLe()(a, b) || NameLe()(b, a) {
      StrLessTotal(a.name, b.name);
    }
    forall a: RepoConfig, b: RepoConfig, c: RepoConfig | NameLe()(a, b) && NameLe()(b, c) ensures NameLe()(a, c) {
      if a.name != b.name && b.name != c.name {
        StrLessTransitive(a.name, b.name, c.name);
      }
    }
  }

  /**
   * `LoadConfigFromRoutes` after the file has been read: the kept repositories sorted by name
   * (Go's sort is not stable, so only the order of names is promised), in a config named "gas-town".
   */
  method LoadConfigFromRoutes(lines: seq<string>, decode: string -> Option<RouteEntry>, root: string,
                              clean: string -> string)
    returns (config: WorkspaceConfig)
    ensures config.name == "gas-town"
    ensures multiset(config.repos) == multiset(Admitted(FlatMap(lines, LineEntryOf(decode)), root, clean))
    ensures SortedBy(config.repos, NameLe())
  {
    var entries := ReadEntries(lines, decode);
    var repos := FilterEntries(entries, root, clean);
    NameLeTotal();
    SortSorted(repos, NameLe());
    repos := Sort(repos, NameLe());
    config := WorkspaceConfig("gas-town", repos);
  }

  // ---------------------------------------------------------------- Dolt databases

  /** One synthetic repository per database. */
  function DatabaseRepo(db: string): RepoConfig
  {
    RepoConfig(db, db, db + "-", db)
  }

  /** `ConfigFromDatabases`: one repository per database, in input order, in a config named "dolt-auto". */
  method ConfigFromDatabases(databases: seq<string>) returns (config: WorkspaceConfig)
    ensures config.name == "dolt-auto" && |config.repos| == |databases|
    ensures forall i :: 0 <= i < |databases| ==>
      var r := config.repos[i];
      r.name == r.path == r.doltDatabase == databases[i] && r.prefix == databases[i] + "-"
  {
    var repos := new RepoConfig[|databases|];
    for i := 0 to |databases|
      invariant forall j :: 0 <= j < i ==> repos[j] == DatabaseRepo(databases[j])
    {
      var db := databases[i];
      repos[i] := RepoConfig(db, db, db + "-", db);
    }
    config := WorkspaceConfig("dolt-auto", repos[..]);
  }

  /**
   * A database name without '-' gives a standard rig prefix, and a routes entry with that prefix
   * and no usable path is named after the database again.
   */
  lemma DatabasePrefixRoundTrip(db: string)
    requires '-' !in db
    ensures Eligible(RouteEntry(db + "-", ""))
    ensures RigName(RouteEntry(db + "-", "")) == db
  {
    CountCharAppend(db, '-');
    assert (db + "-")[|db + "-"| - 1..] == "-";
  }

  lemma {:induction false} CountCharAppend(s: string, c: char)
    ensures CountChar(s + [c], c) == CountChar(s, c) + 1
  {
    if s != [] {
      assert (s + [c])[1..] == s[1..] + [c];
      CountCharAppend(s[1..], c);
    }
  }
}
