/**
 * The export hook executor: runs the configured pre-export and post-export hooks in order,
 * records one result per hook run, and decides when a failure aborts the export. Running
 * a hook's process is an oracle `run`; building its environment is modelled, with the
 * `${VAR}` expansion itself an oracle `expand` over the environment built so far.
 */
module HookExecutor {
  import opened Wrappers
  import opened Sorting
  import opened RelatedText

  datatype HookPhase = PreExport | PostExport

  /** A configured hook; its timeout belongs to the process runner and is not modelled. */
  datatype Hook = Hook(name: string, command: string, onError: string, env: map<string, string>)

  datatype HooksConfig = HooksConfig(preExport: seq<Hook>, postExport: seq<Hook>)

  /** What running a hook's process reports. */
  datatype Outcome = Outcome(success: bool, stdout: string, stderr: string, error: string)

  datatype HookResult = HookResult(hook: Hook, phase: HookPhase, success: bool, stdout: string, stderr: string, error: string)

  /** The error returned when a hook with `on_error: fail` fails. */
  datatype HookError = HookFailed(phase: HookPhase, name: string, cause: string)

  function Execute(hook: Hook, phase: HookPhase, run: (Hook, HookPhase) -> Outcome): HookResult
  {
    var o := run(hook, phase);
    HookResult(hook, phase, o.success, o.stdout, o.stderr, o.error)
  }

  /** A failure that aborts: the hook failed and is configured to fail the export. */
  predicate Fatal(r: HookResult)
  {
    !r.success && r.hook.onError == "fail"
  }

  function FailureOf(r: HookResult): HookError
  {
    HookFailed(r.phase, r.hook.name, r.error)
  }

  /** Running every hook of the list, in order. */
  function RunAll(hooks: seq<Hook>, phase: HookPhase, run: (Hook, HookPhase) -> Outcome): (rs: seq<HookResult>)
    ensures |rs| == |hooks|
    ensures forall i :: 0 <= i < |hooks| ==> rs[i] == Execute(hooks[i], phase, run)
  {
    if hooks == [] then []
    else RunAll(hooks[..|hooks| - 1], phase, run) + [Execute(hooks[|hooks| - 1], phase, run)]
  }

  /** Pre-export: run hooks in order and stop at the first fatal failure, reporting it. */
  function PreExportRun(hooks: seq<Hook>, run: (Hook, HookPhase) -> Outcome): (seq<HookResult>, Option<HookError>)
  {
    if hooks == [] then ([], None)
    else
      var r := Execute(hooks[0], PreExport, run);
      if Fatal(r) then ([r], Some(FailureOf(r)))
      else
        var rest := PreExportRun(hooks[1..], run);
        ([r] + rest.0, rest.1)
  }

  /**
   * Pre-export runs a prefix of the hooks: all of them when none fails fatally, otherwise
   * up to and including the first fatal failure, whose error is the one returned.
   */
  lemma PreExportStopsAtFirstFailure(hooks: seq<Hook>, run: (Hook, HookPhase) -> Outcome)
    ensures var rs := PreExportRun(hooks, run).0;
      |rs| <= |hooks| && rs == RunAll(hooks[..|rs|], PreExport, run)
    ensures var rs, err := PreExportRun(hooks, run).0, PreExportRun(hooks, run).1;
      (forall i :: 0 <= i < |rs| - 1 ==> !Fatal(rs[i])) &&
      (err.Some? <==> |rs| > 0 && Fatal(rs[|rs| - 1])) &&
      (err.None? ==> |rs| == |hooks|) &&
      (err.Some? ==> err.value == FailureOf(rs[|rs| - 1]))
  {
    PreExportPrefix(hooks, run);
    PreExportStops(hooks, run);
  }

  /** The results of a pre-export run are those of running a prefix of the hooks. */
  lemma PreExportPrefix(hooks: seq<Hook>, run: (Hook, HookPhase) -> Outcome)
    ensures var rs := PreExportRun(hooks, run).0;
      |rs| <= |hooks| && rs == RunAll(hooks[..|rs|], PreExport, run)
  {
    PreExportRunsPrefix(hooks, run);
    var rs := PreExportRun(hooks, run).0;
    var all := RunAll(hooks[..|rs|], PreExport, run);
    assert forall i :: 0 <= i < |rs| ==> rs[i] == all[i];
  }

  /** Pre-export runs the hooks of a prefix, in order. */
  lemma {:induction false} PreExportRunsPrefix(hooks: seq<Hook>, run: (Hook, HookPhase) -> Outcome)
    ensures var rs := PreExportRun(hooks, run).0;
      |rs| <= |hooks| && forall i :: 0 <= i < |rs| ==> rs[i] == Execute(hooks[i], PreExport, run)
  {
    if hooks != [] && !Fatal(Execute(hooks[0], PreExport, run)) {
      PreExportRunsPrefix(hooks[1..], run);
      var rest := PreExportRun(hooks[1..], run).0;
      var rs := PreExportRun(hooks, run).0;
      assert rs == [Execute(hooks[0], PreExport, run)] + rest;
      forall i | 0 < i < |rs| ensures rs[i] == Execute(hooks[i], PreExport, run) {
        assert rs[i] == rest[i - 1] && hooks[i] == hooks[1..][i - 1];
      }
    }
  }

  /** Pre-export stops exactly at the first fatal failure, and reports it. */
  lemma {:induction false} PreExportStops(hooks: seq<Hook>, run: (Hook, HookPhase) -> Outcome)
    ensures var rs, err := PreExportRun(hooks, run).0, PreExportRun(hooks, run).1;
      (forall i :: 0 <= i < |rs| - 1 ==> !Fatal(rs[i])) &&
      (err.Some? <==> |rs| > 0 && Fatal(rs[|rs| - 1])) &&
      (err.None? ==> |rs| == |hooks|) &&
      (err.Some? ==> err.value == FailureOf(rs[|rs| - 1]))
  {
    if hooks != [] && !Fatal(Execute(hooks[0], PreExport, run)) {
      PreExportStops(hooks[1..], run);
      var rest := PreExportRun(hooks[1..], run).0;
      var rs := PreExportRun(hooks, run).0;
      assert rs == [Execute(hooks[0], PreExport, run)] + rest;
      assert forall i :: 0 < i < |rs| ==> rs[i] == rest[i - 1];
    }
  }

  /** Running a non-empty list runs its head, then its tail. */
  lemma RunAllCons(hooks: seq<Hook>, phase: HookPhase, run: (Hook, HookPhase) -> Outcome)
    requires hooks != []
    ensures RunAll(hooks, phase, run) == [Execute(hooks[0], phase, run)] + RunAll(hooks[1..], phase, run)
  {
  }

  /** The results `done` already recorded, followed by a run of the remaining hooks. */
  function Prepend(done: seq<HookResult>, rest: (seq<HookResult>, Option<HookError>)): (seq<HookResult>, Option<HookError>)
  {
    (done + rest.0, rest.1)
  }

  /** One hook further into a pre-export run. */
  lemma PreExportStep(hooks: seq<Hook>, i: nat, run: (Hook, HookPhase) -> Outcome)
    requires i < |hooks|
    ensures var r := Execute(hooks[i], PreExport, run);
      var done := RunAll(hooks[..i], PreExport, run);
      var next := RunAll(hooks[..i + 1], PreExport, run);
      next == done + [r] &&
      Prepend(done, PreExportRun(hooks[i..], run)) ==
        if Fatal(r) then (next, Some(FailureOf(r))) else Prepend(next, PreExportRun(hooks[i + 1..], run))
  {
    assert hooks[..i + 1][..i] == hooks[..i];
    assert hooks[i..][1..] == hooks[i + 1..];
    var r := Execute(hooks[i], PreExport, run);
    var done := RunAll(hooks[..i], PreExport, run);
    var rest := PreExportRun(hooks[i + 1..], run).0;
    assert done + ([r] + rest) == (done + [r]) + rest;
  }

  /** One hook further into a post-export run. */
  lemma PostExportStep(hooks: seq<Hook>, i: nat, run: (Hook, HookPhase) -> Outcome)
    requires i < |hooks|
    ensures var r := Execute(hooks[i], PostExport, run);
      var done := RunAll(hooks[..i], PostExport, run);
      var next := RunAll(hooks[..i + 1], PostExport, run);
      next == done + [r] &&
      FirstFatal(next) == if FirstFatal(done).Some? then FirstFatal(done) else if Fatal(r) then Some(FailureOf(r)) else None
  {
    assert hooks[..i + 1][..i] == hooks[..i];
    var next := RunAll(hooks[..i + 1], PostExport, run);
    assert next[..|next| - 1] == RunAll(hooks[..i], PostExport, run);
  }

  lemma AppendAssoc(a: seq<HookResult>, b: seq<HookResult>, x: HookResult)
    ensures a + b + [x] == a + (b + [x])
  {
  }

  /** The first fatal failure among the results, if any. */
  function FirstFatal(rs: seq<HookResult>): Option<HookError>
  {
    if rs == [] then None
    else
      var earlier := FirstFatal(rs[..|rs| - 1]);
      if earlier.Some? then earlier
      else if Fatal(rs[|rs| - 1]) then Some(FailureOf(rs[|rs| - 1]))
      else None
  }

  /** `FirstFatal` finds the earliest fatal failure, and nothing when there is none. */
  lemma {:induction false} FirstFatalSpec(rs: seq<HookResult>)
    ensures FirstFatal(rs).None? <==> forall i :: 0 <= i < |rs| ==> !Fatal(rs[i])
    ensures FirstFatal(rs).Some? ==>
      exists k :: 0 <= k < |rs| && Fatal(rs[k]) && FirstFatal(rs).value == FailureOf(rs[k]) &&
                  forall i :: 0 <= i < k ==> !Fatal(rs[i])
  {
    if rs != [] {
      var init := rs[..|rs| - 1];
      FirstFatalSpec(init);
      if FirstFatal(init).Some? {
        var k :| 0 <= k < |init| && Fatal(init[k]) && FirstFatal(init).value == FailureOf(init[k]) &&
                 forall i :: 0 <= i < k ==> !Fatal(init[i]);
        assert rs[k] == init[k];
        assert forall i :: 0 <= i < k ==> rs[i] == init[i];
      } else {
        assert forall i :: 0 <= i < |init| ==> rs[i] == init[i];
      }
    }
  }

  /** `truncate`: strings of at most `max` runes are kept; longer ones keep `max - 3` runes and gain "...". */
  function Truncate(s: string, max: int): (r: string)
    requires |s| <= max || max >= 3
    ensures |s| <= max ==> r == s
    ensures |s| > max ==> |r| == max && HasPrefix(s, r[..max - 3]) && r[max - 3..] == "..."
  {
    if |s| <= max then s else s[..max - 3] + "..."
  }

  /** Truncating twice to the same width is truncating once. */
  lemma TruncateIdempotent(s: string, max: int)
    requires |s| <= max || max >= 3
    ensures Truncate(Truncate(s, max), max) == Truncate(s, max)
  {
  }

  /** The index of the last entry starting with `prefix` (the lookup searches from the end). */
  function LastWithPrefix(env: seq<string>, prefix: string): (k: Option<nat>)
    ensures k.Some? ==> k.value < |env| && HasPrefix(env[k.value], prefix)
  {
    if env == [] then None
    else if HasPrefix(env[|env| - 1], prefix) then Some(|env| - 1)
    else LastWithPrefix(env[..|env| - 1], prefix)
  }

  /** The entry found is the last one with the prefix, and none is found only when no entry has it. */
  lemma {:induction false} LastWithPrefixSpec(env: seq<string>, prefix: string)
    ensures LastWithPrefix(env, prefix).None? <==> forall j :: 0 <= j < |env| ==> !HasPrefix(env[j], prefix)
    ensures LastWithPrefix(env, prefix).Some? ==>
      forall j :: LastWithPrefix(env, prefix).value < j < |env| ==> !HasPrefix(env[j], prefix)
  {
    if env != [] && !HasPrefix(env[|env| - 1], prefix) {
      var init := env[..|env| - 1];
      LastWithPrefixSpec(init, prefix);
      assert forall j :: 0 <= j < |init| ==> env[j] == init[j];
    }
  }

  /** The value the `expandEnv` lookup yields for `key`: that of the last `key=` entry, or "". */
  function EnvValue(env: seq<string>, key: string): string
  {
    var k := LastWithPrefix(env, key + "=");
    if k.Some? then env[k.value][|key| + 1..] else ""
  }

  /** The lookup inside `expandEnv`, searching the environment from the end. */
  method LookupEnv(env: seq<string>, key: string) returns (value: string)
    ensures value == EnvValue(env, key)
  {
    var prefix := key + "=";
    var i := |env| - 1;
    assert env[..i + 1] == env;
    while i >= 0
      invariant -1 <= i < |env|
      invariant LastWithPrefix(env, prefix) == LastWithPrefix(env[..i + 1], prefix)
    {
      assert env[..i + 1][..i] == env[..i];
      if HasPrefix(env[i], prefix) {
        return env[i][|prefix|..];
      }
      i := i - 1;
    }
    return "";
  }

  /** The environment after appending `key=expanded value` for each key in turn. */
  function AppendEnv(base: seq<string>, keys: seq<string>, hookEnv: map<string, string>,
                     expand: (string, seq<string>) -> string): (env: seq<string>)
    requires forall k :: k in keys ==> k in hookEnv
    ensures |env| == |base| + |keys|
    ensures env[..|base|] == base
  {
    if keys == [] then base
    else
      var prev := AppendEnv(base, keys[..|keys| - 1], hookEnv, expand);
      var key := keys[|keys| - 1];
      prev + [key + "=" + expand(hookEnv[key], prev)]
  }

  /** Two strictly sorted lists with the same elements are the same list. */
  lemma {:induction false} SortedKeysUnique(a: seq<string>, b: seq<string>)
    requires SortedStrings(a) && NoDuplicates(a) && SortedStrings(b) && NoDuplicates(b)
    requires forall x :: x in a <==> x in b
    ensures a == b
  {
    NoDuplicatesCard(a, set x | x in a);
    NoDuplicatesCard(b, set x | x in a);
    if a != [] {
      assert a[0] in b;
      assert b != [] && b[0] in a;
      var i :| 0 <= i < |b| && b[i] == a[0];
      var j :| 0 <= j < |a| && a[j] == b[0];
      if a[0] != b[0] {
        assert i > 0 && j > 0;
        assert StrLessEq(b[0], b[i]) && StrLessEq(a[0], a[j]);
        StrLessAsymmetric(a[0], b[0]);
      }
      assert a[0] == b[0];
      forall x ensures x in a[1..] <==> x in b[1..] {
        if x in a[1..] {
          var m :| 1 <= m < |a| && a[m] == x;
          assert x != a[0] && x in a && x in b;
          var n :| 0 <= n < |b| && b[n] == x;
          assert n != 0 && b[1..][n - 1] == x;
        }
        if x in b[1..] {
          var m :| 1 <= m < |b| && b[m] == x;
          assert x != b[0] && x in b && x in a;
          var n :| 0 <= n < |a| && a[n] == x;
          assert n != 0 && a[1..][n - 1] == x;
        }
      }
      SortedKeysUnique(a[1..], b[1..]);
      assert a == [a[0]] + a[1..] && b == [b[0]] + b[1..];
    }
  }

  /** Appends `key=expanded value` for each key in turn. */
  method AppendHookVars(base: seq<string>, keys: seq<string>, hookEnv: map<string, string>,
                        expand: (string, seq<string>) -> string) returns (env: seq<string>)
    requires forall k :: k in keys ==> k in hookEnv
    ensures env == AppendEnv(base, keys, hookEnv, expand)
  {
    env := base;
    for i := 0 to |keys|
      invariant env == AppendEnv(base, keys[..i], hookEnv, expand)
    {
      assert keys[..i + 1][..i] == keys[..i];
      var key := keys[i];
      var expanded := expand(hookEnv[key], env);
      env := env + [key + "=" + expanded];
    }
    assert keys[..|keys|] == keys;
  }

  /** `sort.Strings` over the keys of a map: every key once, in increasing order. */
  method SortedMapKeys<V>(m: map<string, V>) returns (keys: seq<string>)
    ensures SortedStrings(keys) && NoDuplicates(keys)
    ensures forall k :: k in keys <==> k in m
    ensures |keys| == |m|
  {
    var unordered := MapKeys(m);
    keys := SortStrings(unordered);
    SortStringsSorted(unordered);
    NoDuplicatesPermutation(unordered, keys);
    NoDuplicatesCard(keys, m.Keys);
  }

  /**
   * The environment of a hook's process: the base environment (the OS environment and the
   * export context), then the hook's own variables in sorted key order, each expanded
   * against everything before it.
   */
  method HookEnv(base: seq<string>, hookEnv: map<string, string>, expand: (string, seq<string>) -> string)
    returns (keys: seq<string>, env: seq<string>)
    ensures SortedStrings(keys) && NoDuplicates(keys)
    ensures forall k :: k in keys <==> k in hookEnv
    ensures env == AppendEnv(base, keys, hookEnv, expand)
    ensures |env| == |base| + |hookEnv|
  {
    keys := SortedMapKeys(hookEnv);
    env := AppendHookVars(base, keys, hookEnv, expand);
  }

  /** One line of the summary, before formatting; durations are not modelled. */
  datatype SummaryLine = OkLine(name: string) | FailLine(name: string, error: string, stderr: Option<string>)

  datatype Summary = NoHooksExecuted | Report(succeeded: nat, failed: nat, lines: seq<SummaryLine>)

  /** A result's summary line: failures show the error and, when there is one, stderr cut to 200 runes. */
  function LineOf(r: HookResult): SummaryLine
  {
    if r.success then OkLine(r.hook.name)
    else FailLine(r.hook.name, r.error, if r.stderr != "" then Some(Truncate(r.stderr, 200)) else None)
  }

  function Succeeded(r: HookResult): bool { r.success }

  function Failed(r: HookResult): bool { !r.success }

  /** The summary's header line. */
  function SummaryHeader(succeeded: nat, failed: nat): string
  {
    "Hook execution: " + Decimal(succeeded) + " succeeded, " + Decimal(failed) + " failed\n"
  }

  class Executor {
    var config: Option<HooksConfig>
    var results: seq<HookResult>

    /** `NewExecutor`: no results yet. */
    constructor (cfg: Option<HooksConfig>)
      ensures config == cfg && results == []
    {
      config := cfg;
      results := [];
    }

    /**
     * `RunPreExport`: nothing without a configuration; otherwise the pre-export hooks run in
     * order, each result is recorded, and the first fatal failure stops the run and is returned.
     */
    method RunPreExport(run: (Hook, HookPhase) -> Outcome) returns (err: Option<HookError>)
      modifies this
      ensures config == old(config)
      ensures config.None? ==> err.None? && results == old(results)
      ensures config.Some? ==>
        results == old(results) + PreExportRun(config.value.preExport, run).0 &&
        err == PreExportRun(config.value.preExport, run).1
    {
      if config.None? {
        return None;
      }
      var hooks := config.value.preExport;
      assert hooks[0..] == hooks;
      assert RunAll(hooks[..0], PreExport, run) == [];
      assert [] + PreExportRun(hooks, run).0 == PreExportRun(hooks, run).0;
      assert Prepend([], PreExportRun(hooks, run)) == PreExportRun(hooks, run);
      for i := 0 to |hooks|
        invariant config == old(config)
        invariant results == old(results) + RunAll(hooks[..i], PreExport, run)
        invariant PreExportRun(hooks, run) == Prepend(RunAll(hooks[..i], PreExport, run), PreExportRun(hooks[i..], run))
      {
        PreExportStep(hooks, i, run);
        var result := Execute(hooks[i], PreExport, run);
        AppendAssoc(old(results), RunAll(hooks[..i], PreExport, run), result);
        results := results + [result];
        if !result.success && hooks[i].onError == "fail" {
          return Some(HookFailed(PreExport, hooks[i].name, result.error));
        }
      }
      assert hooks[..|hooks|] == hooks;
      return None;
    }

    /**
     * `RunPostExport`: every post-export hook runs and is recorded; the error returned is that
     * of the first fatal failure, if any.
     */
    method RunPostExport(run: (Hook, HookPhase) -> Outcome) returns (err: Option<HookError>)
      modifies this
      ensures config == old(config)
      ensures config.None? ==> err.None? && results == old(results)
      ensures config.Some? ==>
        results == old(results) + RunAll(config.value.postExport, PostExport, run) &&
        err == FirstFatal(RunAll(config.value.postExport, PostExport, run))
    {
      if config.None? {
        return None;
      }
      var hooks := config.value.postExport;
      var firstError: Option<HookError> := None;
      for i := 0 to |hooks|
        invariant config == old(config)
        invariant results == old(results) + RunAll(hooks[..i], PostExport, run)
        invariant firstError == FirstFatal(RunAll(hooks[..i], PostExport, run))
      {
        PostExportStep(hooks, i, run);
        var result := Execute(hooks[i], PostExport, run);
        AppendAssoc(old(results), RunAll(hooks[..i], PostExport, run), result);
        results := results + [result];
        if !result.success && hooks[i].onError == "fail" && firstError.None? {
          firstError := Some(HookFailed(PostExport, hooks[i].name, result.error));
        }
      }
      assert hooks[..|hooks|] == hooks;
      return firstError;
    }

    /** `Summary`: "No hooks executed" for no results, otherwise the tallies and one line per result. */
    method Summary() returns (s: Summary)
      ensures |results| == 0 <==> s.NoHooksExecuted?
      ensures s.Report? ==> s.succeeded == CountWhere(results, Succeeded) && s.failed == CountWhere(results, Failed)
      ensures s.Report? ==> s.succeeded + s.failed == |results|
      ensures s.Report? ==> |s.lines| == |results| && forall i :: 0 <= i < |results| ==> s.lines[i] == LineOf(results[i])
    {
      if |results| == 0 {
        return NoHooksExecuted;
      }
      var succeeded, failed := 0, 0;
      var lines: seq<SummaryLine> := [];
      for i := 0 to |results|
        invariant succeeded == CountWhere(results[..i], Succeeded)
        invariant failed == CountWhere(results[..i], Failed)
        invariant succeeded + failed == i
        invariant |lines| == i && forall j :: 0 <= j < i ==> lines[j] == LineOf(results[j])
      {
        CountWhereAppend(results[..i], results[i], Succeeded);
        CountWhereAppend(results[..i], results[i], Failed);
        assert results[..i + 1] == results[..i] + [results[i]];
        if results[i].success {
          succeeded := succeeded + 1;
        } else {
          failed := failed + 1;
        }
        lines := lines + [LineOf(results[i])];
      }
      assert results[..|results|] == results;
      return Report(succeeded, failed, lines);
    }
  }
}
