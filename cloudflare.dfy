/**
 * The text processing around Cloudflare Pages deployment: the suggested project name, the
 * parsing of `wrangler whoami` and `wrangler pages project list` output, the confirmation
 * answer, and the deployment defaults. Running wrangler, npm and the browser is not modelled;
 * their output, and what the user types, are inputs.
 */
module Cloudflare {
  import opened Wrappers

  // ---------------------------------------------------------------- project name

  /** The characters a Pages project name may contain: lower-case ASCII letters, digits, '-'. */
  predicate Allowed(c: char)
  {
    'a' <= c <= 'z' || '0' <= c <= '9' || c == '-'
  }

  predicate Alnum(c: char)
  {
    'a' <= c <= 'z' || '0' <= c <= '9'
  }

  /** Lower-case, then turn ' ', '_' and '.' into '-'. */
  function NormalizeChar(c: char): (d: char)
    ensures Alnum(LowerChar(c)) ==> d == LowerChar(c)
    ensures Allowed(c) ==> d == c
    ensures LowerChar(c) == ' ' || LowerChar(c) == '_' || LowerChar(c) == '.' ==> d == '-'
  {
    var l := LowerChar(c);
    if l == ' ' || l == '_' || l == '.' then '-' else l
  }

  function NormalizeChars(s: string): (r: string)
    ensures |r| == |s|
    ensures forall i :: 0 <= i < |s| ==> r[i] == NormalizeChar(s[i])
  {
    if s == [] then [] else [NormalizeChar(s[0])] + NormalizeChars(s[1..])
  }

  /** Drops every character outside [a-z0-9-]. */
  function KeepAllowed(s: string): (r: string)
    ensures forall c :: c in r ==> Allowed(c)
  {
    if s == [] then [] else (if Allowed(s[0]) then [s[0]] else []) + KeepAllowed(s[1..])
  }

  /** `strings.Trim(s, "-")`. */
  function TrimHyphens(s: string): (r: string)
    ensures forall c :: c in r ==> c in s
    ensures r != [] ==> r[0] != '-' && r[|r| - 1] != '-'
  {
    TrimTrailingHyphens(TrimLeadingHyphens(s))
  }

  function TrimLeadingHyphens(s: string): (r: string)
    ensures forall c :: c in r ==> c in s
    ensures r != [] ==> r[0] != '-'
    ensures |r| <= |s|
  {
    if s != [] && s[0] == '-' then TrimLeadingHyphens(s[1..]) else s
  }

  function TrimTrailingHyphens(s: string): (r: string)
    ensures forall c :: c in r ==> c in s
    ensures r != [] ==> r[|r| - 1] != '-'
    ensures |r| <= |s| && r == s[..|r|]
  {
    if s != [] && s[|s| - 1] == '-' then TrimTrailingHyphens(s[..|s| - 1]) else s
  }

  /** No two hyphens in a row. */
  predicate NoDoubleHyphen(s: string)
  {
    forall i :: 0 <= i < |s| - 1 ==> !(s[i] == '-' && s[i + 1] == '-')
  }

  /** Replaces every run of '-' by a single '-'. */
  function CollapseHyphens(s: string): (r: string)
    ensures forall c :: c in r ==> c in s
    ensures NoDoubleHyphen(r)
    ensures |r| <= |s|
    ensures s != [] ==> r != [] && r[0] == s[0] && r[|r| - 1] == s[|s| - 1]
  {
    if |s| <= 1 then s
    else if s[0] == '-' && s[1] == '-' then CollapseHyphens(s[1..])
    else [s[0]] + CollapseHyphens(s[1..])
  }

  /** The sanitising pipeline of `SuggestProjectName`, step by step: trim before collapse. */
  function Sanitize(name: string): string
  {
    CollapseHyphens(TrimHyphens(KeepAllowed(NormalizeChars(name))))
  }

  /** A sanitised name is a valid Pages project name: [a-z0-9-] only, no hyphen at either end, none doubled. */
  predicate ValidProjectName(s: string)
  {
    (forall c :: c in s ==> Allowed(c)) && (s != [] ==> s[0] != '-' && s[|s| - 1] != '-') && NoDoubleHyphen(s)
  }

  lemma SanitizeValid(name: string)
    ensures ValidProjectName(Sanitize(name))
  {
  }

  /** The letters and digits of a string, in order. */
  function Alnums(s: string): (r: string)
    ensures forall c :: c in r ==> Alnum(c)
  {
    if s == [] then [] else (if Alnum(s[0]) then [s[0]] else []) + Alnums(s[1..])
  }

  lemma {:induction false} AlnumsAppend(a: string, b: string)
    ensures Alnums(a + b) == Alnums(a) + Alnums(b)
  {
    if a != [] {
      assert (a + b)[0] == a[0] && (a + b)[1..] == a[1..] + b;
      AlnumsAppend(a[1..], b);
    } else {
      assert a + b == b;
    }
  }

  lemma {:induction false} AlnumsKeepAllowed(s: string)
    ensures Alnums(KeepAllowed(s)) == Alnums(s)
  {
    if s != [] {
      AlnumsKeepAllowed(s[1..]);
      AlnumsAppend(if Allowed(s[0]) then [s[0]] else [], KeepAllowed(s[1..]));
    }
  }

  lemma {:induction false} AlnumsTrimLeading(s: string)
    ensures Alnums(TrimLeadingHyphens(s)) == Alnums(s)
  {
    if s != [] && s[0] == '-' {
      AlnumsTrimLeading(s[1..]);
    }
  }

  lemma {:induction false} AlnumsTrimTrailing(s: string)
    ensures Alnums(TrimTrailingHyphens(s)) == Alnums(s)
  {
    if s != [] && s[|s| - 1] == '-' {
      var init := s[..|s| - 1];
      AlnumsTrimTrailing(init);
      assert s == init + ['-'];
      AlnumsAppend(init, ['-']);
    }
  }

  lemma {:induction false} AlnumsCollapse(s: string)
    ensures Alnums(CollapseHyphens(s)) == Alnums(s)
  {
    if |s| > 1 {
      AlnumsCollapse(s[1..]);
      if !(s[0] == '-' && s[1] == '-') {
        AlnumsAppend([s[0]], CollapseHyphens(s[1..]));
      }
    }
  }

  lemma {:induction false} AlnumsNormalize(s: string)
    ensures Alnums(NormalizeChars(s)) == Alnums(Lower(s))
  {
    if s != [] {
      AlnumsNormalize(s[1..]);
      assert NormalizeChars(s)[1..] == NormalizeChars(s[1..]);
      assert Lower(s)[1..] == Lower(s[1..]);
    }
  }

  /** Sanitising only reshapes separators: the name's letters and digits, lower-cased, all survive in order. */
  lemma SanitizeKeepsAlnums(name: string)
    ensures Alnums(Sanitize(name)) == Alnums(Lower(name))
  {
    var n := NormalizeChars(name);
    var k := KeepAllowed(n);
    var t := TrimLeadingHyphens(k);
    AlnumsNormalize(name);
    AlnumsKeepAllowed(n);
    AlnumsTrimLeading(k);
    AlnumsTrimTrailing(t);
    AlnumsCollapse(TrimHyphens(k));
  }

  lemma {:induction false} NormalizeValid(s: string)
    requires forall c :: c in s ==> Allowed(c)
    ensures NormalizeChars(s) == s
  {
    if s != [] {
      NormalizeValid(s[1..]);
    }
  }

  lemma {:induction false} KeepValid(s: string)
    requires forall c :: c in s ==> Allowed(c)
    ensures KeepAllowed(s) == s
  {
    if s != [] {
      KeepValid(s[1..]);
    }
  }

  lemma {:induction false} CollapseValid(s: string)
    requires NoDoubleHyphen(s)
    ensures CollapseHyphens(s) == s
  {
    if |s| > 1 {
      CollapseValid(s[1..]);
    }
  }

  /** Sanitising a valid project name changes nothing, so sanitising twice is sanitising once. */
  lemma SanitizeIdempotent(name: string)
    ensures Sanitize(Sanitize(name)) == Sanitize(name)
  {
    var s := Sanitize(name);
    NormalizeValid(s);
    KeepValid(s);
    CollapseValid(s);
  }

  /** Output-directory names that stand for "the site of the parent project". */
  predicate GenericDirName(name: string)
  {
    name == "bv-pages" || name == "pages" || name == "docs" || name == "dist"
  }

  /**
   * `SuggestProjectName`. `base` is the last element of the bundle path; `parent` is the last
   * element of the directory containing the absolute bundle path, absent when the absolute
   * path cannot be resolved.
   */
  function SuggestProjectName(base: string, parent: Option<string>): (name: string)
    ensures ValidProjectName(name)
    ensures !(base in {".", "/", ""}) && !GenericDirName(base) ==> name == Sanitize(base)
    ensures GenericDirName(base) && parent.Some? && !(parent.value in {"", ".", "/"}) ==>
      name == Sanitize(parent.value + "-pages")
    ensures base in {".", "/", ""} && parent.Some? && !GenericDirName(parent.value) ==>
      name == Sanitize(parent.value)
    ensures base in {".", "/", ""} && parent.Some? && GenericDirName(parent.value) ==>
      name == Sanitize(parent.value + "-pages")
    ensures base in {".", "/", ""} && parent.None? ==> name == Sanitize(base)
  {
    var n1 := if (base == "." || base == "/" || base == "") && parent.Some? then parent.value else base;
    var n2 := if GenericDirName(n1) && parent.Some? && parent.value != "" && parent.value != "." && parent.value != "/"
              then parent.value + "-pages" else n1;
    SanitizeValid(n2);
    Sanitize(n2)
  }

  // ---------------------------------------------------------------- wrangler whoami

  /** The account fields read from `wrangler whoami`. */
  datatype Account = Account(name: string, id: string)

  /** The text after the first ':' (the second part of `strings.SplitN(s, ":", 2)`). */
  function AfterFirst(s: string, sep: char): (r: string)
    ensures |r| <= |s|
  {
    if s == [] then [] else if s[0] == sep then s[1..] else AfterFirst(s[1..], sep)
  }

  function FieldValue(line: string): string
  {
    TrimSpace(AfterFirst(line, ':'))
  }

  predicate NameLine(rawLine: string) { Contains(TrimSpace(rawLine), "Account Name:") }

  predicate IdLine(rawLine: string) { Contains(TrimSpace(rawLine), "Account ID:") }

  /** One line of `parseWranglerWhoami`: labelled lines overwrite, an e-mail-looking line fills an empty name. */
  function WhoamiStep(acc: Account, rawLine: string): Account
  {
    var line := TrimSpace(rawLine);
    var name1 := if Contains(line, "Account Name:") then FieldValue(line) else acc.name;
    var id1 := if Contains(line, "Account ID:") then FieldValue(line) else acc.id;
    var name2 := if name1 == "" && Contains(line, "@") && !Contains(line, "http") then TrimSpace(line) else name1;
    Account(name2, id1)
  }

  function Whoami(lines: seq<string>): Account
  {
    if lines == [] then Account("", "") else WhoamiStep(Whoami(lines[..|lines| - 1]), lines[|lines| - 1])
  }

  /** `parseWranglerWhoami`. */
  method ParseWranglerWhoami(output: string) returns (name: string, id: string)
    ensures Account(name, id) == Whoami(SplitOn(output, '\n'))
  {
    var lines := SplitOn(output, '\n');
    name, id := "", "";
    for i := 0 to |lines|
      invariant Account(name, id) == Whoami(lines[..i])
    {
      assert lines[..i + 1][..i] == lines[..i];
      var line := TrimSpace(lines[i]);
      if Contains(line, "Account Name:") {
        name := FieldValue(line);
      }
      if Contains(line, "Account ID:") {
        id := FieldValue(line);
      }
      if name == "" && Contains(line, "@") && !Contains(line, "http") {
        name := TrimSpace(line);
      }
    }
    assert lines[..|lines|] == lines;
  }

  /** What one line does to the account fields. */
  lemma WhoamiStepFacts(acc: Account, rawLine: string)
    ensures WhoamiStep(acc, rawLine).id == if IdLine(rawLine) then FieldValue(TrimSpace(rawLine)) else acc.id
    ensures NameLine(rawLine) && FieldValue(TrimSpace(rawLine)) != "" ==> WhoamiStep(acc, rawLine).name == FieldValue(TrimSpace(rawLine))
    ensures !NameLine(rawLine) && acc.name != "" ==> WhoamiStep(acc, rawLine).name == acc.name
  {
  }

  /** Without an "Account ID:" line the account id stays empty. */
  lemma {:induction false} WhoamiNoIdLine(lines: seq<string>)
    requires forall j :: 0 <= j < |lines| ==> !IdLine(lines[j])
    ensures Whoami(lines).id == ""
  {
    if lines != [] {
      var init := lines[..|lines| - 1];
      assert forall j :: 0 <= j < |init| ==> init[j] == lines[j];
      WhoamiNoIdLine(init);
      WhoamiStepFacts(Whoami(init), lines[|lines| - 1]);
    }
  }

  /** The account id is the value of the last "Account ID:" line. */
  lemma {:induction false} WhoamiIdIsLastIdLine(lines: seq<string>, k: nat)
    requires k < |lines| && IdLine(lines[k])
    requires forall j :: k < j < |lines| ==> !IdLine(lines[j])
    ensures Whoami(lines).id == FieldValue(TrimSpace(lines[k]))
  {
    var init := lines[..|lines| - 1];
    WhoamiStepFacts(Whoami(init), lines[|lines| - 1]);
    if k + 1 < |lines| {
      assert init[k] == lines[k];
      assert forall j :: k < j < |init| ==> init[j] == lines[j];
      WhoamiIdIsLastIdLine(init, k);
    }
  }

  /** Once a name is known, only a later "Account Name:" line can change it. */
  lemma {:induction false} WhoamiNameSticks(lines: seq<string>, k: nat)
    requires k < |lines| && Whoami(lines[..k + 1]).name != ""
    requires forall j :: k < j < |lines| ==> !NameLine(lines[j])
    ensures Whoami(lines).name == Whoami(lines[..k + 1]).name
  {
    if k + 1 < |lines| {
      var init := lines[..|lines| - 1];
      assert init[..k + 1] == lines[..k + 1];
      assert forall j :: k < j < |init| ==> init[j] == lines[j];
      WhoamiNameSticks(init, k);
      WhoamiStepFacts(Whoami(init), lines[|lines| - 1]);
    } else {
      assert lines[..k + 1] == lines;
    }
  }

  lemma WhoamiPrefixStep(lines: seq<string>, k: nat)
    requires k < |lines|
    ensures Whoami(lines[..k + 1]) == WhoamiStep(Whoami(lines[..k]), lines[k])
  {
    var pre := lines[..k + 1];
    assert pre[..k] == lines[..k] && pre[k] == lines[k];
  }

  /** A non-empty value on the last "Account Name:" line is the account name. */
  lemma WhoamiNameIsLastNameLine(lines: seq<string>, k: nat)
    requires k < |lines| && NameLine(lines[k]) && FieldValue(TrimSpace(lines[k])) != ""
    requires forall j :: k < j < |lines| ==> !NameLine(lines[j])
    ensures Whoami(lines).name == FieldValue(TrimSpace(lines[k]))
  {
    WhoamiPrefixStep(lines, k);
    WhoamiStepFacts(Whoami(lines[..k]), lines[k]);
    WhoamiNameSticks(lines, k);
  }

  // ---------------------------------------------------------------- confirmation prompt

  /** A yes answer: "y" or "yes" in any case, surrounded by any blanks. */
  predicate YesAnswer(response: string)
  {
    var a := TrimSpace(Lower(response));
    a == "y" || a == "yes"
  }

  /** `cloudflareConfirmPrompt`: the line read, or `None` for a read error, which counts as no. */
  function ConfirmPrompt(response: Option<string>): (yes: bool)
    ensures yes <==> response.Some? && YesAnswer(response.value)
    ensures response.None? ==> !yes
  {
    response.Some? && YesAnswer(response.value)
  }

  lemma {:induction false} LowerUpper(s: string)
    ensures Lower(Upper(s)) == Lower(s)
  {
    if s != [] {
      LowerUpper(s[1..]);
    }
  }

  /** The answer is read without regard to case. */
  lemma ConfirmIgnoresCase(response: string)
    ensures ConfirmPrompt(Some(Upper(response))) == ConfirmPrompt(Some(response))
  {
    LowerUpper(response);
  }

  // ---------------------------------------------------------------- project list

  /** The project named on one line of `wrangler pages project list`, if the line names one. */
  function ProjectOf(rawLine: string): (p: seq<string>)
    ensures |p| <= 1
  {
    var line := TrimSpace(rawLine);
    if line == "" || HasPrefix(line, "Name") || HasPrefix(line, "---") then []
    else
      var f := FirstField(line);
      if f == [] then [] else [f]
  }

  /** A listed project is one word: non-empty, no blanks, and never a header or separator line. */
  lemma ProjectOfWellFormed(rawLine: string)
    ensures forall p :: p in ProjectOf(rawLine) ==>
      p != "" && (forall c :: c in p ==> !IsSpace(c)) && !HasPrefix(p, "Name") && !HasPrefix(p, "---")
  {
    var line := TrimSpace(rawLine);
    if ProjectOf(rawLine) != [] {
      TrimSpaceEnds(rawLine);
      var p := FirstField(line);
      assert p == TakeWord(line);
    }
  }

  /**
   * `ListCloudflareProjects` on the command's output (`None` when the command failed): the
   * first word of each line that is not blank, a header or a separator.
   */
  method ListProjects(output: Option<string>) returns (projects: Option<seq<string>>)
    ensures output.None? <==> projects.None?
    ensures output.Some? ==> projects.value == FlatMap(SplitOn(TrimSpace(output.value), '\n'), ProjectOf)
  {
    if output.None? {
      return None;
    }
    var lines := SplitOn(TrimSpace(output.value), '\n');
    var names: seq<string> := [];
    for i := 0 to |lines|
      invariant names == FlatMap(lines[..i], ProjectOf)
    {
      FlatMapStep(lines[..i], lines[i], lines[..i + 1], ProjectOf);
      var line := TrimSpace(lines[i]);
      if line == "" || HasPrefix(line, "Name") || HasPrefix(line, "---") {
        continue;
      }
      var first := FirstField(line);
      if first != [] {
        names := names + [first];
      }
    }
    assert lines[..|lines|] == lines;
    return Some(names);
  }

  /** Every listed project is a single word that is neither a header nor a separator. */
  lemma ListedProjectsWellFormed(lines: seq<string>)
    ensures forall p :: p in FlatMap(lines, ProjectOf) ==>
      p != "" && (forall c :: c in p ==> !IsSpace(c)) && !HasPrefix(p, "Name") && !HasPrefix(p, "---")
  {
    forall p | p in FlatMap(lines, ProjectOf)
      ensures p != "" && (forall c :: c in p ==> !IsSpace(c)) && !HasPrefix(p, "Name") && !HasPrefix(p, "---")
    {
      FlatMapMember(lines, ProjectOf, p);
      var i :| 0 <= i < |lines| && p in ProjectOf(lines[i]);
      ProjectOfWellFormed(lines[i]);
    }
  }

  // ---------------------------------------------------------------- deployment defaults

  /** The branch deployed to: "main" unless one is given. */
  function DeployBranch(branch: string): (b: string)
    ensures b != ""
    ensures branch != "" ==> b == branch
    ensures branch == "" ==> b == "main"
  {
    if branch == "" then "main" else branch
  }

  /** The deployment URL: the one parsed from wrangler's output, or the project's pages.dev address. */
  function DeployURL(parsedURL: string, projectName: string): (url: string)
    ensures url != ""
    ensures parsedURL != "" ==> url == parsedURL
    ensures parsedURL == "" ==> HasPrefix(url, "https://") && HasSuffix(url, ".pages.dev")
    ensures parsedURL == "" ==> url == "https://" + projectName + ".pages.dev"
  {
    if parsedURL == "" then "https://" + projectName + ".pages.dev" else parsedURL
  }
}
