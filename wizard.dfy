/**
 * The answer parsing of the static-site deployment wizard and the choices it records.
 * Each prompt reads one line; the line is an input here, `None` standing for a read error
 * (which includes end of input before a newline). Printing the prompts is not modelled.
 */
module PagesWizard {
  import opened Wrappers
  import opened Cloudflare

  /** `askYesNo`: the default on a read error or a blank answer, otherwise whether the answer is yes. */
  function AskYesNo(response: Option<string>, defaultYes: bool): (yes: bool)
    ensures response.None? ==> yes == defaultYes
    ensures response.Some? && TrimSpace(Lower(response.value)) == "" ==> yes == defaultYes
    ensures response.Some? && TrimSpace(Lower(response.value)) != "" ==> (yes <==> YesAnswer(response.value))
  {
    if response.None? then defaultYes
    else
      var a := TrimSpace(Lower(response.value));
      if a == "" then defaultYes else a == "y" || a == "yes"
  }

  /** The yes/no answer is read without regard to case. */
  lemma AskYesNoIgnoresCase(response: string, defaultYes: bool)
    ensures AskYesNo(Some(Upper(response)), defaultYes) == AskYesNo(Some(response), defaultYes)
  {
    LowerUpper(response);
  }

  /** `askString`: the trimmed answer, or the default on a read error or a blank answer. */
  function AskString(response: Option<string>, defaultValue: string): (s: string)
    ensures response.None? ==> s == defaultValue
    ensures response.Some? && TrimSpace(response.value) == "" ==> s == defaultValue
    ensures response.Some? && TrimSpace(response.value) != "" ==> s == TrimSpace(response.value)
  {
    if response.None? then defaultValue
    else
      var r := TrimSpace(response.value);
      if r == "" then defaultValue else r
  }

  /** An answer typed back in unchanged gives the same value: the answer carries no stray blanks. */
  lemma AskStringStable(response: Option<string>, defaultValue: string)
    requires TrimSpace(defaultValue) == defaultValue
    ensures var s := AskString(response, defaultValue);
      TrimSpace(s) == s && AskString(Some(s), defaultValue) == s
  {
    if response.Some? {
      TrimSpaceIdempotent(response.value);
    }
  }

  lemma TrimSpaceIdempotent(s: string)
    ensures TrimSpace(TrimSpace(s)) == TrimSpace(s)
  {
    TrimSpaceEnds(s);
  }

  /** `askChoice`: the trimmed answer when it is one of the choices, otherwise the default. */
  method AskChoice(response: Option<string>, choices: seq<string>, defaultChoice: string) returns (choice: string)
    ensures response.Some? && TrimSpace(response.value) != "" && TrimSpace(response.value) in choices ==>
      choice == TrimSpace(response.value)
    ensures !(response.Some? && TrimSpace(response.value) in choices) ==> choice == defaultChoice
    ensures response.None? || TrimSpace(response.value) == "" ==> choice == defaultChoice
    ensures choice in choices || choice == defaultChoice
  {
    if response.None? {
      return defaultChoice;
    }
    var r := TrimSpace(response.value);
    if r == "" {
      return defaultChoice;
    }
    for i := 0 to |choices|
      invariant r !in choices[..i]
    {
      if r == choices[i] {
        return r;
      }
    }
    assert choices[..|choices|] == choices;
    return defaultChoice;
  }

  /** The deploy targets a wizard can record. */
  const Targets: set<string> := {"github", "cloudflare", "local"}

  /** The menu of `collectDeployTarget`: "1" GitHub, "2" Cloudflare, "3" local; anything else GitHub. */
  function DeployTargetOf(choice: string): (target: string)
    ensures target in Targets
    ensures choice == "2" <==> target == "cloudflare"
    ensures choice == "3" <==> target == "local"
    ensures target == "github" <==> choice != "2" && choice != "3"
  {
    match choice
    case "1" => "github"
    case "2" => "cloudflare"
    case "3" => "local"
    case _ => "github"
  }

  /** The wizard's collected configuration; `beadsPath` is where the issues are read from. */
  class Wizard {
    var includeClosed: bool
    var title: string
    var subtitle: string
    var deployTarget: string
    var beadsPath: string

    /** `NewWizard`: nothing collected yet, closed issues left out, no deploy target. */
    constructor (path: string)
      ensures beadsPath == path
      ensures !includeClosed && title == "" && subtitle == "" && deployTarget == ""
    {
      beadsPath := path;
      includeClosed := false;
      title := "";
      subtitle := "";
      deployTarget := "";
    }

    /** `collectExportOptions`: closed issues (default no), the title (default "Project Issues"), the subtitle (default none). */
    method CollectExportOptions(closedAnswer: Option<string>, titleAnswer: Option<string>, subtitleAnswer: Option<string>)
      modifies this
      ensures includeClosed == AskYesNo(closedAnswer, false)
      ensures title == AskString(titleAnswer, "Project Issues")
      ensures subtitle == AskString(subtitleAnswer, "")
      ensures title != ""
      ensures deployTarget == old(deployTarget) && beadsPath == old(beadsPath)
    {
      includeClosed := AskYesNo(closedAnswer, false);
      title := AskString(titleAnswer, "Project Issues");
      subtitle := AskString(subtitleAnswer, "");
    }

    /** `collectDeployTarget`: a menu of three, "1" by default; the recorded target is always a known one. */
    method CollectDeployTarget(answer: Option<string>)
      modifies this
      ensures deployTarget in Targets
      ensures answer.None? ==> deployTarget == "github"
      ensures answer.Some? && TrimSpace(answer.value) == "2" ==> deployTarget == "cloudflare"
      ensures answer.Some? && TrimSpace(answer.value) == "3" ==> deployTarget == "local"
      ensures answer.Some? && TrimSpace(answer.value) !in {"2", "3"} ==> deployTarget == "github"
      ensures includeClosed == old(includeClosed) && title == old(title) && subtitle == old(subtitle)
      ensures beadsPath == old(beadsPath)
    {
      var choice := AskChoice(answer, ["1", "2", "3"], "1");
      deployTarget := DeployTargetOf(choice);
    }
  }
}
