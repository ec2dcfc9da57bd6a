/**
 * The repository filter picker of workspace mode: a list of repositories, a cursor with a
 * scroll window, and a selection flag per repository. Rendering is not modelled.
 */
module RepoPicker {
  import opened Wrappers

  /** A Go `map[string]bool` lookup: a missing key reads as false. */
  function Flag(m: map<string, bool>, k: string): bool
  {
    k in m && m[k]
  }

  /** Every repository of the list, flagged true. */
  function AllFlagged(repos: seq<string>, value: bool): (m: map<string, bool>)
    ensures m.Keys == set r | r in repos
    ensures forall r :: r in m ==> m[r] == value
  {
    map r | r in repos :: value
  }

  /** The repositories of the list whose flag is set. */
  function Selection(repos: seq<string>, selected: map<string, bool>): set<string>
  {
    set r | r in repos && Flag(selected, r)
  }

  /** The number of lines of the list that fit: the height less ten lines of chrome, but at least three. */
  function VisibleHeight(height: int): (vh: int)
    ensures vh >= 3
    ensures vh == Max(height - 10, 3)
  {
    var vh := height - 10;
    if vh < 3 then 3 else vh
  }

  /** After selecting everything, every repository is selected, whatever was selected before. */
  lemma SelectAllSelectsEvery(repos: seq<string>, selected: map<string, bool>)
    ensures Selection(repos, selected + AllFlagged(repos, true)) == set r | r in repos
  {
  }

  /** After deselecting everything, nothing is selected. */
  lemma DeselectAllSelectsNone(repos: seq<string>, selected: map<string, bool>)
    ensures Selection(repos, selected + AllFlagged(repos, false)) == {}
  {
    var s := selected + AllFlagged(repos, false);
    forall r | r in repos ensures !Flag(s, r) {
      assert r in AllFlagged(repos, false);
    }
  }

  /** Toggling one repository adds it to, or removes it from, the selection, and changes nothing else. */
  lemma ToggleChangesOne(repos: seq<string>, selected: map<string, bool>, r: string)
    requires r in repos
    ensures var after := selected[r := !Flag(selected, r)];
      Selection(repos, after) == if Flag(selected, r) then Selection(repos, selected) - {r}
                                 else Selection(repos, selected) + {r}
  {
  }

  class RepoPickerModel {
    var repos: seq<string>
    var selectedIndex: int
    var scrollOffset: int
    var selected: map<string, bool>
    var issueCounts: map<string, int>
    var isDoltMode: bool
    var width: int
    var height: int

    /** The cursor is on the list (or at 0 for an empty list), and the window starts at or above it. */
    predicate Valid()
      reads this
    {
      0 <= scrollOffset <= selectedIndex && selectedIndex < Max(|repos|, 1)
    }

    /** The cursor line is inside the scroll window. */
    predicate CursorVisible()
      reads this
    {
      selectedIndex < scrollOffset + VisibleHeight(height)
    }

    /** `NewRepoPickerModel`: a copy of the list, the cursor on the first line, every repository selected. */
    constructor (repoList: seq<string>)
      ensures repos == repoList && selectedIndex == 0 && scrollOffset == 0
      ensures selected == AllFlagged(repoList, true)
      ensures Selection(repos, selected) == set r | r in repoList
      ensures issueCounts == map[] && !isDoltMode && width == 0 && height == 0
      ensures Valid() && CursorVisible()
    {
      repos := repoList;
      selectedIndex := 0;
      scrollOffset := 0;
      issueCounts := map[];
      isDoltMode := false;
      width := 0;
      height := 0;
      var sel: map<string, bool> := map[];
      for i := 0 to |repoList|
        invariant sel == AllFlagged(repoList[..i], true)
      {
        assert forall r :: r in repoList[..i + 1] <==> r in repoList[..i] || r == repoList[i];
        sel := sel[repoList[i] := true];
      }
      assert repoList[..|repoList|] == repoList;
      selected := sel;
    }

    method SetSize(w: int, h: int)
      modifies this
      ensures width == w && height == h
      ensures repos == old(repos) && selectedIndex == old(selectedIndex) && scrollOffset == old(scrollOffset)
      ensures selected == old(selected) && issueCounts == old(issueCounts) && isDoltMode == old(isDoltMode)
    {
      width := w;
      height := h;
    }

    method SetIssueCounts(counts: map<string, int>)
      modifies this
      ensures issueCounts == counts
      ensures repos == old(repos) && selectedIndex == old(selectedIndex) && scrollOffset == old(scrollOffset)
      ensures selected == old(selected) && isDoltMode == old(isDoltMode) && width == old(width) && height == old(height)
    {
      issueCounts := counts;
    }

    method SetDoltMode(dolt: bool)
      modifies this
      ensures isDoltMode == dolt
      ensures repos == old(repos) && selectedIndex == old(selectedIndex) && scrollOffset == old(scrollOffset)
      ensures selected == old(selected) && issueCounts == old(issueCounts) && width == old(width) && height == old(height)
    {
      isDoltMode := dolt;
    }

    /**
     * `SetActiveRepos`: for an empty list nothing is selected; with no filter (`None`) every
     * repository is; otherwise exactly the listed repositories the filter marks.
     */
    method SetActiveRepos(active: Option<map<string, bool>>)
      modifies this
      ensures |repos| == 0 ==> selected == map[]
      ensures |repos| > 0 && active.None? ==> selected == AllFlagged(repos, true)
      ensures |repos| > 0 && active.Some? ==> selected == map r | r in repos && Flag(active.value, r) :: true
      ensures Selection(repos, selected) ==
              if active.None? then set r | r in repos else set r | r in repos && Flag(active.value, r)
      ensures repos == old(repos) && selectedIndex == old(selectedIndex) && scrollOffset == old(scrollOffset)
      ensures issueCounts == old(issueCounts) && isDoltMode == old(isDoltMode) && width == old(width) && height == old(height)
    {
      if |repos| == 0 {
        selected := map[];
        return;
      }
      var sel: map<string, bool> := map[];
      if active.None? {
        for i := 0 to |repos|
          invariant sel == AllFlagged(repos[..i], true)
        {
          assert forall r :: r in repos[..i + 1] <==> r in repos[..i] || r == repos[i];
          sel := sel[repos[i] := true];
        }
        assert repos[..|repos|] == repos;
        selected := sel;
        return;
      }
      for i := 0 to |repos|
        invariant sel == map r | r in repos[..i] && Flag(active.value, r) :: true
      {
        assert forall r :: r in repos[..i + 1] <==> r in repos[..i] || r == repos[i];
        if Flag(active.value, repos[i]) {
          sel := sel[repos[i] := true];
        }
      }
      assert repos[..|repos|] == repos;
      selected := sel;
    }

    /** `MoveUp`: one line up unless at the top; the window follows the cursor up. */
    method MoveUp()
      modifies this
      ensures selectedIndex == if old(selectedIndex) > 0 then old(selectedIndex) - 1 else old(selectedIndex)
      ensures scrollOffset == Min(old(scrollOffset), selectedIndex)
      ensures scrollOffset <= selectedIndex
      ensures old(Valid()) ==> Valid()
      ensures old(CursorVisible()) ==> CursorVisible()
      ensures repos == old(repos) && selected == old(selected) && height == old(height) && width == old(width)
      ensures issueCounts == old(issueCounts) && isDoltMode == old(isDoltMode)
    {
      if selectedIndex > 0 {
        selectedIndex := selectedIndex - 1;
      }
      if selectedIndex < scrollOffset {
        scrollOffset := selectedIndex;
      }
    }

    /** `MoveDown`: one line down unless at the bottom; the window follows the cursor down. */
    method MoveDown()
      modifies this
      ensures selectedIndex == if old(selectedIndex) < |repos| - 1 then old(selectedIndex) + 1 else old(selectedIndex)
      ensures scrollOffset ==
              if selectedIndex >= old(scrollOffset) + VisibleHeight(height) then selectedIndex - VisibleHeight(height) + 1
              else old(scrollOffset)
      ensures CursorVisible()
      ensures old(Valid()) ==> Valid()
      ensures repos == old(repos) && selected == old(selected) && height == old(height) && width == old(width)
      ensures issueCounts == old(issueCounts) && isDoltMode == old(isDoltMode)
    {
      if selectedIndex < |repos| - 1 {
        selectedIndex := selectedIndex + 1;
      }
      var vh := VisibleHeight(height);
      if selectedIndex >= scrollOffset + vh {
        scrollOffset := selectedIndex - vh + 1;
      }
    }

    /** `ToggleSelected`: flips the flag of the repository under the cursor; nothing for an empty list or a stray cursor. */
    method ToggleSelected()
      modifies this
      ensures 0 <= selectedIndex < |repos| ==>
        selected == old(selected)[repos[selectedIndex] := !Flag(old(selected), repos[selectedIndex])]
      ensures !(0 <= selectedIndex < |repos|) ==> selected == old(selected)
      ensures repos == old(repos) && selectedIndex == old(selectedIndex) && scrollOffset == old(scrollOffset)
      ensures issueCounts == old(issueCounts) && isDoltMode == old(isDoltMode) && width == old(width) && height == old(height)
    {
      if |repos| == 0 || selectedIndex < 0 || selectedIndex >= |repos| {
        return;
      }
      var r := repos[selectedIndex];
      selected := selected[r := !Flag(selected, r)];
    }

    /** `SelectAll`. */
    method SelectAll()
      modifies this
      ensures selected == old(selected) + AllFlagged(repos, true)
      ensures Selection(repos, selected) == set r | r in repos
      ensures repos == old(repos) && selectedIndex == old(selectedIndex) && scrollOffset == old(scrollOffset)
      ensures issueCounts == old(issueCounts) && isDoltMode == old(isDoltMode) && width == old(width) && height == old(height)
    {
      var rs := repos;
      for i := 0 to |rs|
        invariant repos == rs && selectedIndex == old(selectedIndex) && scrollOffset == old(scrollOffset)
        invariant issueCounts == old(issueCounts) && isDoltMode == old(isDoltMode)
        invariant width == old(width) && height == old(height)
        invariant selected == old(selected) + AllFlagged(rs[..i], true)
      {
        assert forall r :: r in rs[..i + 1] <==> r in rs[..i] || r == rs[i];
        selected := selected[rs[i] := true];
      }
      assert rs[..|rs|] == rs;
      SelectAllSelectsEvery(repos, old(selected));
    }

    /** `DeselectAll`. */
    method DeselectAll()
      modifies this
      ensures selected == old(selected) + AllFlagged(repos, false)
      ensures Selection(repos, selected) == {}
      ensures repos == old(repos) && selectedIndex == old(selectedIndex) && scrollOffset == old(scrollOffset)
      ensures issueCounts == old(issueCounts) && isDoltMode == old(isDoltMode) && width == old(width) && height == old(height)
    {
      var rs := repos;
      for i := 0 to |rs|
        invariant repos == rs && selectedIndex == old(selectedIndex) && scrollOffset == old(scrollOffset)
        invariant issueCounts == old(issueCounts) && isDoltMode == old(isDoltMode)
        invariant width == old(width) && height == old(height)
        invariant selected == old(selected) + AllFlagged(rs[..i], false)
      {
        assert forall r :: r in rs[..i + 1] <==> r in rs[..i] || r == rs[i];
        selected := selected[rs[i] := false];
      }
      assert rs[..|rs|] == rs;
      DeselectAllSelectsNone(repos, old(selected));
    }

    /** `SelectedRepos`: the listed repositories whose flag is set, each mapped to true. */
    method SelectedRepos() returns (out: map<string, bool>)
      ensures out.Keys == Selection(repos, selected)
      ensures forall r :: r in out ==> out[r]
    {
      out := map[];
      for i := 0 to |repos|
        invariant out.Keys == Selection(repos[..i], selected)
        invariant forall r :: r in out ==> out[r]
      {
        assert forall r :: r in repos[..i + 1] <==> r in repos[..i] || r == repos[i];
        if Flag(selected, repos[i]) {
          out := out[repos[i] := true];
        }
      }
      assert repos[..|repos|] == repos;
    }
  }
}
