/**
 * The review dialog for a triage branch: a cursor over the proposals with a scroll window,
 * and the accept/reject decision. Rendering is not modelled; the dialog's geometry is.
 */
module DiffModal {
  import opened Wrappers
  import opened RelatedText
  import opened TriageBranch

  /** The wire name of a change type, as stored in the `change_type` JSON field. */
  function ChangeTypeName(ct: ChangeType): string
  {
    match ct
    case ChangePriority => "priority"
    case ChangeStatus => "status"
    case ChangeLabel => "label_add"
    case ChangeLabelDel => "label_del"
    case ChangeDependency => "dependency_add"
  }

  /**
   * `changeTypeBadge`'s label, on the change type's wire name (the Go type is a string, so a
   * value outside the five constants is possible and shows as "???").
   */
  function BadgeLabel(ct: string): (badge: string)
    ensures |badge| == 3
    ensures badge == "???" <==> forall c: ChangeType :: ChangeTypeName(c) != ct
  {
    if ct == "priority" then assert ChangeTypeName(ChangePriority) == ct; "PRI"
    else if ct == "status" then assert ChangeTypeName(ChangeStatus) == ct; "STS"
    else if ct == "label_add" then assert ChangeTypeName(ChangeLabel) == ct; "LBL"
    else if ct == "label_del" then assert ChangeTypeName(ChangeLabelDel) == ct; "LBL"
    else if ct == "dependency_add" then assert ChangeTypeName(ChangeDependency) == ct; "DEP"
    else
      UnknownName(ct);
      "???"
  }

  /** A string other than the five wire names names no change type. */
  lemma UnknownName(ct: string)
    requires ct !in {"priority", "status", "label_add", "label_del", "dependency_add"}
    ensures forall c: ChangeType :: ChangeTypeName(c) != ct
  {
    forall c: ChangeType ensures ChangeTypeName(c) != ct {
      match c
      case ChangePriority =>
      case ChangeStatus =>
      case ChangeLabel =>
      case ChangeLabelDel =>
      case ChangeDependency =>
    }
  }

  /** Every change type has its own badge except the two label changes, which share one. */
  lemma BadgesDistinguishKinds(a: ChangeType, b: ChangeType)
    ensures BadgeLabel(ChangeTypeName(a)) == BadgeLabel(ChangeTypeName(b)) <==>
            a == b || ({a, b} == {ChangeLabel, ChangeLabelDel})
  {
    if BadgeLabel(ChangeTypeName(a)) == BadgeLabel(ChangeTypeName(b)) && a != b {
      match a
      case ChangeLabel => assert b == ChangeLabelDel;
      case ChangeLabelDel => assert b == ChangeLabel;
      case _ =>
    }
  }

  /** `visibleRows`: the height less fourteen lines of header, footer and border, but at least five. */
  function VisibleRows(height: int): (rows: int)
    ensures rows >= 5
    ensures rows == Max(height - 14, 5)
  {
    var avail := height - 14;
    if avail < 5 then 5 else avail
  }

  /** `SetSize`'s width: ten columns narrower than the terminal, kept between 60 and 90. */
  function ModalWidth(termWidth: int): (w: int)
    ensures 60 <= w <= 90
    ensures 70 <= termWidth <= 100 ==> w == termWidth - 10
    ensures termWidth < 70 ==> w == 60
    ensures termWidth > 100 ==> w == 90
  {
    var maxWidth := termWidth - 10;
    var atLeast := if maxWidth < 60 then 60 else maxWidth;
    if atLeast > 90 then 90 else atLeast
  }

  /** `CenterModal`'s margin on one axis: half the spare room, truncated, and none when there is none. */
  function CenterPad(term: int, modal: int): (pad: int)
    ensures pad >= 0
    ensures term <= modal ==> pad == 0
    ensures term > modal ==> 2 * pad <= term - modal <= 2 * pad + 1
  {
    var p := GoDiv(term - modal, 2);
    if p < 0 then 0 else p
  }

  /** A message delivered to `Update`: a key press by name, or anything else. */
  datatype Msg = KeyMsg(key: string) | OtherMsg

  class TriageDiffModal {
    var proposals: seq<ProposedChange>
    var diffs: seq<DiffEntry>
    var cursor: int
    var scrollOff: int
    var accepted: bool
    var rejected: bool
    var width: int
    var height: int

    /** The cursor is on a proposal (or at 0 for none), and the window starts at or above it. */
    predicate Valid()
      reads this
    {
      0 <= scrollOff <= cursor && cursor < Max(|proposals|, 1)
    }

    /** The cursor line is inside the scroll window. */
    predicate CursorVisible()
      reads this
    {
      cursor < scrollOff + VisibleRows(height)
    }

    /** `NewTriageDiffModal`: an 80 by 30 dialog, cursor on the first proposal, no decision yet. */
    constructor (branchProposals: seq<ProposedChange>, branchDiffs: seq<DiffEntry>)
      ensures proposals == branchProposals && diffs == branchDiffs
      ensures cursor == 0 && scrollOff == 0 && !accepted && !rejected
      ensures width == 80 && height == 30
      ensures Valid() && CursorVisible()
    {
      proposals := branchProposals;
      diffs := branchDiffs;
      cursor := 0;
      scrollOff := 0;
      accepted := false;
      rejected := false;
      width := 80;
      height := 30;
    }

    /**
     * `Update`: "up"/"k" and "down"/"j" move the cursor and drag the window along, "y"/"Y"
     * accepts, "n"/"N" rejects; every other key or message changes nothing. No key
     * withdraws a decision.
     */
    method Update(msg: Msg)
      modifies this
      ensures proposals == old(proposals) && diffs == old(diffs) && width == old(width) && height == old(height)
      ensures msg.KeyMsg? && msg.key in {"up", "k"} ==>
        cursor == (if old(cursor) > 0 then old(cursor) - 1 else old(cursor)) &&
        scrollOff == (if old(cursor) > 0 then Min(old(scrollOff), cursor) else old(scrollOff)) &&
        accepted == old(accepted) && rejected == old(rejected)
      ensures msg.KeyMsg? && msg.key in {"down", "j"} ==>
        cursor == (if old(cursor) < |proposals| - 1 then old(cursor) + 1 else old(cursor)) &&
        scrollOff == (if old(cursor) < |proposals| - 1 && cursor >= old(scrollOff) + VisibleRows(height)
                      then cursor - VisibleRows(height) + 1 else old(scrollOff)) &&
        accepted == old(accepted) && rejected == old(rejected)
      ensures msg.KeyMsg? && msg.key in {"up", "k"} && old(cursor) > 0 ==> scrollOff <= cursor
      ensures msg.KeyMsg? && msg.key in {"down", "j"} && old(cursor) < |proposals| - 1 ==> CursorVisible()
      ensures msg.KeyMsg? && msg.key in {"y", "Y"} ==>
        accepted && rejected == old(rejected) && cursor == old(cursor) && scrollOff == old(scrollOff)
      ensures msg.KeyMsg? && msg.key in {"n", "N"} ==>
        rejected && accepted == old(accepted) && cursor == old(cursor) && scrollOff == old(scrollOff)
      ensures (msg.OtherMsg? || msg.key !in {"up", "k", "down", "j", "y", "Y", "n", "N"}) ==>
        cursor == old(cursor) && scrollOff == old(scrollOff) && accepted == old(accepted) && rejected == old(rejected)
      ensures old(accepted) ==> accepted
      ensures old(rejected) ==> rejected
      ensures old(Valid()) ==> Valid()
      ensures old(CursorVisible()) ==> CursorVisible()
    {
      if msg.OtherMsg? {
        return;
      }
      var key := msg.key;
      if key == "up" || key == "k" {
        if cursor > 0 {
          cursor := cursor - 1;
          if cursor < scrollOff {
            scrollOff := cursor;
          }
        }
      } else if key == "down" || key == "j" {
        var max := |proposals| - 1;
        if cursor < max {
          cursor := cursor + 1;
          var visible := VisibleRows(height);
          if cursor >= scrollOff + visible {
            scrollOff := cursor - visible + 1;
          }
        }
      } else if key == "y" || key == "Y" {
        accepted := true;
      } else if key == "n" || key == "N" {
        rejected := true;
      }
    }

    /** `IsAccepted`. */
    function IsAccepted(): (r: bool)
      reads this
      ensures r <==> accepted
    {
      accepted
    }

    /** `IsRejected`. */
    function IsRejected(): (r: bool)
      reads this
      ensures r <==> rejected
    {
      rejected
    }

    /** `SetSize`: the width clamped for the dialog, the height as given. */
    method SetSize(termWidth: int, termHeight: int)
      modifies this
      ensures width == ModalWidth(termWidth) && height == termHeight
      ensures proposals == old(proposals) && diffs == old(diffs) && cursor == old(cursor)
      ensures scrollOff == old(scrollOff) && accepted == old(accepted) && rejected == old(rejected)
    {
      var maxWidth := termWidth - 10;
      if maxWidth < 60 {
        maxWidth := 60;
      }
      if maxWidth > 90 {
        maxWidth := 90;
      }
      width := maxWidth;
      height := termHeight;
    }
  }

  /** A sequence of key presses, applied one after another, keeps the cursor on the list. */
  method Replay(m: TriageDiffModal, msgs: seq<Msg>)
    requires m.Valid()
    modifies m
    ensures m.Valid()
    ensures m.proposals == old(m.proposals) && m.height == old(m.height)
    ensures |m.proposals| > 0 ==> 0 <= m.cursor < |m.proposals|
    ensures old(m.accepted) ==> m.accepted
    ensures old(m.rejected) ==> m.rejected
  {
    for i := 0 to |msgs|
      invariant m.Valid()
      invariant m.proposals == old(m.proposals) && m.height == old(m.height)
      invariant old(m.accepted) ==> m.accepted
      invariant old(m.rejected) ==> m.rejected
    {
      m.Update(msgs[i]);
    }
  }
}
