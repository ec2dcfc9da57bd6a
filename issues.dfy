/**
 * The issue ("bead") records shared by the analysis, triage and export code.
 * Timestamps are whole seconds; the time zone and clock are not modelled.
 */
module Issues {
  import opened Wrappers

  datatype Dependency = Dependency(issueID: string, dependsOnID: string, depType: string)

  datatype Issue = Issue(
    id: string,
    title: string,
    description: string,
    status: string,
    priority: int,
    issueType: string,
    assignee: string,
    labels: seq<string>,
    deps: seq<Dependency>,
    createdAt: int,
    updatedAt: int,
    closedAt: Option<int>)

  const StatusClosed: string := "closed"
  const StatusOpen: string := "open"
  const StatusInProgress: string := "in_progress"
  const StatusDeferred: string := "deferred"
  const StatusPinned: string := "pinned"
  const DepBlocks: string := "blocks"

  /** An issue lookup table built by keying every issue with its own ID. */
  predicate WellKeyed(m: map<string, Issue>)
  {
    forall k :: k in m ==> m[k].id == k
  }

  predicate IsOpenIn(m: map<string, Issue>, id: string)
  {
    id in m && m[id].status != StatusClosed
  }
}
