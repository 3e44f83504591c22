/** The bug tracker as the script sees it through its client library: each bug
    has an id and an internal whiteboard, and `getbug` resolves the bug number
    listed on a case to the bug it names. */
module Tracker {
  import opened Wrappers

  type BugId = nat

  /** Every bug the tracker holds: id to internal whiteboard. */
  type Whiteboards = map<BugId, string>

  /** How `getbug` resolves a bug number as a case lists it (a string) to a
      bug id. A number missing here is one the tracker rejects. */
  type Directory = map<string, BugId>

  /** A fetched bug: the fields of the client's bug object the script reads. */
  datatype Bug = Bug(id: BugId, whiteboard: string)

  /** `getbug(ref)`: fails, aborting the run, unless the number resolves to a
      bug the tracker holds. */
  function GetBug(ref: string, dir: Directory, wbs: Whiteboards): (r: Result<Bug, Fault>)
    ensures r.Success? <==> Resolves(ref, dir, wbs)
    ensures r.Success? ==> r.value.id == dir[ref] && r.value.whiteboard == wbs[r.value.id]
    ensures r.Failure? ==> r.error == BugUnavailable(ref)
  {
    if ref in dir && dir[ref] in wbs then Success(Bug(dir[ref], wbs[dir[ref]]))
    else Failure(BugUnavailable(ref))
  }

  /** `getbug` succeeds on this number. */
  predicate Resolves(ref: string, dir: Directory, wbs: Whiteboards) {
    ref in dir && dir[ref] in wbs
  }
}
