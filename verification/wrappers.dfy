/** Failure-carrying datatypes shared by the model. The script never catches an
    exception: every failure aborts the run, which `Failure` stands for here. */
module Wrappers {

  datatype Option<+T> = None | Some(value: T)

  datatype Result<+R, +E> = Success(value: R) | Failure(error: E)

  /** Why a run of the script stops early. Each alternative is an exception the
      script lets propagate. */
  datatype Fault =
    | MissingField(field: string)          // a search document lacks a field that is read
    | LinksUnavailable(caseNumber: string) // the per-case bug-link request fails
    | BugUnavailable(bugRef: string)       // the bug tracker cannot find a linked bug
}
