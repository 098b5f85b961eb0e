/** Results and optional values, shared by every module. */
module Outcomes {

  datatype Option<+T> = None | Some(value: T)

  /** Why an archiver operation stopped. `Io` stands for any failure of the disk underneath. */
  datatype Error =
    | Io
    | Corrupt
    | IndexTooLarge
    | NotAJournal
    | MissingFamily
    | NotAStore
    | Unstamped
    | PartialStamp
    | WrongIdentity
    | UnknownVersion

  datatype Result<+T> = Ok(value: T) | Err(error: Error) {

    predicate IsFailure() {
      Err?
    }

    function PropagateFailure<U>(): Result<U>
      requires Err?
    {
      Err(error)
    }

    function Extract(): T
      requires Ok?
    {
      value
    }
  }
}
