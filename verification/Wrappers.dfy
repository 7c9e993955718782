/** Success and failure values shared by the wire modules. */
module Wrappers {

  datatype Option<+T> = None | Some(value: T)

  /** The errors the wire code tells apart; `Other` stands for a plain Go error without a type id. */
  datatype Error =
    | EndOfFile
    | NegativeSize
    | SizeLimit
    | DepthLimit
    | InvalidData
    | BadVersion
    | NotImplemented
    | InvalidTransform
    | Other

  /** A Go result paired with an error: `Ok` when the error is nil. */
  datatype Result<+T> = Ok(value: T) | Err(error: Error) {
    predicate IsFailure() {
      Err?
    }

    function PropagateFailure<U>(): Result<U>
      requires Err?
    {
      Err(error)
    }

    function Extract(): T
      requires Ok?
    {
      value
    }
  }

  /** A lone Go error: `Pass` when it is nil. */
  datatype Outcome = Pass | Fail(error: Error) {
    predicate IsFailure() {
      Fail?
    }

    function PropagateFailure(): Outcome
      requires Fail?
    {
      this
    }
  }
}
