module Wrappers {
  /** A part that may be missing. */
  datatype Option<+T> = None | Some(value: T)

  /** What an operation returns: a value, or an error. */
  datatype Result<+T> = Ok(value: T) | Error {
    predicate IsFailure() {
      Error?
    }

    function PropagateFailure<U>(): Result<U>
      requires Error?
    {
      Error
    }

    function Extract(): T
      requires Ok?
    {
      value
    }
  }
}
