/**
 * Explicit success/failure values standing in for the ValueError exceptions
 * the tracker raises: every error carries the exception's message text.
 */
module Outcomes {

  /** A computed value, or the message of the error that stopped the computation. */
  datatype Result<+T> = Ok(value: T) | Err(error: string) {
    predicate IsFailure() { Err? }

    function PropagateFailure<U>(): Result<U>
      requires Err?
    {
      Err(error)
    }

    function Extract(): T
      requires Ok?
    {
      value
    }
  }

  /** The outcome of a check that returns nothing when it passes. */
  datatype Check = Pass | Fail(error: string) {
    predicate IsFailure() { Fail? }

    function PropagateFailure<U>(): Result<U>
      requires Fail?
    {
      Err(error)
    }
  }

  /** An optional value: a dictionary key that may be absent. */
  datatype Option<+T> = None | Some(value: T) {
    function GetOr(default: T): T {
      match this
      case Some(v) => v
      case None => default
    }
  }
}
