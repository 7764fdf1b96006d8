/** Failure-compatible wrappers shared by every module of the model.

    The scraper signals every failure by raising a Python exception, and the
    page loop catches all of them alike.  `Result` carries the exception kind
    so that a caller can tell which step failed. */
module Wrappers {

  /** The exception kinds the modelled code can raise. */
  datatype Error =
    | ValueError          // int() on a string that is not a decimal numeral
    | OverflowError       // datetime arithmetic below 0001-01-01 00:00
    | ZeroDivisionError   // attention score of a subject with no posts
    | KeyError(key: string)  // a field the payload does not carry
    | FetchError          // the network call itself failed

  datatype Option<+T> = None | Some(value: T) {
    predicate IsFailure() {
      None?
    }

    function PropagateFailure<U>(): Option<U>
      requires None?
    {
      None
    }

    function Extract(): T
      requires Some?
    {
      value
    }
  }

  datatype Result<+T> = Success(value: T) | Failure(error: Error) {
    predicate IsFailure() {
      Failure?
    }

    function PropagateFailure<U>(): Result<U>
      requires Failure?
    {
      Failure(error)
    }

    function Extract(): T
      requires Success?
    {
      value
    }
  }
}
