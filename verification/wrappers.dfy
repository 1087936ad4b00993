/** Failure-carrying datatypes shared by every module of the model. Go's
    `(value, error)` returns become `Result`, a bare `error` return becomes
    `Outcome`, and a nil pointer or SQL NULL becomes `None`. */
module Wrappers {

  datatype Option<+T> = None | Some(value: T) {
    function GetOr(default: T): T {
      match this
      case Some(v) => v
      case None => default
    }
  }

  datatype Result<+T, +E> = Success(value: T) | Failure(error: E) {
    predicate IsFailure() {
      Failure?
    }

    function PropagateFailure<U>(): Result<U, E>
      requires Failure?
    {
      Failure(error)
    }

    function Extract(): T
      requires Success?
    {
      value
    }
  }

  /** The result of an operation that returns only an `error`. */
  datatype Outcome<+E> = Pass | Fail(error: E)
}
