/** Failure-carrying result types shared by the calendar, the reference parser
    and the plan resolver. Each supports Dafny's `:-` propagation. */
module Wrappers {

  /** An optional value: a Go pointer that may be nil. */
  datatype Option<+T> = None | Some(value: T)

  /** A value or an error, like Go's `(T, error)` return pair. */
  datatype Result<+T, +E> = Success(value: T) | Failure(error: E) {
    predicate IsFailure() {
      Failure?
    }

    function PropagateFailure<U>(): Result<U, E>
      requires Failure?
    {
      Failure(error)
    }

    function Extract(): T
      requires Success?
    {
      value
    }
  }

  /** No value, only success or an error: a Go function returning just `error`. */
  datatype Outcome<+E> = Pass | Fail(error: E) {
    predicate IsFailure() {
      Fail?
    }

    function PropagateFailure(): Outcome<E>
      requires Fail?
    {
      this
    }
  }
}
