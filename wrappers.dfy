/** Success/failure carriers shared by every module of the model.
    A Python exception raised by the source becomes a `Failure` (or `Fail`)
    carrying a value that names the exception. */
module Wrappers {

  datatype Option<+T> = None | Some(value: T)

  datatype Result<+R, +E> = Success(value: R) | Failure(error: E)
  {
    predicate IsFailure() {
      Failure?
    }

    function PropagateFailure<U>(): Result<U, E>
      requires Failure?
    {
      Failure(this.error)
    }

    function Extract(): R
      requires Success?
    {
      value
    }
  }

  /** The outcome of a validation that either passes or throws. */
  datatype Outcome<+E> = Pass | Fail(error: E)
}
