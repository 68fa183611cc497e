/** Failure values shared by the modules. */
module Prelude {
  datatype Option<+T> = None | Some(value: T)

  datatype Result<+T, +E> = Success(value: T) | Failure(error: E) {
    predicate IsFailure() {
      Failure?
    }

    function PropagateFailure<U>(): Result<U, E>
      requires Failure?
    {
      Failure(error)
    }

    function Extract(): T
      requires Success?
    {
      value
    }
  }

  /** The HTTP exceptions the services raise. */
  datatype Error =
    | BadRequest
    | NotFound
    | Conflict
    | Unprocessable
}
