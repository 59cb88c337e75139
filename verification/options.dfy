/** Failure-compatible result types used throughout the model.
    `Option` stands for the C++ "bool return plus out-parameter" idiom: `None`
    means the function returned false and left its output untouched.
    `Result` stands for an operation that may abort with `CV_Error`. */
module Options {

  datatype Option<+T> = None | Some(value: T) {

    predicate IsFailure() {
      None?
    }

    function PropagateFailure<U>(): Option<U>
      requires None?
    {
      None
    }

    function Extract(): T
      requires Some?
    {
      value
    }

    /** The value of a C++ out-parameter after the call: written on success,
        left as `prior` otherwise. */
    function GetOr(prior: T): T {
      match this
      case Some(v) => v
      case None => prior
    }

    function ToResult<E>(error: E): Result<T, E> {
      match this
      case Some(v) => Success(v)
      case None => Failure(error)
    }
  }

  datatype Result<+R, +E> = Success(value: R) | Failure(error: E) {

    predicate IsFailure() {
      Failure?
    }

    function PropagateFailure<U>(): Result<U, E>
      requires Failure?
    {
      Failure(error)
    }

    function Extract(): R
      requires Success?
    {
      value
    }
  }
}
