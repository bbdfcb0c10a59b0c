/** Option and Result values standing for the source's std::optional and its exceptions. */
module Wrappers {
  datatype Option<+T> = None | Some(value: T)

  datatype Result<+T, +E> = Success(value: T) | Failure(error: E) {
    predicate IsFailure() { Failure? }

    function PropagateFailure<U>(): Result<U, E>
      requires Failure?
    {
      Result.Failure(error)
    }

    function Extract(): T
      requires Success?
    {
      value
    }
  }
}
