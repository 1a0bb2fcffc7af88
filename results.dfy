/** Optional values and success-or-error results, shared by every module of the model. */
module Results {

  /** A field that may be unset; the unset state is distinct from the empty string. */
  datatype Option<+T> = None | Some(value: T) {

    /** The value when set, `default` otherwise. */
    function GetOr(default: T): T {
      if Some? then value else default
    }
  }

  /** The outcome of an operation that can fail with an error of type E. */
  datatype Result<+T, +E> = Success(value: T) | Failure(error: E) {

    predicate IsFailure() {
      Failure?
    }

    function PropagateFailure<U>(): Result<U, E>
      requires Failure?
    {
      Failure(error)
    }

    function Extract(): T
      requires Success?
    {
      value
    }
  }
}
