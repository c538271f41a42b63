/** Optional values, the engine's error codes, and results that carry one. */
module Outcomes {

  datatype Option<T> = None | Some(value: T)

  datatype Error =
    | ConfigurationError | ModelLoadError | InferenceError | InvalidImage | ProviderError
    | Cancelled | TimedOut | ResourceExhausted | InternalError

  datatype Result<T> = Success(value: T) | Failure(error: Error) {
    predicate IsFailure() {
      Failure?
    }

    function PropagateFailure<U>(): Result<U>
      requires Failure?
    {
      Failure(error)
    }

    function Extract(): T
      requires Success?
    {
      value
    }
  }
}
