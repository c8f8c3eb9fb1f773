/** Optional values and fallible results, as used throughout the model. */
module Wrappers {

  datatype Option<+T> = None | Some(value: T)

  /** The outcome of an operation that the Ruby code either completes or aborts with a raise. */
  datatype Result<+R, +E> = Success(value: R) | Failure(error: E)
}
