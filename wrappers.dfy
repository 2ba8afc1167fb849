/** Optional values and success-or-failure outcomes shared by the models. */
module Wrappers {

  /** A value that may be absent; stands for a nullable Java reference or an Optional. */
  datatype Option<+T> = None | Some(value: T)

  /** The outcome of an operation that either returns a value or throws. */
  datatype Result<+R, +E> = Success(value: R) | Failure(error: E)
}
