/** Result carriers for the library's non-exceptional "no value" and its thrown errors. */
module Wrappers {

  /** `None` stands for JavaScript's `undefined` returned as "no value". */
  datatype Option<+T> = None | Some(value: T)

  /** `Failure` stands for an exception thrown by the call. */
  datatype Result<+R, +E> = Success(value: R) | Failure(error: E)
}
