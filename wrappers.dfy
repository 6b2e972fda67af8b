/** Failure-compatible wrappers used for JavaScript's `undefined` and for
    rejected promises / thrown errors. */
module Wrappers {

  datatype Option<+T> = None | Some(value: T)

  datatype Result<+T, +E> = Success(value: T) | Failure(error: E)
}
