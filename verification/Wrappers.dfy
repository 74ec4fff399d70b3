/** The two result shapes the models share: a value that may be absent (Go's `nil` or
    `, ok` pair) and a call that may fail with a reason. */
module Wrappers {
  datatype Option<+T> = None | Some(value: T)

  datatype Result<+T, +E> = Success(value: T) | Failure(error: E)
}
