/** The error-or-value shape that Go expresses as a `(value, error)` pair. */
module Wrappers {

  /** A Go `error`, kept as its message. */
  type Error = string

  datatype Result<+T> = Success(value: T) | Failure(error: Error)
}
