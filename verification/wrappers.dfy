/** Failure-carrying datatypes standing in for Go's (value, error) return pairs. */
module Wrappers {

  /** An optional value: Go's nil pointer or nil error is None. */
  datatype Option<+T> = None | Some(value: T)

  /** A value or an error: Go's `(v, nil)` is Success(v), `(_, err)` is Failure(err). */
  datatype Result<+R, +E> = Success(value: R) | Failure(error: E)
}
