/** The two failure-carrying shapes the model uses: an optional value and a
    value-or-error result. */
module Wrappers {

  /** A value that may be missing, as `findIndex` returning -1 or `find`
      returning `undefined`. */
  datatype Option<+T> = None | Some(value: T)

  /** Either the value a route answers with, or the error it responds with. */
  datatype Result<+T, +E> = Success(value: T) | Failure(error: E)
}
