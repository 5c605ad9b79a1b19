/** Optional values and handler replies shared by every module of the model. */
module Wrappers {

  /** A value that may be absent (JavaScript `undefined` / `null`). */
  datatype Option<+T> = None | Some(value: T)

  /** What an HTTP handler answers: a result, or the HTTP status of the error body it sends. */
  datatype Response<+T> = Ok(value: T) | Fail(status: nat)
}
