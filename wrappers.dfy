/** Optional values and HTTP-style handler responses shared by every module. */
module Wrappers {

  /** A value that may be absent: a request-body field left undefined, a null reference. */
  datatype Option<+T> = None | Some(value: T) {
    function GetOr(default: T): T {
      match this
      case Some(v) => v
      case None => default
    }
  }

  /** The outcome of a call that may fail instead of producing a value. */
  datatype Result<+T, +E> = Success(value: T) | Failure(error: E)

  /** What a handler sends back: a success status with a body, or an error status. */
  datatype Response<+T> = Ok(code: int, value: T) | Err(code: int)

  const OK := 200
  const CREATED := 201
  const BAD_REQUEST := 400
  const FORBIDDEN := 403
  const NOT_FOUND := 404
  const SERVER_ERROR := 500
}
