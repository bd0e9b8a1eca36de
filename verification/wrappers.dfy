/** Optional values (a request field that may be undefined) and the outcome of an HTTP handler. */
module Wrappers {

  /** A value that may be absent: an undefined field of a request body or query. */
  datatype Option<+T> = None | Some(value: T) {

    /** The value, or `default` when absent: JavaScript's `x ?? default` for an undefined `x`. */
    function GetOr(default: T): T {
      match this
      case Some(v) => v
      case None => default
    }
  }

  /** What an Express handler answers: a JSON body (200/201) or one of the error statuses. */
  datatype Response<+T> = Ok(value: T) | BadRequest | NotFound | ServerError
}
