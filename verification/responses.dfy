/** Outcomes of a request handler: an optional value, the HTTP error codes the
    handlers answer with, and a result that is either the new state or one of
    those codes. */
module Responses {

  /** A value that may be absent, such as a per-user document not yet created. */
  datatype Option<+T> = None | Some(value: T) {

    /** The wrapped value, or `default` when there is none. */
    function GetOr(default: T): T {
      match this
      case Some(v) => v
      case None => default
    }
  }

  /** The error statuses the modelled handlers respond with: 400, 401, 404
      and 500 in that order. */
  datatype Code = BadRequest | Unauthorized | NotFound | ServerError

  /** A handler's answer: the new item list (or record) on success, or an error code. */
  datatype Result<+T> = Ok(value: T) | Err(code: Code)
}
