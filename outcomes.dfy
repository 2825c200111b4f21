/** Optional values, results, and the two ways a request can end in failure:
    an HTTP error raised on purpose, or an exception nobody catches (a 500). */
module Outcomes {

  datatype Option<+T> = None | Some(value: T)

  datatype Result<+T, +E> = Success(value: T) | Failure(error: E)

  /** Failure of a request handler. `HttpError` is an `HTTPException` raised by the
      code; `ServerError` is an exception that escapes the handler (KeyError,
      AttributeError, a database error) and becomes an internal server error. */
  datatype ApiError =
    | HttpError(status: nat, detail: string)
    | ServerError(cause: string)
}
