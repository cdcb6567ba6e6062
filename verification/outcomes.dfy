/** Failure-carrying results of the request handlers.
    The handlers raise HTTP errors; here an error is a value. */
module Outcomes {

  /** The HTTP errors the modelled handlers and schemas can produce. */
  datatype Error =
    | NotFound         // 404: the addressed post or user does not exist
    | Forbidden        // 403: the acting user does not own the post
    | ValidationError  // 422: a request body violates its schema

  /** A value that may be absent, as a query's `.first()` may return None. */
  datatype Option<T> = None | Some(value: T)

  datatype Result<+T> = Ok(value: T) | Err(error: Error)
}
