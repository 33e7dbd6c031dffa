/** Optional values, failure-carrying results and the outcome of a call into
    an external backend. */
module Wrappers {

  /** Python's `Optional[T]`: `None` or a value. */
  datatype Option<+T> = None | Some(value: T)

  /** An HTTP error as raised through `HTTPException(status_code, detail)`. */
  datatype HttpError = HttpError(status: nat, detail: string)

  /** The result of a step that either returns a value or raises an `HTTPException`. */
  datatype Outcome<+T> = Ok(value: T) | Err(error: HttpError)

  /** What a call into code outside the model does: it returns a value, or it
      raises an exception whose `str()` is `message`. */
  datatype Backend<+T> = Returned(value: T) | Raised(message: string)
}
