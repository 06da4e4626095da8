/** Failure-carrying values used in place of Python's `None` results and
    FastAPI's `HTTPException`. */
module Outcomes {

  /** A row handle or a value that may be absent (Python's `None`). */
  datatype Option<+T> = None | Some(value: T)

  /** Why an operation was refused.
      - `Http(status, detail)` is an `HTTPException` raised by the service;
      - `Integrity(column)` is the storage engine rejecting a commit that would
        break the unique constraint on `column` (an unhandled error in the
        service, so the request ends with status 500). */
  datatype Failure = Http(status: int, detail: string) | Integrity(column: string)

  /** The outcome of a service call: its return value, or the failure it raised. */
  datatype Result<+T> = Ok(value: T) | Err(error: Failure)

  const BadRequest := 400
  const Unauthorized := 401
  const NotFound := 404
}
