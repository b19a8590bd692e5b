/**
 * FastAPI's `HTTPException` as a value, the failure-compatible results that
 * carry it, and the error kinds the OpenAI client raises.
 */
module Http {

  /** An `HTTPException(status_code, detail)`. */
  datatype HttpError = HttpError(status: int, detail: string)

  /** A value, the `HTTPException` raised instead of returning it, or another
      exception (an `IndexError`, say), which the route's own handler turns
      into a 500 response. */
  datatype Result<+T> = Success(value: T) | Failure(error: HttpError) | Crash {
    predicate IsFailure() { !Success? }

    function PropagateFailure<U>(): Result<U>
      requires !Success?
    {
      if Failure? then Failure(error) else Crash
    }

    function Extract(): T
      requires Success?
    {
      value
    }
  }

  /** An operation that returns nothing, or raises. */
  datatype Outcome = Pass | Fail(error: HttpError) {
    predicate IsFailure() { Fail? }

    function PropagateFailure<U>(): Result<U>
      requires Fail?
    {
      Failure(error)
    }
  }

  /** The exceptions of the OpenAI client the services tell apart:
      `RateLimitError`, `AuthenticationError`, and any other exception. */
  datatype ApiError = RateLimited | AuthenticationFailed | OtherFailure
}
