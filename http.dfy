/** The exceptions the handlers distinguish and the HTTP error responses they
    turn into. */
module Http {
  import opened Wrappers

  /** A Python exception, by the class the handlers test for, with its text. */
  datatype Raised =
    | ValueError(message: string)
    | TypeError(message: string)
    | AttributeError(message: string)

  /** An `HTTPException`: status code, `detail`, and the `Retry-After` header
      when one is sent. */
  datatype HttpError = HttpError(status: int, detail: string, retryAfter: Option<string>)

  function Error(status: int, detail: string): HttpError {
    HttpError(status, detail, None)
  }

  /** An exception no handler catches: the server answers 500. */
  const InternalError: HttpError := HttpError(500, "Internal Server Error", None)
}
