/** The shape of what a route sends back. */
module Http {

  /** A route either answers with Express's default status 200 and a JSON body,
      or sets an error status and answers `{ error: message }`. */
  datatype Response<+B> = Ok(body: B) | Failure(status: int, error: string)
  {
    /** The HTTP status code the client sees. */
    function Status(): int {
      if Ok? then 200 else status
    }
  }
}
