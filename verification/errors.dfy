/** The exception kinds that travel between the services, and the structured
    error body (`HttpErrorInfo`) the services answer with. */
module Errors {
  import opened Wrappers

  /** The JSON error body a service returns with a failure status. The
      timestamp it also carries is not modelled. */
  datatype HttpErrorInfo = HttpErrorInfo(status: int, path: string, message: string)

  /** Every exception the model lets propagate. */
  datatype Error =
      /** `NotFoundException`: the requested entity is absent. */
    | NotFound(message: string)
      /** `InvalidInputException`: a bad id or a duplicate key. */
    | InvalidInput(message: string)
      /** `BadRequestException`. */
    | BadRequest(message: string)
      /** commons-lang `NotImplementedException` of the unfinished write stubs. */
    | NotImplemented(message: string)
      /** `HttpClientErrorException`: a 4xx reply seen by the REST client.
          `body` is the reply body once parsed as an `HttpErrorInfo` (`None`
          when it does not parse); `text` is the exception's own message. */
    | ClientError(status: int, body: Option<HttpErrorInfo>, text: string)
      /** `NullPointerException`, raised where the code dereferences null. */
    | NullPointer
      /** Any other failure: a 5xx reply, a transport error, a timeout. */
    | Unexpected(message: string)
}
