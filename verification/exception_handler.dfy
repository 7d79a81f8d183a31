/** The controller advice every service installs: it turns the three
    exception kinds into an HTTP status and a structured error body. */
module ExceptionHandler {
  import opened Wrappers
  import opened Errors

  const BAD_REQUEST: int := 400
  const NOT_FOUND: int := 404
  const UNPROCESSABLE_ENTITY: int := 422

  /** The status and body sent back for a handled exception. */
  datatype ErrorResponse = ErrorResponse(status: int, body: HttpErrorInfo)

  /** `createHttpErrorInfo`: the body carries the status, the request path
      within the application, and the exception's message. */
  function CreateHttpErrorInfo(status: int, path: string, message: string): (info: HttpErrorInfo)
    ensures info.status == status && info.path == path && info.message == message
  {
    HttpErrorInfo(status, path, message)
  }

  /** The exceptions this advice has a handler for. */
  predicate Handled(e: Error) {
    e.BadRequest? || e.InvalidInput? || e.NotFound?
  }

  /** The response for `e` on a request for `path`, `None` when no handler of
      this advice matches `e`. */
  function Handle(e: Error, path: string): (r: Option<ErrorResponse>)
    ensures r.Some? <==> Handled(e)
    ensures e.BadRequest? ==> r.value.status == BAD_REQUEST
    ensures e.InvalidInput? ==> r.value.status == UNPROCESSABLE_ENTITY
    ensures e.NotFound? ==> r.value.status == NOT_FOUND
    ensures r.Some? ==> r.value.body == HttpErrorInfo(r.value.status, path, e.message)
  {
    match e
    case BadRequest(m) => Some(ErrorResponse(BAD_REQUEST, CreateHttpErrorInfo(BAD_REQUEST, path, m)))
    case InvalidInput(m) =>
      Some(ErrorResponse(UNPROCESSABLE_ENTITY, CreateHttpErrorInfo(UNPROCESSABLE_ENTITY, path, m)))
    case NotFound(m) => Some(ErrorResponse(NOT_FOUND, CreateHttpErrorInfo(NOT_FOUND, path, m)))
    case _ => None
  }

  /** Different handled kinds get different statuses, so the status alone
      tells a client which kind was thrown. */
  lemma StatusDeterminesKind(e1: Error, e2: Error, path1: string, path2: string)
    requires Handled(e1) && Handled(e2)
    requires Handle(e1, path1).value.status == Handle(e2, path2).value.status
    ensures e1.BadRequest? == e2.BadRequest?
    ensures e1.InvalidInput? == e2.InvalidInput?
    ensures e1.NotFound? == e2.NotFound?
  {
  }
}
