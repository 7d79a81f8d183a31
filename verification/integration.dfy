/** The composite's client for the three backends. A backend reply is what
    the REST client hands back: a body (`None` when the body is null) or the
    exception it raised; JSON decoding and URL building are not modelled. */
module Integration {
  import opened Wrappers
  import opened Text
  import opened Api
  import opened Errors
  import ExceptionHandler

  /** What the REST client returns for a request: a possibly-null body, or
      the exception it raised. */
  type Reply<T> = Result<Option<T>, Error>

  /** The 4xx codes Spring's `HttpStatus` enum has a constant for, so that
      `HttpStatus.resolve` returns non-null. 419-421 are deprecated constants. */
  predicate IsKnownClientStatus(code: int) {
    (400 <= code <= 426) || code == 428 || code == 429 || code == 431 || code == 451
  }

  /** `getErrorMessage`: the `message` of the error body when the body parses,
      else the exception's own message. */
  function ErrorMessage(body: Option<HttpErrorInfo>, text: string): (m: string)
    ensures body.Some? ==> m == body.value.message
    ensures body.None? ==> m == text
  {
    match body
    case Some(info) => info.message
    case None => text
  }

  /** The status switch of `getProduct` as written: `switch` over
      `HttpStatus.resolve(code)`, which is null for a code the enum lacks,
      and switching on null throws a `NullPointerException`. */
  function TranslateClientErrorAsWritten(ex: Error): (r: Error)
    requires ex.ClientError?
    ensures !IsKnownClientStatus(ex.status) ==> r == NullPointer
    ensures IsKnownClientStatus(ex.status) ==> r == TranslateClientError(ex)
  {
    if !IsKnownClientStatus(ex.status) then NullPointer
    else if ex.status == ExceptionHandler.NOT_FOUND then NotFound(ErrorMessage(ex.body, ex.text))
    else if ex.status == ExceptionHandler.UNPROCESSABLE_ENTITY then InvalidInput(ErrorMessage(ex.body, ex.text))
    else ex
  }

  /** The status switch as intended: 404 becomes `NotFound`, 422 becomes
      `InvalidInput`, each with the extracted message, and every other client
      error is rethrown as it is. */
  function TranslateClientError(ex: Error): (r: Error)
    requires ex.ClientError?
    ensures ex.status == ExceptionHandler.NOT_FOUND ==> r == NotFound(ErrorMessage(ex.body, ex.text))
    ensures ex.status == ExceptionHandler.UNPROCESSABLE_ENTITY ==> r == InvalidInput(ErrorMessage(ex.body, ex.text))
    ensures ex.status != ExceptionHandler.NOT_FOUND && ex.status != ExceptionHandler.UNPROCESSABLE_ENTITY ==> r == ex
  {
    if ex.status == ExceptionHandler.NOT_FOUND then NotFound(ErrorMessage(ex.body, ex.text))
    else if ex.status == ExceptionHandler.UNPROCESSABLE_ENTITY then InvalidInput(ErrorMessage(ex.body, ex.text))
    else ex
  }

  /** The switch as written fails on a client error whose code Spring does
      not know: a 499 reply is not rethrown but becomes a null dereference. */
  lemma UnknownStatusIsNotRethrown(body: Option<HttpErrorInfo>, text: string)
    ensures TranslateClientErrorAsWritten(ClientError(499, body, text)) == NullPointer
    ensures TranslateClientError(ClientError(499, body, text)) == ClientError(499, body, text)
  {
  }

  /** On every code Spring knows, the switch as written is the intended one. */
  lemma AsWrittenAgreesOnKnownStatus(ex: Error)
    requires ex.ClientError? && IsKnownClientStatus(ex.status)
    ensures TranslateClientErrorAsWritten(ex) == TranslateClientError(ex)
  {
  }

  /** `getProduct`: a body is returned; a null body is dereferenced for
      logging and throws; a client error is translated; any other exception
      passes through uncaught. */
  function GetProduct(reply: Reply<Product>): (r: Result<Product, Error>)
    ensures reply.Success? && reply.value.Some? ==> r == Success(reply.value.value)
    ensures reply == Success(None) ==> r == Failure(NullPointer)
    ensures reply.Failure? && reply.error.ClientError? ==> r == Failure(TranslateClientError(reply.error))
    ensures reply.Failure? && !reply.error.ClientError? ==> r == Failure(reply.error)
  {
    match reply
    case Success(Some(p)) => Success(p)
    case Success(None) => Failure(NullPointer)
    case Failure(ex) =>
      if ex.ClientError? then Failure(TranslateClientError(ex)) else Failure(ex)
  }

  /** `getRecommendations`: never fails. The backend's list is returned as it
      is; any exception, and a null body (dereferenced for logging), gives the
      empty list. */
  function GetRecommendations(reply: Reply<seq<Recommendation>>): (r: seq<Recommendation>)
    ensures reply.Success? && reply.value.Some? ==> r == reply.value.value
    ensures reply.Failure? || reply.value.None? ==> r == []
  {
    match reply
    case Success(Some(rs)) => rs
    case _ => []
  }

  /** `getReviews`: never fails, with the same policy as `GetRecommendations`. */
  function GetReviews(reply: Reply<seq<Review>>): (r: seq<Review>)
    ensures reply.Success? && reply.value.Some? ==> r == reply.value.value
    ensures reply.Failure? || reply.value.None? ==> r == []
  {
    match reply
    case Success(Some(rs)) => rs
    case _ => []
  }

  const NotYetImplemented: Error := NotImplemented("Not yet implemented")

  /** The unfinished write stubs: each throws `NotImplementedException`. */
  function CreateProduct(product: Product): (r: Result<Product, Error>)
    ensures r.Failure? && r.error.NotImplemented?
  {
    Failure(NotYetImplemented)
  }

  function DeleteProduct(productId: Int32): (r: Outcome<Error>)
    ensures r.Fail? && r.error.NotImplemented?
  {
    Fail(NotYetImplemented)
  }

  function CreateRecommendation(recommendation: Recommendation): (r: Result<Recommendation, Error>)
    ensures r.Failure? && r.error.NotImplemented?
  {
    Failure(NotYetImplemented)
  }

  function DeleteRecommendations(productId: Int32): (r: Outcome<Error>)
    ensures r.Fail? && r.error.NotImplemented?
  {
    Fail(NotYetImplemented)
  }

  /** What the REST client sees when a backend answered `result` on `path`:
      a success carries its body; a handled exception arrives as a client
      error with the advice's status and a parseable body; an exception the
      advice does not handle arrives as a server error. The client
      exception's own text is modelled only as the status code. */
  function Remote<T>(result: Result<T, Error>, path: string): (r: Reply<T>)
    ensures result.Success? ==> r == Success(Some(result.value))
    ensures result.Failure? && ExceptionHandler.Handled(result.error) ==>
              var resp := ExceptionHandler.Handle(result.error, path).value;
              r == Failure(ClientError(resp.status, Some(resp.body), IntToString(resp.status)))
    ensures result.Failure? && !ExceptionHandler.Handled(result.error) ==> r.Failure? && r.error.Unexpected?
  {
    match result
    case Success(v) => Success(Some(v))
    case Failure(e) =>
      match ExceptionHandler.Handle(e, path)
      case Some(resp) => Failure(ClientError(resp.status, Some(resp.body), IntToString(resp.status)))
      case None => Failure(Unexpected("500"))
  }

  /** Translation undoes the advice for the two kinds it maps back: a
      `NotFound` or `InvalidInput` thrown by a backend is the exception the
      composite sees, message included; without a parseable body the kind
      still survives. */
  lemma HandlerRoundTrip(e: Error, path: string, text: string)
    requires e.NotFound? || e.InvalidInput?
    ensures var resp := ExceptionHandler.Handle(e, path).value;
            && TranslateClientError(ClientError(resp.status, Some(resp.body), text)) == e
            && TranslateClientError(ClientError(resp.status, None, text)).NotFound? == e.NotFound?
            && TranslateClientError(ClientError(resp.status, None, text)).InvalidInput? == e.InvalidInput?
  {
  }

  /** A `BadRequest` is not mapped back: its 400 reply is rethrown as the
      client error itself. */
  lemma BadRequestNotInverted(e: Error, path: string, text: string)
    requires e.BadRequest?
    ensures var resp := ExceptionHandler.Handle(e, path).value;
            var ex := ClientError(resp.status, Some(resp.body), text);
            TranslateClientError(ex) == ex
  {
  }

  /** Through the advice and the client, a backend's `NotFound` or
      `InvalidInput` for a product read reaches the composite unchanged, and a
      backend's product reaches it as it was sent. */
  lemma GetProductOverHttp(result: Result<Product, Error>, path: string)
    requires result.Success? || result.error.NotFound? || result.error.InvalidInput?
    ensures GetProduct(Remote(result, path)) == result
  {
    if result.Failure? {
      HandlerRoundTrip(result.error, path, IntToString(ExceptionHandler.Handle(result.error, path).value.status));
    }
  }
}
