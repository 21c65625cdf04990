/**
 * `catchError`, the controllers' own error-to-response mapping.  Unlike the
 * middleware it has no special case for validation errors.
 */
module CatchError {
  import opened Errors
  import ErrorHandler

  /** The response `catchError(error, res)` sends. */
  function CatchError(err: Thrown): (r: Response)
    ensures err.Base? ==>
      && r.status == err.error.statusCode
      && r.body.Keys == {"message"} + (if Truthy(err.error.data) then {"data"} else {})
      && r.body["message"] == Str(err.error.message)
      && ("data" in r.body ==> r.body["data"] == err.error.data)
    ensures err.Plain? ==> r == Response(500, map["message" := Str("Unexpected error occurred")])
  {
    match err
    case Base(e) =>
      Response(e.statusCode, map["message" := Str(e.message)] + (if Truthy(e.data) then map["data" := e.data] else map[]))
    case Plain(_) =>
      Response(500, map["message" := Str("Unexpected error occurred")])
  }

  /**
   * The two mappings disagree on an error whose message is "VALIDATION_ERROR" but
   * whose status is not 422: the middleware answers 422 with `errors`, catchError
   * keeps the error's own status and puts the payload under `data`.
   */
  lemma {:induction false} CatchErrorHasNoValidationCase(e: BaseError)
    requires e.message == "VALIDATION_ERROR" && e.statusCode != 422 && Truthy(e.data)
    ensures CatchError(Base(e)).status == e.statusCode != ErrorHandler.Handle(Base(e)).status
    ensures "data" in CatchError(Base(e)).body && "errors" !in CatchError(Base(e)).body
    ensures "errors" in ErrorHandler.Handle(Base(e)).body && "data" !in ErrorHandler.Handle(Base(e)).body
  {
    assert e.data != Undefined;
  }
}
