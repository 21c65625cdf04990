/**
 * The Express error middleware: maps whatever reached `next(error)` to exactly one
 * HTTP response.
 */
module ErrorHandler {
  import opened Wrappers
  import opened Errors
  import ValidationErrors

  /** The response `errorHandler` sends for `err`. */
  function Handle(err: Thrown): (r: Response)
    ensures err.Base? && err.error.message == "VALIDATION_ERROR" ==>
      && r.status == 422 && r.body.Keys == {"message"} + (if err.error.data == Undefined then {} else {"errors"})
      && r.body["message"] == Str("VALIDATION_ERROR")
      && ("errors" in r.body ==> r.body["errors"] == err.error.data)
    ensures err.Base? && err.error.message != "VALIDATION_ERROR" ==>
      r == Response(err.error.statusCode, map["status" := Num(err.error.statusCode), "message" := Str(err.error.message)])
    ensures err.Plain? ==>
      r == Response(500, map["status" := Num(500), "message" := Str("Internal Server Error")])
  {
    match err
    case Base(e) =>
      if e.message == "VALIDATION_ERROR" then
        // `errors: err.data` disappears from the JSON when the payload is undefined
        Response(422, map["message" := Str("VALIDATION_ERROR")] + (if e.data == Undefined then map[] else map["errors" := e.data]))
      else
        Response(e.statusCode, map["status" := Num(e.statusCode), "message" := Str(e.message)])
    case Plain(_) =>
      Response(500, map["status" := Num(500), "message" := Str("Internal Server Error")])
  }

  /** A subclass error with its own message gets its class's status code and its message. */
  lemma {:induction false} HandleKeepsClassStatus(c: ErrorClass, message: string)
    requires message != "VALIDATION_ERROR"
    ensures Handle(Base(New(c, Some(message)))).status == StatusOf(c)
    ensures Handle(Base(New(c, Some(message)))).body["message"] == Str(message)
  {
  }

  /** The 422 branch is chosen by the message alone: even a NotFound error whose message is "VALIDATION_ERROR" is answered with 422. */
  lemma ValidationMessageOverridesStatus()
    ensures Handle(Base(New(NotFoundError, Some("VALIDATION_ERROR")))).status == 422
  {
  }

  /** Every `ValidationError` built from class-validator findings takes the 422 branch, with the constraint messages under `errors`. */
  lemma {:induction false} ValidationErrorResponse(findings: seq<ValidationErrors.Finding>)
    ensures Handle(Base(ValidationErrors.ValidationError(findings))) ==
      Response(422, map["message" := Str("VALIDATION_ERROR"), "errors" := Strings(ValidationErrors.ConstraintMessages(findings))])
  {
    var e := ValidationErrors.ValidationError(findings);
    assert e.data != Undefined;
    assert map["message" := Str("VALIDATION_ERROR")] + map["errors" := e.data]
        == map["message" := Str("VALIDATION_ERROR"), "errors" := e.data];
  }
}
