/**
 * `BaseError` and its subclasses: an HTTP status code, a message and an optional
 * payload, with the JSON view `toJSON` gives of them.  Errors that are not
 * `BaseError`s (a plain JavaScript `Error`) are `Thrown.Plain`.
 */
module Errors {
  import opened Wrappers

  /** A JavaScript value, as far as the core inspects one. */
  datatype Value =
    | Undefined
    | Null
    | Bool(b: bool)
    | Num(n: int)
    | Str(s: string)
    | Strings(items: seq<string>)  // an array of strings

  /** JavaScript truthiness: `undefined`, `null`, `false`, `0` and `""` are falsy; every array is truthy. */
  predicate Truthy(v: Value) {
    match v
    case Undefined => false
    case Null => false
    case Bool(b) => b
    case Num(n) => n != 0
    case Str(s) => s != ""
    case Strings(_) => true
  }

  /** A JSON object, as `res.json` sends it: keys mapped to values (keys whose value is `undefined` are left out). */
  type Body = map<string, Value>

  /** An HTTP response: a status code and a JSON body. */
  datatype Response = Response(status: int, body: Body)

  /** The subclasses of `BaseError`; only `ValidationError` carries a payload. */
  datatype ErrorClass =
    | BadRequestError
    | NotFoundError
    | UnauthorizedError
    | ForbiddenError
    | ConflictError
    | ValidationError(data: Value)
    | InternalServerError

  datatype BaseError = BaseError(statusCode: int, message: string, data: Value)

  /** What a `throw` can raise in the core: a `BaseError`, or an ordinary `Error` with its message. */
  datatype Thrown = Base(error: BaseError) | Plain(message: string) {
    function Message(): string {
      match this
      case Base(e) => e.message
      case Plain(m) => m
    }
  }

  function StatusOf(c: ErrorClass): int {
    match c
    case BadRequestError => 400
    case NotFoundError => 404
    case UnauthorizedError => 401
    case ForbiddenError => 403
    case ConflictError => 409
    case ValidationError(_) => 422
    case InternalServerError => 500
  }

  function DefaultMessage(c: ErrorClass): string {
    match c
    case BadRequestError => "Bad Request"
    case NotFoundError => "Resource Not Found"
    case UnauthorizedError => "Unauthorized"
    case ForbiddenError => "Forbidden"
    case ConflictError => "Conflict error"
    case ValidationError(_) => "VALIDATION_ERROR"
    case InternalServerError => "Internal Server Error"
  }

  /** The error class a status code identifies; a reference reading of `StatusOf`. */
  function ClassOfStatus(code: int): (r: Option<ErrorClass>)
    ensures r.Some? ==> StatusOf(r.value) == code && !r.value.ValidationError?
    ensures r.None? ==> forall c :: StatusOf(c) == code ==> c.ValidationError?
  {
    if code == 400 then Some(BadRequestError)
    else if code == 404 then Some(NotFoundError)
    else if code == 401 then Some(UnauthorizedError)
    else if code == 403 then Some(ForbiddenError)
    else if code == 409 then Some(ConflictError)
    else if code == 500 then Some(InternalServerError)
    else None
  }

  /** Distinct error classes other than `ValidationError` have distinct status codes. */
  lemma {:induction false} StatusOfDeterminesClass(c: ErrorClass)
    requires !c.ValidationError?
    ensures ClassOfStatus(StatusOf(c)) == Some(c)
  {
    match c
    case BadRequestError =>
    case NotFoundError =>
    case UnauthorizedError =>
    case ForbiddenError =>
    case ConflictError =>
    case InternalServerError =>
  }

  /** `new C(message?)`: the class's status, the given message or the class default, and the payload only for `ValidationError`. */
  function New(c: ErrorClass, message: Option<string>): (e: BaseError)
    ensures e.statusCode == StatusOf(c)
    ensures message.Some? ==> e.message == message.value
    ensures message.None? ==> e.message == DefaultMessage(c)
    ensures e.data == if c.ValidationError? then c.data else Undefined
  {
    BaseError(StatusOf(c), message.GetOr(DefaultMessage(c)), if c.ValidationError? then c.data else Undefined)
  }

  function BadRequest(message: string): Thrown {
    Base(New(BadRequestError, Some(message)))
  }

  function NotFound(message: string): Thrown {
    Base(New(NotFoundError, Some(message)))
  }

  function Conflict(message: string): Thrown {
    Base(New(ConflictError, Some(message)))
  }

  function InternalServer(message: string): Thrown {
    Base(New(InternalServerError, Some(message)))
  }

  /** `toJSON()`: `status` and `message` always, `data` only when it is truthy. */
  function ToJson(e: BaseError): (b: Body)
    ensures b.Keys == {"status", "message"} + (if Truthy(e.data) then {"data"} else {})
    ensures b["status"] == Num(e.statusCode) && b["message"] == Str(e.message)
    ensures "data" in b ==> b["data"] == e.data
  {
    map["status" := Num(e.statusCode), "message" := Str(e.message)]
      + (if Truthy(e.data) then map["data" := e.data] else map[])
  }

  /** Only a `ValidationError` built with a truthy payload shows `data` in its JSON. */
  lemma {:induction false} ToJsonDataOnlyForValidation(c: ErrorClass, message: Option<string>)
    ensures "data" in ToJson(New(c, message)) <==> c.ValidationError? && Truthy(c.data)
  {
    var e := New(c, message);
    if !c.ValidationError? {
      assert e.data == Undefined;
    }
  }
}
