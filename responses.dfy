/** The reply helpers `success`, `badRequest`, `unauthorized`, `notFound` and
    `serverError`: each picks a message (or passes the data through) and a
    status code. */
module Responses {
  import opened Common

  /** A response body: the error envelope `{error: {message}}`, or data as it is. */
  datatype Body = ErrorEnvelope(message: string) | Data(data: Json)

  datatype Response = Response(status: nat, body: Body)

  const SequelizeValidationError := "SequelizeValidationError"

  /** The message `unauthorized` and `notFound` choose: the Boom payload's
      message, else the error's own message when non-empty, else the default.
      A missing argument defaults to `{}`. */
  function MessageOf(data: Option<JsError>, default: string): (m: string)
    ensures data.None? ==> m == default
    ensures data.Some? && data.value.boom.Some? ==> m == data.value.boom.value
    ensures data.Some? && data.value.boom.None? && data.value.message != "" ==> m == data.value.message
    ensures data.Some? && data.value.boom.None? && data.value.message == "" ==> m == default
  {
    match data
    case None => default
    case Some(e) =>
      if e.boom.Some? then e.boom.value
      else if e.message != "" then e.message
      else default
  }

  /** `unauthorized(data)` */
  function Unauthorized(data: Option<JsError>): (r: Response)
    ensures r.status == 401
    ensures r.body == ErrorEnvelope(MessageOf(data, "Unauthorized"))
  {
    Response(401, ErrorEnvelope(MessageOf(data, "Unauthorized")))
  }

  /** `notFound(data)` */
  function NotFound(data: Option<JsError>): (r: Response)
    ensures r.status == 404
    ensures r.body == ErrorEnvelope(MessageOf(data, "Not Found"))
  {
    Response(404, ErrorEnvelope(MessageOf(data, "Not Found")))
  }

  /** `badRequest(data)`: only a Boom error's message is used; the message of
      any other error is ignored. */
  function BadRequest(data: Option<JsError>): (r: Response)
    ensures r.status == 400
    ensures r.body.ErrorEnvelope?
    ensures data.Some? && data.value.boom.Some? ==> r.body.message == data.value.boom.value
    ensures !(data.Some? && data.value.boom.Some?) ==> r.body.message == "Bad Request"
  {
    var message := if data.Some? && data.value.boom.Some? then data.value.boom.value else "Bad Request";
    Response(400, ErrorEnvelope(message))
  }

  /** `serverError(data)`: a Sequelize validation error shows the message of
      its first item; every other error is hidden behind "Internal Server
      Error". A validation error without items makes `errors[0].message`
      throw, which is the Failure case. */
  function ServerError(data: Option<JsError>): (r: Result<Response, JsError>)
    ensures r.Failure? <==> data.Some? && data.value.name == SequelizeValidationError && data.value.errors == []
    ensures r.Success? ==> r.value.status == 500 && r.value.body.ErrorEnvelope?
    ensures r.Success? && data.Some? && data.value.name == SequelizeValidationError ==>
      r.value.body.message == data.value.errors[0]
    ensures !(data.Some? && data.value.name == SequelizeValidationError) ==>
      r == Success(Response(500, ErrorEnvelope("Internal Server Error")))
  {
    if data.Some? && data.value.name == SequelizeValidationError then
      if data.value.errors == [] then
        Failure(NewTypeError("Cannot read property 'message' of undefined"))
      else Success(Response(500, ErrorEnvelope(data.value.errors[0])))
    else Success(Response(500, ErrorEnvelope("Internal Server Error")))
  }

  /** `success(data)`: the data unchanged with status 200; no data gives `{}`. */
  function SuccessReply(data: Option<Json>): (r: Response)
    ensures r.status == 200
    ensures data.Some? ==> r.body == Data(data.value)
    ensures data.None? ==> r.body == Data(JObj(map[]))
  {
    Response(200, Data(if data.Some? then data.value else JObj(map[])))
  }

  /** The message of an error helper's envelope is always taken from its
      argument or is the helper's fixed default; nothing else can appear. */
  lemma ErrorMessageOrigin(data: Option<JsError>, default: string)
    ensures var m := MessageOf(data, default);
      m == default || (data.Some? && (m == data.value.message || data.value.boom == Some(m)))
  {
  }

  /** badRequest drops a plain error's message where unauthorized and
      notFound keep it (the reply helper tests expect "Bad Request Message"). */
  lemma BadRequestIgnoresPlainMessage(msg: string)
    requires msg != "" && msg != "Bad Request"
    ensures BadRequest(Some(NewError(msg))).body.message != msg
    ensures Unauthorized(Some(NewError(msg))).body.message == msg
    ensures NotFound(Some(NewError(msg))).body.message == msg
  {
  }

  /** serverError never shows a plain error's own message. */
  lemma ServerErrorHidesPlainMessage(e: JsError)
    requires e.name != SequelizeValidationError
    ensures ServerError(Some(e)) == Success(Response(500, ErrorEnvelope("Internal Server Error")))
  {
  }
}
