/** The user controller: `create` registers a user and sends a mail, `login`
    looks up the password hash for an email and checks the password. The
    lookups and the mail transport are parameters. */
module UserController {
  import opened Common
  import opened Responses
  import opened UserModel

  const EmailDoesNotExist := "Email does not exist"
  const CheckCredentials := "Please check your email/password again"
  const WelcomeSubject := "test subject"
  const WelcomeHtml := "test html email content"

  /** The reply helper a handler calls, with its argument, or none; or the
      handler throws, and the exception escapes to the framework. */
  datatype Reply =
    | NotFoundReply(error: JsError)
    | ServerErrorReply(error: JsError)
    | SuccessReply(data: Json)
    | NoReply
    | Thrown(error: JsError)

  /** The response a reply produces; None when no reply is sent. */
  function Render(r: Reply): (res: Option<Result<Response, JsError>>)
    ensures r.NoReply? <==> res.None?
    ensures r.NotFoundReply? ==> res == Some(Success(NotFound(Some(r.error))))
    ensures r.ServerErrorReply? ==> res == Some(ServerError(Some(r.error)))
    ensures r.SuccessReply? ==> res == Some(Success(Responses.SuccessReply(Some(r.data))))
    ensures r.Thrown? ==> res == Some(Failure(r.error))
  {
    match r
    case NotFoundReply(e) => Some(Success(NotFound(Some(e))))
    case ServerErrorReply(e) => Some(ServerError(Some(e)))
    case SuccessReply(data) => Some(Success(Responses.SuccessReply(Some(data))))
    case NoReply => None
    case Thrown(e) => Some(Failure(e))
  }

  /** `login(request, reply)`: `lookup` is how `findPasswordHashByEmail`
      settles, or None when the model does not define it, in which case the
      call throws before any promise exists; `isPasswordCorrect` is the
      model's password check, None when undefined, which makes the call throw
      inside the promise chain, where `.catch` answers it. */
  function Login(password: string, lookup: Option<Result<Option<string>, JsError>>,
                 isPasswordCorrect: Option<(string, string) -> bool>): (r: Reply)
    ensures lookup.None? <==> r.Thrown?
    ensures r.Thrown? ==> r.error.name == "TypeError"
    ensures lookup.Some? && lookup.value.Failure? ==> r == ServerErrorReply(lookup.value.error)
    ensures lookup.Some? && lookup.value.Success? && (lookup.value.value.None? || lookup.value.value.value == "") ==>
      r == NotFoundReply(NewError(EmailDoesNotExist))
    ensures lookup.Some? && lookup.value.Success? && lookup.value.value.Some? && lookup.value.value.value != ""
            && isPasswordCorrect.Some? && !isPasswordCorrect.value(password, lookup.value.value.value) ==>
      r == ServerErrorReply(NewError(CheckCredentials))
    ensures lookup.Some? && lookup.value.Success? && lookup.value.value.Some? && lookup.value.value.value != ""
            && isPasswordCorrect.None? ==>
      r.ServerErrorReply? && r.error.name == "TypeError"
    ensures r == NoReply <==> lookup.Some? && lookup.value.Success? && lookup.value.value.Some?
                              && lookup.value.value.value != "" && isPasswordCorrect.Some?
                              && isPasswordCorrect.value(password, lookup.value.value.value)
    ensures !r.SuccessReply?
  {
    match lookup
    case None => Thrown(NewTypeError("UserModel.findPasswordHashByEmail is not a function"))
    case Some(Failure(e)) => ServerErrorReply(e)
    case Some(Success(hash)) =>
      if hash.None? || hash.value == "" then NotFoundReply(NewError(EmailDoesNotExist))
      else if isPasswordCorrect.None? then ServerErrorReply(NewTypeError("UserModel.isPasswordCorrect is not a function"))
      else if !isPasswordCorrect.value(password, hash.value) then ServerErrorReply(NewError(CheckCredentials))
      else NoReply
  }

  /** An unknown email gets a 404 with its message; a wrong password gets a
      500 whose message is hidden. */
  lemma LoginReplies(password: string, hash: string, check: (string, string) -> bool)
    requires hash != "" && !check(password, hash)
    ensures Render(Login(password, Some(Success(None)), Some(check)))
         == Some(Success(Response(404, ErrorEnvelope(EmailDoesNotExist))))
    ensures Render(Login(password, Some(Success(Some(hash))), Some(check)))
         == Some(Success(Response(500, ErrorEnvelope("Internal Server Error"))))
  {
  }

  /** With the User model's `validate` as the password check, the password a
      user registered with, checked against its stored hash, leads to no
      error reply. */
  lemma RegisteredPasswordAccepted(bcrypt: Bcrypt, password: string, salt: string)
    requires Sound(bcrypt) && Hash(bcrypt, password, salt) != ""
    ensures Login(password, Some(Success(Some(Hash(bcrypt, password, salt)))),
                  Some((p: string, h: string) => Validate(bcrypt, p, h))) == NoReply
  {
  }

  /** With the model as it ships, `findPasswordHashByEmail` is undefined:
      every login throws a TypeError out of the handler, whatever the
      password, and no reply helper answers it. */
  lemma ShippedLoginThrows(password: string, isPasswordCorrect: Option<(string, string) -> bool>)
    ensures var r := Login(password, None, isPasswordCorrect);
      r.Thrown? && r.error.name == "TypeError" && Render(r) == Some(Failure(r.error))
  {
  }

  /** A registration without an email is answered with the first not-null
      violation as the message of a 500. */
  lemma MissingEmailReply(e: JsError, username: Option<string>)
    requires e.name == SequelizeValidationError && e.errors == NullViolations(None, username)
    ensures Render(ServerErrorReply(e)) == Some(Success(Response(500, ErrorEnvelope("email cannot be null"))))
  {
  }

  /** `services.mailer.send(payload)`: a payload without a recipient is
      refused before the transport is used. */
  function SendMail(transport: MailMessage -> Result<(), JsError>, m: MailMessage): (r: Result<(), JsError>)
    ensures m.to == "" ==> r == Failure(NewError("To is required"))
    ensures m.to != "" ==> r == transport(m)
  {
    if m.to == "" then Failure(NewError("To is required")) else transport(m)
  }

  /** `create(request, reply)`: creates the user, then mails the address of
      the payload, then replies `success({id})`. A failure of either step is
      passed to serverError; a user created before a mail failure stays. */
  method Create(users: UserTable, email: Option<string>, username: Option<string>, password: string,
                bcrypt: Bcrypt, salt: string, transport: MailMessage -> Result<(), JsError>)
    returns (reply: Reply, mail: Option<MailMessage>)
    requires users.Valid()
    modifies users
    ensures users.Valid()
    ensures mail.Some? <==> email.Some? && username.Some?
    ensures mail.Some? ==> mail.value == MailMessage(email.value, WelcomeSubject, WelcomeHtml)
    ensures mail.None? ==> users.nextId == old(users.nextId)
    ensures mail.Some? ==> users.nextId == old(users.nextId) + 1
    ensures mail.None? ==> users.rows == old(users.rows) && reply.ServerErrorReply?
                           && reply.error.name == SequelizeValidationError
                           && reply.error.errors == NullViolations(email, username)
    ensures mail.Some? ==> users.rows == old(users.rows) + [UserRow(old(users.nextId), email.value, username.value,
                                                                    Hash(bcrypt, password, salt), false)]
    ensures mail.Some? && SendMail(transport, mail.value).Failure? ==>
      reply == ServerErrorReply(SendMail(transport, mail.value).error)
    ensures reply.SuccessReply? <==> mail.Some? && SendMail(transport, mail.value).Success?
    ensures reply.SuccessReply? ==> reply.data == JObj(map["id" := JNum(old(users.nextId))])
  {
    var created := users.CreateNewUser(email, username, password, bcrypt, salt);
    if created.Failure? {
      return ServerErrorReply(created.error), None;
    }
    var m := MailMessage(email.value, WelcomeSubject, WelcomeHtml);
    mail := Some(m);
    var sent := SendMail(transport, m);
    if sent.Failure? {
      reply := ServerErrorReply(sent.error);
    } else {
      reply := SuccessReply(JObj(map["id" := JNum(created.value.id)]));
    }
  }
}
