/** The `bearer-access-token` scheme of `libs/plugins/auth/token.js`: the
    Authorization header is split on whitespace, its first piece must be
    `Bearer` in any case, the second piece goes to the validator, and the
    validator's answer becomes a 401, a 500 or a continuation with
    credentials. */
module AuthToken {
  import opened Common
  import opened Strings
  import opened Responses
  import opened AccessTokens

  const TokenType := "Bearer"
  const TokenRequired := "An access token is required to request this resource."
  const InvalidToken := "Invalid access token"
  const TokenExpired := "Token is expired"
  const BadTokenString := "Bad token string received for Bearer auth validation"

  /** What `authenticate` does with the request: `reply.unauthorized(error)`,
      `reply.serverError(error)` or `reply.continue({credentials})`; or it
      throws, and the exception escapes to the framework. */
  datatype Outcome<+C> =
    | Unauthorized(error: JsError)
    | ServerError(error: JsError)
    | Continue(credentials: C)
    | Thrown(error: JsError)

  /** The header checks: None when the header is missing or empty or its
      first piece is not the bearer scheme; otherwise the token handed to the
      validator, which is the second piece, or undefined (None) when there is
      none. */
  function Bearer(authorization: Option<string>): (r: Option<Option<string>>)
    ensures authorization.None? || authorization.value == "" ==> r.None?
    ensures r.Some? ==> authorization.Some? && EqualIgnoringCase(Split(authorization.value)[0], TokenType)
    ensures r.Some? && |Split(authorization.value)| >= 2 ==> r.value == Some(Split(authorization.value)[1])
    ensures r.Some? && |Split(authorization.value)| < 2 ==> r.value.None?
    ensures authorization.Some? && authorization.value != "" && EqualIgnoringCase(Split(authorization.value)[0], TokenType) ==>
      r.Some?
  {
    if authorization.None? || authorization.value == "" then None
    else
      var parts := Split(authorization.value);
      if ToLower(parts[0]) != ToLower(TokenType) then None
      else if |parts| >= 2 then Some(Some(parts[1]))
      else Some(None)
  }

  /** The callback `authenticate` passes to the validator. */
  function OnValidated<C>(cb: Callback<C>): (o: Outcome<C>)
    ensures cb.CbError? ==> o == ServerError(cb.error)
    ensures cb.CbResult? && !Truthy(cb.result.isValid) ==> o == Unauthorized(NewError(InvalidToken))
    ensures cb.CbResult? && Truthy(cb.result.isValid) && Truthy(cb.result.isExpired) ==>
      o == Unauthorized(NewError(TokenExpired))
    ensures cb.CbResult? && Truthy(cb.result.isValid) && !Truthy(cb.result.isExpired) && !cb.result.credentials.CredObject? ==>
      o == ServerError(NewError(BadTokenString))
    ensures o.Continue? <==> cb.CbResult? && Truthy(cb.result.isValid) && !Truthy(cb.result.isExpired)
                             && cb.result.credentials.CredObject?
    ensures o.Continue? ==> o.credentials == cb.result.credentials.obj
  {
    match cb
    case CbError(e) => ServerError(e)
    case CbResult(res) =>
      if !Truthy(res.isValid) then Unauthorized(NewError(InvalidToken))
      else if Truthy(res.isExpired) then Unauthorized(NewError(TokenExpired))
      else if !res.credentials.CredObject? then ServerError(NewError(BadTokenString))
      else Continue(res.credentials.obj)
  }

  /** `authenticate(request, reply)` with `options.validateFunc` as
      `validate`. */
  function Authenticate<C>(authorization: Option<string>, validate: Option<string> -> Callback<C>): (o: Outcome<C>)
    ensures Bearer(authorization).None? <==> o == Unauthorized(NewError(TokenRequired))
    ensures Bearer(authorization).Some? ==> o == OnValidated(validate(Bearer(authorization).value))
  {
    match Bearer(authorization)
    case None => Unauthorized(NewError(TokenRequired))
    case Some(token) => OnValidated(validate(token))
  }

  /** The reply each outcome sends: none for a continuation; an exception
      that escapes is left to the framework (the Failure case). */
  function Render<C>(o: Outcome<C>): (r: Option<Result<Response, JsError>>)
    ensures o.Continue? <==> r.None?
    ensures o.Unauthorized? ==> r == Some(Success(Responses.Unauthorized(Some(o.error))))
    ensures o.ServerError? ==> r == Some(Responses.ServerError(Some(o.error)))
    ensures o.Thrown? ==> r == Some(Failure(o.error))
  {
    match o
    case Unauthorized(e) => Some(Success(Responses.Unauthorized(Some(e))))
    case ServerError(e) => Some(Responses.ServerError(Some(e)))
    case Continue(_) => None
    case Thrown(e) => Some(Failure(e))
  }

  /** A request without an Authorization header gets a 401 whose message asks
      for an access token; the validator is not consulted. */
  lemma MissingHeaderIs401<C>(validate: Option<string> -> Callback<C>)
    ensures Render(Authenticate(None, validate)) == Some(Success(Response(401, ErrorEnvelope(TokenRequired))))
  {
  }

  /** Every rejection of the gate is a 401 that carries its own message, and
      every internal failure other than a Sequelize validation error is a
      500 that hides its message. */
  lemma RejectionsRender<C>(o: Outcome<C>)
    ensures o.Unauthorized? && o.error.boom.None? && o.error.message != "" ==>
      Render(o) == Some(Success(Response(401, ErrorEnvelope(o.error.message))))
    ensures o.ServerError? && o.error.name != SequelizeValidationError ==>
      Render(o) == Some(Success(Response(500, ErrorEnvelope("Internal Server Error"))))
  {
  }

  /** A scheme word that equals `Bearer` up to case, then whitespace, then a
      token: the validator receives exactly that token. */
  lemma {:induction false} BearerHeader(scheme: string, sep: string, token: string)
    requires NoWhitespace(scheme) && EqualIgnoringCase(scheme, TokenType)
    requires |sep| > 0 && AllWhitespace(sep)
    requires token != [] && NoWhitespace(token)
    ensures Bearer(Some(scheme + sep + token)) == Some(Some(token))
  {
    SplitWord(scheme, sep, token);
    SplitOfWord(token);
  }

  /** Pieces after the token are ignored. */
  lemma {:induction false} ExtraPartsIgnored(scheme: string, sep: string, token: string, sep2: string, rest: string)
    requires NoWhitespace(scheme) && EqualIgnoringCase(scheme, TokenType)
    requires |sep| > 0 && AllWhitespace(sep) && |sep2| > 0 && AllWhitespace(sep2)
    requires token != [] && NoWhitespace(token)
    requires rest == [] || !IsWhitespace(rest[0])
    ensures Bearer(Some(scheme + sep + token + sep2 + rest)) == Some(Some(token))
  {
    FirstTwoPieces(scheme, sep, token, sep2, rest);
  }

  /** The scheme alone passes the header checks with an undefined token. */
  lemma SchemeOnly(scheme: string)
    requires NoWhitespace(scheme) && EqualIgnoringCase(scheme, TokenType)
    ensures Bearer(Some(scheme)) == Some(None)
  {
    SplitOfWord(scheme);
  }

  /** The scheme followed only by whitespace passes the header checks with
      the empty string as its token. */
  lemma {:induction false} TrailingWhitespaceGivesEmptyToken(scheme: string, sep: string)
    requires NoWhitespace(scheme) && EqualIgnoringCase(scheme, TokenType)
    requires |sep| > 0 && AllWhitespace(sep)
    ensures Bearer(Some(scheme + sep)) == Some(Some(""))
  {
    SplitWord(scheme, sep, "");
    assert scheme + sep + "" == scheme + sep;
    assert WordLength("") == 0;
  }

  /** A header that starts with whitespace has an empty first piece and is
      refused. */
  lemma LeadingWhitespaceRejected(h: string)
    requires |h| > 0 && IsWhitespace(h[0])
    ensures Bearer(Some(h)).None?
  {
    SplitLeadingWhitespace(h);
  }

  /** Any other scheme word is refused, whatever follows it. */
  lemma {:induction false} OtherSchemeRejected(scheme: string, rest: string)
    requires NoWhitespace(scheme) && !EqualIgnoringCase(scheme, TokenType)
    requires rest == [] || IsWhitespace(rest[0])
    ensures Bearer(Some(scheme + rest)).None?
  {
    WordLengthOfWord(scheme, rest);
    var h := scheme + rest;
    assert h[..|scheme|] == scheme;
  }

  /** `validateAccessToken(token, callback)` of this plugin, after
      `findByToken` has settled with `lookup`. `validate` is the model's
      `validate(tokenRecord)`, None when the model does not define it. */
  function ValidateAccessToken(lookup: Result<Option<Joined>, JsError>, validate: Option<Option<Joined> -> Verdict>)
    : (cb: Callback<Credentials>)
    ensures lookup.Failure? ==> cb == CbError(lookup.error)
    ensures lookup.Success? && validate.None? ==> cb.CbError? && cb.error.name == "TypeError"
    ensures lookup.Success? && validate.Some? && !Truthy(validate.value(lookup.value).isValid) ==>
      cb == CbResult(AuthResult(Some(false), None, NoCredentials))
    ensures lookup.Success? && validate.Some? && Truthy(validate.value(lookup.value).isValid)
            && Truthy(validate.value(lookup.value).isExpired) ==>
      cb == CbResult(AuthResult(Some(true), Some(true), NoCredentials))
    ensures cb.CbResult? && cb.result.credentials.CredObject? <==>
      lookup.Success? && validate.Some? && lookup.value.Some? && Truthy(validate.value(lookup.value).isValid)
      && !Truthy(validate.value(lookup.value).isExpired)
    ensures cb.CbResult? && cb.result.credentials.CredObject? ==>
      cb.result == AuthResult(Some(true), Some(false), CredObject(Credentials(lookup.value.value.user)))
    ensures lookup.Success? && validate.Some? && lookup.value.None? && Truthy(validate.value(lookup.value).isValid)
            && !Truthy(validate.value(lookup.value).isExpired) ==>
      cb.CbError? && cb.error.name == "TypeError"
  {
    match lookup
    case Failure(e) => CbError(e)
    case Success(found) =>
      if validate.None? then CbError(NewTypeError("UserAccessTokenModel.validate is not a function"))
      else
        var v := validate.value(found);
        if !Truthy(v.isValid) then CbResult(AuthResult(Some(false), None, NoCredentials))
        else if Truthy(v.isExpired) then CbResult(AuthResult(Some(true), Some(true), NoCredentials))
        else if found.None? then CbError(NewTypeError("Cannot read property 'User' of null"))
        else CbResult(AuthResult(Some(true), Some(false), CredObject(Credentials(found.value.user))))
  }

  /** The plugin's own validator feeds the gate: an accepted request carries
      the owner of the row that the validator found. */
  lemma GateAcceptsOnlyFoundOwner(authorization: Option<string>, lookup: Option<string> -> Result<Option<Joined>, JsError>,
                                  validate: Option<Joined> -> Verdict)
    requires Authenticate(authorization, t => ValidateAccessToken(lookup(t), Some(validate))).Continue?
    ensures var t := Bearer(authorization).value;
      lookup(t).Success? && lookup(t).value.Some?
      && Authenticate(authorization, t => ValidateAccessToken(lookup(t), Some(validate))).credentials
         == Credentials(lookup(t).value.value.user)
  {
  }

  /** With the model as it ships, `validate` is undefined, so every request
      that passes the header checks ends in a 500. */
  lemma ShippedGateAlwaysFails(authorization: Option<string>, lookup: Option<string> -> Result<Option<Joined>, JsError>)
    requires Bearer(authorization).Some?
    ensures Authenticate(authorization, t => ValidateAccessToken(lookup(t), None)).ServerError?
  {
  }

  /** If `validate` answered the way the model's own `validateAccessToken`
      classifies a row, it would never set `isValid`, so no request would get
      through: every bearer request is either refused as invalid or a 500. */
  lemma StoreClassificationNeverAccepted(authorization: Option<string>,
                                         lookup: Option<string> -> Result<Option<Joined>, JsError>, now: Time)
    ensures var validate := (found: Option<Joined>) => Verdict(Classify(found, now).isValid, Classify(found, now).isExpired);
      var o := Authenticate(authorization, t => ValidateAccessToken(lookup(t), Some(validate)));
      o == Unauthorized(NewError(TokenRequired)) || o == Unauthorized(NewError(InvalidToken)) || o.ServerError?
  {
  }
}
