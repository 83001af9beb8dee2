/** The variant scheme of `libs/plugins/auth/token_new.js`: the same header
    checks, a validator that answers `(error, isValid, credentials)`, and no
    separate answer for an expired token. */
module AuthTokenNew {
  import opened Common
  import opened Responses
  import opened AccessTokens
  import opened AuthToken

  /** The arguments of the validator's callback: `(error)` or
      `(null, isValid, credentials)`. */
  datatype NewCallback<+C> = NError(error: JsError) | NResult(isValid: bool, credentials: Cred<C>)

  /** The callback `authenticate` passes to the validator. An invalid token
      gets the same message as a missing one. */
  function OnValidated<C>(cb: NewCallback<C>): (o: Outcome<C>)
    ensures cb.NError? ==> o == ServerError(cb.error)
    ensures cb.NResult? && !cb.isValid ==> o == Unauthorized(NewError(TokenRequired))
    ensures cb.NResult? && cb.isValid && !cb.credentials.CredObject? ==> o == ServerError(NewError(BadTokenString))
    ensures o.Continue? <==> cb.NResult? && cb.isValid && cb.credentials.CredObject?
    ensures o.Continue? ==> o.credentials == cb.credentials.obj
  {
    match cb
    case NError(e) => ServerError(e)
    case NResult(isValid, credentials) =>
      if !isValid then Unauthorized(NewError(TokenRequired))
      else if !credentials.CredObject? then ServerError(NewError(BadTokenString))
      else Continue(credentials.obj)
  }

  /** `authenticate(request, reply)` with `options.validateFunc` as
      `validate`. A validator either calls back (Success) or throws before it
      can (Failure); the exception then escapes `authenticate`. */
  function Authenticate<C>(authorization: Option<string>, validate: Option<string> -> Result<NewCallback<C>, JsError>)
    : (o: Outcome<C>)
    ensures Bearer(authorization).None? ==> o == Unauthorized(NewError(TokenRequired))
    ensures Bearer(authorization).Some? && validate(Bearer(authorization).value).Failure? ==>
      o == Thrown(validate(Bearer(authorization).value).error)
    ensures Bearer(authorization).Some? && validate(Bearer(authorization).value).Success? ==>
      o == OnValidated(validate(Bearer(authorization).value).value)
  {
    match Bearer(authorization)
    case None => Unauthorized(NewError(TokenRequired))
    case Some(token) =>
      match validate(token)
      case Failure(e) => Thrown(e)
      case Success(cb) => OnValidated(cb)
  }

  /** `validateAccessToken(token, callback)` of this variant. `lookup` is
      how `isAccessTokenValid(token, User)` settles, or None when the model
      does not define that method, in which case the call throws a TypeError
      before any promise exists. A found row gives its owner as credentials,
      nothing found gives false, and a rejected lookup is logged and also
      gives false. */
  function ValidateAccessToken(lookup: Option<Result<Option<Joined>, JsError>>)
    : (r: Result<NewCallback<Credentials>, JsError>)
    ensures lookup.None? <==> r.Failure?
    ensures r.Failure? ==> r.error.name == "TypeError"
    ensures r.Success? ==> r.value.NResult?
    ensures r.Success? ==> (r.value.isValid <==> lookup.value.Success? && lookup.value.value.Some?)
    ensures r.Success? && r.value.isValid ==> r.value.credentials == CredObject(Credentials(lookup.value.value.value.user))
    ensures r.Success? && !r.value.isValid ==> r.value.credentials == NoCredentials
  {
    match lookup
    case None => Failure(NewTypeError("UserAccessToken.isAccessTokenValid is not a function"))
    case Some(Failure(_)) => Success(NResult(false, NoCredentials))
    case Some(Success(None)) => Success(NResult(false, NoCredentials))
    case Some(Success(Some(j))) => Success(NResult(true, CredObject(Credentials(j.user))))
  }

  /** With the model as it ships, `isAccessTokenValid` is undefined: every
      request that passes the header checks throws a TypeError out of
      `authenticate`, and no reply helper answers it. */
  lemma ShippedNewGateThrows(authorization: Option<string>)
    requires Bearer(authorization).Some?
    ensures var o := Authenticate(authorization, t => ValidateAccessToken(None));
      o.Thrown? && o.error.name == "TypeError" && Render(o) == Some(Failure(o.error))
  {
  }

  /** Were `isAccessTokenValid` defined, the gate would never reach its 500
      branches nor throw: a request is either refused with the
      token-required message or continues with the owner of the row found. */
  lemma OwnValidatorNeverFails(authorization: Option<string>, lookup: Option<string> -> Result<Option<Joined>, JsError>)
    ensures var o := Authenticate(authorization, t => ValidateAccessToken(Some(lookup(t))));
      o == Unauthorized(NewError(TokenRequired))
      || (o.Continue? && lookup(Bearer(authorization).value).Success?
          && lookup(Bearer(authorization).value).value.Some?
          && o.credentials == Credentials(lookup(Bearer(authorization).value).value.value.user))
  {
  }

  /** A rejected lookup is indistinguishable, for the client, from an
      unknown token: both get the 401 that asks for an access token. */
  lemma LookupFailureLooksLikeUnknownToken(authorization: Option<string>, e: JsError)
    requires Bearer(authorization).Some?
    ensures Authenticate(authorization, t => ValidateAccessToken(Some(Failure(e))))
         == Authenticate(authorization, t => ValidateAccessToken(Some(Success(None))))
         == Unauthorized(NewError(TokenRequired))
  {
  }

  /** Unlike the first scheme, this one answers an invalid token exactly as
      it answers a missing header. */
  lemma InvalidLooksLikeMissing<C>(authorization: Option<string>, validate: Option<string> -> Result<NewCallback<C>, JsError>)
    requires Bearer(authorization).Some?
    requires validate(Bearer(authorization).value) == Success(NResult(false, NoCredentials))
    ensures Render(Authenticate(authorization, validate)) == Render(Authenticate<C>(None, validate))
    ensures AuthToken.OnValidated<C>(CbResult(AuthResult(Some(false), None, NoCredentials)))
         != Authenticate(authorization, validate)
  {
  }
}
