# masterCondo token and credential layer, in Dafny

This project models the account back end of masterCondo, a hapi and Sequelize API, in Dafny. It covers how the back end issues, stores, finds and judges its three kinds of tokens:

- session access tokens (`user_access_token`);
- account-recovery tokens (`user_recovery`);
- email-verification tokens (`user_email_verification`).

It also covers the two bearer-token authentication schemes that guard the API, the user model with its password hashing, and the login and registration handlers. Around them are the registration payload schema, the environment helpers and the five reply helpers, each of which picks a status code and a message.

A token is the lowercase hex SHA-1 digest of 256 random bytes. Its expiry is a fixed number of seconds after its creation. The expiry test is `moment(expiredAt).isBefore(moment())`, which is strict. So a token is still valid at its expiry instant and expired from the next millisecond on. The model keeps that boundary: time is an integer number of milliseconds.

Things outside the model are parameters:

- SHA-1, bcrypt, the random source and the clock;
- the mail transport and the email syntax check;
- the methods that the code calls but never defines.

Tables are classes that hold a sequence of rows and the next auto-increment id. `create*` methods append one row. `findBy*` functions return the first matching row, and the access-token lookups keep only rows whose owning user exists (an inner join).

Facts about the code as written that the lemmas make explicit:

- The bearer scheme in `libs/plugins/auth/token.js` calls `UserAccessToken.validate`, which the model file does not define. Every request that passes the header checks therefore ends in a 500 (`AuthToken.ShippedGateAlwaysFails`).
- The access-token store's own classification never sets `isValid`. If it were used as that validator, no request would get through (`AuthToken.StoreClassificationNeverAccepted`).
- The variant scheme in `token_new.js` calls `UserAccessToken.isAccessTokenValid`, which is not defined either. The call throws a TypeError before any promise exists, and the exception escapes `authenticate`, so the framework answers with its own 500 (`AuthTokenNew.ShippedNewGateThrows`). Were the method defined, the scheme would swallow lookup errors and answer an invalid token exactly as it answers a missing header.
- The login handler calls `UserModel.findPasswordHashByEmail`, which the User model does not define. Every login therefore throws out of the handler (`UserController.ShippedLoginThrows`).
- `badRequest` ignores a plain error's message and `serverError` hides it. Only `unauthorized` and `notFound` show it. The model follows the code here, not the reply-helper unit tests, which expect the message.
- A wrong password at login gets `serverError`, that is a 500 whose body says "Internal Server Error". The login tests expect a 401; the model follows the code.
- The username pattern message is `"username" can only contain 0-9, a-z, A-Z, -, _`, without the trailing `, .` that the registration test expects; the model follows the code.
- The expiry instant itself counts as valid, because `isBefore` is strict. The model follows the code here too.

## Model

| member | source | states |
|---|---|---|
| Strings.Split | libs/plugins/auth/token.js:55 | `split(/\s+/)` yields at least one piece and no piece holds whitespace (the full JavaScript `\s` set) |
| Strings.SplitWord | libs/plugins/auth/token.js:55 | a word followed by a whitespace run splits into that word followed by the pieces of the rest |
| Strings.FirstTwoPieces | libs/plugins/auth/token.js:55-61 | two words, each followed by whitespace, are the first and second pieces whatever follows |
| Strings.SplitOfWord | libs/plugins/auth/token.js:55 | a string without whitespace splits into itself alone |
| Strings.SplitLeadingWhitespace | libs/plugins/auth/token.js:55-57 | a header that starts with whitespace has an empty first piece |
| Strings.ToLower | libs/plugins/auth/token.js:57 | lower-casing keeps the length and maps exactly the ASCII capitals to their lower case |
| Uri.HexEncode | api/models/UserAccessToken.js:80 | `digest('hex')` gives two lowercase hex digits per byte |
| Uri.HexRoundTrip | api/models/UserAccessToken.js:80 | decoding the hex form gives back exactly the digest bytes |
| Uri.EncodeUriComponent | api/models/UserRecovery.js:159 | `encodeURIComponent` never shortens its input |
| Uri.EncodeUriComponentRoundTrip | api/models/UserRecovery.js:159 | percent-decoding the encoded token gives exactly its UTF-8 bytes (the encoding is lossless) |
| Uri.EncodeUnreservedIsIdentity | api/models/UserEmailVerification.js:118 | a string of unreserved characters is left unchanged |
| Uri.HexIsUnchanged | api/models/UserEmailVerification.js:118 | a lowercase hex token is unchanged by the encoding |
| Uri.ReservedIsEscaped | api/models/UserRecovery.js:159 | every character outside the unreserved set is escaped with `%` |
| Utils.GetEnv | libs/helpers/utils.js:10-16 | an empty key fails with "Key is required"; a set, non-empty variable is returned; otherwise the default |
| Utils.NodeEnv | libs/helpers/utils.js:23-25 | `env()` is `getEnv('NODE_ENV')` with the empty default |
| Utils.GetBaseUrl | libs/helpers/utils.js:32-46 | BASE_URL when set; "" without a request; otherwise `proto://host` |
| Utils.ForwardedProto | libs/helpers/utils.js:42 | the `x-forwarded-proto` header when non-empty, else the connection protocol |
| Utils.BaseUrlIgnoresRequest | libs/helpers/utils.js:33-36 | with BASE_URL set, the base URL is the same for every request and for none |
| Responses.MessageOf | libs/plugins/responses/unauthorized.js:13-19 | Boom payload message, else a non-empty own message, else the helper's default |
| Responses.Unauthorized | libs/plugins/responses/unauthorized.js:10-25 | status 401 and body `{error: {message}}` with the chosen message, default "Unauthorized" |
| Responses.NotFound | libs/plugins/responses/notFound.js:10-25 | status 404 and body `{error: {message}}`, default "Not Found" |
| Responses.BadRequest | libs/plugins/responses/badRequest.js:10-23 | status 400; the Boom message, else "Bad Request" for any other input |
| Responses.ServerError | libs/plugins/responses/serverError.js:10-23 | status 500; a Sequelize validation error shows its first item's message, any other error "Internal Server Error"; an item-less validation error throws |
| Responses.SuccessReply | libs/plugins/responses/success.js:10-17 | status 200 with the data unchanged, `{}` when omitted |
| Responses.ErrorMessageOrigin | libs/plugins/responses/notFound.js:13-19 | the envelope message is the default, the error's own message or its Boom message, nothing else |
| Responses.BadRequestIgnoresPlainMessage | libs/plugins/responses/badRequest.js:13-17 | a plain error's message is dropped by badRequest but kept by unauthorized and notFound |
| Responses.ServerErrorHidesPlainMessage | libs/plugins/responses/serverError.js:13-17 | any error but a Sequelize validation error is answered "Internal Server Error" |
| Tokens.GenToken | api/models/UserAccessToken.js:77-90 | the value is 40 lowercase hex characters that decode to the SHA-1 of the random bytes; expiry is now plus the life time in seconds |
| Tokens.FreshTokenNotExpired | api/models/UserAccessToken.js:81 | a token with a non-negative life time is not expired from its creation up to its expiry instant |
| Tokens.TokenNeedsNoEscaping | api/models/UserRecovery.js:157-162 | a generated token goes into a URL unchanged |
| UserModel.Hash | api/models/User.js:46-48 | with a sound bcrypt, the password matches its own hash whatever the salt |
| UserModel.Validate | api/models/User.js:57-59 | with a sound bcrypt, `validate(p, hash(p))` is true |
| UserModel.FindById | api/models/UserAccessToken.js:105-110 | the joined user has the requested id, and none is found exactly when no user has it |
| UserModel.NullViolations | api/models/User.js:13-20 | the full list of not-null messages: none exactly when email and username are both given, otherwise "email cannot be null" and/or "username cannot be null", in column order |
| UserModel.UserTable.CreateNewUser | api/models/User.js:61-69 | appends one row with the email and username as given, the bcrypt hash (never the password) and `is_active` false; a missing email or username inserts nothing and fails as a validation error |
| AccessTokens.Join | api/models/UserAccessToken.js:105-110 | the owner attached to a row is the user whose id the row holds |
| AccessTokens.Classify | api/models/UserAccessToken.js:149-164 | no row or an inactive row gives `{isValid: false}` (inactive checked first); an active row past expiry gives `{isExpired: true}`; otherwise `{credentials: {user}}` with the joined owner; `isValid` is never true |
| AccessTokens.OnLookup | api/models/UserAccessToken.js:146-167 | a failed lookup reaches the callback as its error; a settled one as the classification |
| AccessTokens.ExpiryIsPermanent | api/models/UserAccessToken.js:158-161 | once a row is expired it stays expired; a row accepted later was accepted earlier |
| AccessTokens.UserAccessTokenTable.CreateNewAccessToken | api/models/UserAccessToken.js:175-186 | appends exactly one row with the new token, its expiry, the user id and `is_active` true, and returns that token |
| AccessTokens.UserAccessTokenTable.FindByToken | api/models/UserAccessToken.js:122-138 | the first row holding the token whose owner exists, joined with that owner; none exactly when no such row exists |
| AccessTokens.UserAccessTokenTable.FindByUserId | api/models/UserAccessToken.js:98-114 | the first row of that user if the user exists, joined with the user |
| AccessTokens.UserAccessTokenTable.ValidateAccessToken | api/models/UserAccessToken.js:146-167 | always a result, never `isValid: true`; an unknown token or an inactive first row gives `{isValid: false}`; an active row past its expiry gives `{isExpired: true}`; credentials come back exactly when the first row is active and unexpired, and they hold that row's owner |
| AccessTokens.IssuedTokenIsAccepted | api/models/UserAccessToken.js:175-186 | a token just issued to an existing user is found again and yields that user's credentials until it expires |
| Recovery.Validate | api/models/UserRecovery.js:202-222 | absent, inactive or unreadable gives `{isValid: false}`; active and past expiry gives `{isExpired: true}`; otherwise `{isValid: true, isExpired: false}` |
| Recovery.ValidityWindow | api/models/UserRecovery.js:213-218 | an active record is valid exactly while now is at or before its expiry, and expired after it |
| Recovery.ExpiredStaysExpired | api/models/UserRecovery.js:213-216 | once expired, a recovery token is expired at every later instant |
| Recovery.InactiveIsNeverValid | api/models/UserRecovery.js:208-211 | an inactive token is refused as invalid at every instant, never reported as expired |
| Recovery.BuildRecoveryUrl | api/models/UserRecovery.js:157-162 | the URL is the base URL and `/users/recover?token=` followed by a query value that decodes to the token; a hex token appears as it is |
| Recovery.CreateEmailRecoveryPayload | api/models/UserRecovery.js:172-182 | addressed to the email, subject "Recover Account", html containing the recovery URL |
| Recovery.PayloadCarriesToken | api/models/UserRecovery.js:6-11 | for a generated token the mail body contains `/users/recover?token=` followed by the token itself |
| Recovery.UserRecoveryTable.CreateNewToken | api/models/UserRecovery.js:110-121 | appends exactly one active row with the new token, its expiry and the address, and returns the token |
| Recovery.UserRecoveryTable.FindByEmail | api/models/UserRecovery.js:129-135 | the first row sent to the address, none exactly when there is none |
| Recovery.UserRecoveryTable.FindByToken | api/models/UserRecovery.js:143-149 | the first row holding the token, none exactly when there is none |
| Recovery.UserRecoveryTable.FindAndValidateToken | api/models/UserRecovery.js:190-194 | valid exactly when the row found is active and not past its expiry; an unknown token or an inactive row is `{isValid: false}`; an active row past its expiry is `{isExpired: true}` |
| Recovery.IssuedTokenValidates | api/models/UserRecovery.js:110-121 | a token just issued is found again and validates up to its expiry instant |
| EmailVerification.Validate | api/models/UserEmailVerification.js:189-204 | absent gives `{isValid: false}`; unreadable gives `{isValid: false, isExpired: true}`; past expiry gives `{isExpired: true}`; otherwise valid; no active flag is consulted |
| EmailVerification.ValidityWindow | api/models/UserEmailVerification.js:195-200 | a record is valid exactly while now is at or before its expiry |
| EmailVerification.ExpiredStaysExpired | api/models/UserEmailVerification.js:195-198 | once expired, a verification token is expired at every later instant |
| EmailVerification.BuildVerificationUrl | api/models/UserEmailVerification.js:116-121 | the base URL and `/users/verify?token=` followed by a query value that decodes to the token; a hex token appears as it is |
| EmailVerification.CreateEmailVerificationPayload | api/models/UserEmailVerification.js:131-141 | addressed to the email, subject "Verify Account", html containing the verification URL |
| EmailVerification.PayloadLinkIgnoresEmail | api/models/UserEmailVerification.js:116-121 | the address is not part of the link: mails for one token differ only in their recipient |
| EmailVerification.PayloadCarriesToken | api/models/UserEmailVerification.js:6-11 | for a generated token the mail body contains `/users/verify?token=` followed by the token |
| EmailVerification.UserEmailVerificationTable.CreateNewToken | api/models/UserEmailVerification.js:97-108 | appends exactly one row with the new token, its expiry and the address, and returns the token |
| EmailVerification.UserEmailVerificationTable.FindByEmail | api/models/UserEmailVerification.js:149-155 | the first row sent to the address, none exactly when there is none |
| EmailVerification.UserEmailVerificationTable.FindByToken | api/models/UserEmailVerification.js:163-169 | the first row holding the token, none exactly when there is none |
| EmailVerification.UserEmailVerificationTable.FindAndValidateToken | api/models/UserEmailVerification.js:177-181 | `{isValid: false}` exactly when no row holds the token; valid exactly when the row found is not past its expiry |
| EmailVerification.IssuedTokenValidates | api/models/UserEmailVerification.js:97-108 | a token just issued is found again, valid up to its expiry instant and expired afterwards |
| AuthToken.Bearer | libs/plugins/auth/token.js:49-61 | a header is accepted exactly when it is present, non-empty and its first piece is `Bearer` up to case; the token is the second piece, or undefined |
| AuthToken.OnValidated | libs/plugins/auth/token.js:63-83 | error gives 500; falsy `isValid` gives "Invalid access token" even when expired; expired gives "Token is expired"; missing or non-object credentials give 500; otherwise continue with exactly those credentials |
| AuthToken.Authenticate | libs/plugins/auth/token.js:48-84 | refused headers get "An access token is required to request this resource."; others get the validator's answer for the parsed token |
| AuthToken.Render | libs/plugins/auth/token.js:52-82 | a refusal is sent through `unauthorized`, an internal failure through `serverError`, a continuation sends nothing, and an exception is left to the framework |
| AuthToken.MissingHeaderIs401 | libs/plugins/auth/token.js:49-53 | no Authorization header gives 401 with the token-required message, whatever the validator |
| AuthToken.RejectionsRender | libs/plugins/auth/token.js:70-79 | a refusal with a plain, non-empty message is a 401 carrying that message; an internal failure other than a Sequelize validation error is a 500 that hides its message |
| AuthToken.BearerHeader | libs/plugins/auth/token.js:55-61 | `Bearer`, in any case, then whitespace, then a token hands exactly that token to the validator |
| AuthToken.ExtraPartsIgnored | libs/plugins/auth/token.js:61 | pieces after the token are ignored |
| AuthToken.SchemeOnly | libs/plugins/auth/token.js:61 | the scheme word alone passes the header checks with an undefined token |
| AuthToken.TrailingWhitespaceGivesEmptyToken | libs/plugins/auth/token.js:55-61 | the scheme word followed only by whitespace passes with the empty string as token |
| AuthToken.LeadingWhitespaceRejected | libs/plugins/auth/token.js:55-59 | a header starting with whitespace is refused |
| AuthToken.OtherSchemeRejected | libs/plugins/auth/token.js:57-59 | any scheme word other than `bearer` up to case is refused, whatever follows |
| AuthToken.ValidateAccessToken | libs/plugins/auth/token.js:14-40 | lookup error to the callback; not valid gives `{isValid: false}`; expired gives `{isValid: true, isExpired: true}`; otherwise the found row's owner as credentials; an undefined `validate` or a missing row when valid is a TypeError |
| AuthToken.GateAcceptsOnlyFoundOwner | libs/plugins/auth/token.js:32-36 | a request the gate lets through carries the owner of the row the lookup found |
| AuthToken.ShippedGateAlwaysFails | libs/plugins/auth/token.js:19 | with `validate` undefined, every request that passes the header checks gets a 500 |
| AuthToken.StoreClassificationNeverAccepted | libs/plugins/auth/token.js:17-25 | a validator answering like the store's classification lets no request through |
| AuthTokenNew.OnValidated | libs/plugins/auth/token_new.js:61-75 | error gives 500; not valid gives the token-required 401; non-object credentials give 500; otherwise continue with exactly those credentials |
| AuthTokenNew.Authenticate | libs/plugins/auth/token_new.js:46-76 | the same header checks as the first scheme, then the validator's answer; a validator that throws makes `authenticate` throw the same error |
| AuthTokenNew.ValidateAccessToken | libs/plugins/auth/token_new.js:12-37 | an undefined `isAccessTokenValid` throws a TypeError; otherwise valid exactly when the lookup found a row, with its owner as credentials, and a rejected lookup becomes `false` |
| AuthTokenNew.ShippedNewGateThrows | libs/plugins/auth/token_new.js:17-18 | with `isAccessTokenValid` undefined, every request that passes the header checks throws a TypeError that no reply helper answers |
| AuthTokenNew.OwnValidatorNeverFails | libs/plugins/auth/token_new.js:19-36 | if `isAccessTokenValid` were defined, the gate would never send a 500 nor throw: it refuses or continues with the found owner |
| AuthTokenNew.LookupFailureLooksLikeUnknownToken | libs/plugins/auth/token_new.js:30-36 | a failed lookup and an unknown token get the same 401 |
| AuthTokenNew.InvalidLooksLikeMissing | libs/plugins/auth/token_new.js:66-68 | an invalid token is answered exactly as a missing header, unlike in the first scheme |
| UserController.Render | api/controllers/User.js:52-63 | each reply goes through its helper; no reply sends nothing; an exception is left to the framework |
| UserController.Login | api/controllers/User.js:45-64 | an undefined `findPasswordHashByEmail` throws a TypeError out of the handler; lookup failure gives serverError; no or empty hash gives notFound "Email does not exist"; a wrong password gives serverError "Please check your email/password again"; only a correct password sends no reply; never a success |
| UserController.ShippedLoginThrows | api/controllers/User.js:46-49 | with `findPasswordHashByEmail` undefined, every login throws a TypeError that no reply helper answers |
| UserController.LoginReplies | api/controllers/User.js:51-59 | an unknown email is a 404 with its message; a wrong password is a 500 whose message is hidden |
| UserController.RegisteredPasswordAccepted | api/controllers/User.js:55-61 | with the model's bcrypt check, the registered password against its stored hash gets no error reply |
| UserController.MissingEmailReply | api/controllers/User.js:33-35 | a registration without email is answered 500 "email cannot be null" |
| UserController.SendMail | api/services/Mailer.js:25-28 | a message without a recipient is refused with "To is required" before the transport |
| UserController.Create | api/controllers/User.js:30-36 | creates the user, mails the payload's address, and replies `success({id})` with the new id only if the mail was sent; either failure gives serverError; the table gains exactly that one row and id on success and is unchanged on a validation failure; a user created before a mail failure stays |
| UserValidator.Message | api/validators/user.js:18-43 | a key's message starts with the key in double quotes |
| UserValidator.Utf16Length | api/validators/user.js:35 | the length JavaScript reports lies between the character count and twice it |
| UserValidator.StringRule | api/validators/user.js:24-35 | a required string passes exactly when present, a string and not empty |
| UserValidator.KeyRule | api/validators/user.js:24-43 | email: a non-empty string the email check accepts; username: matches `^[\w-_.]+$`; password: a string of at least 8 UTF-16 units; confirmation: present and equal to password |
| UserValidator.FirstFailure | api/validators/user.js:23-44 | no failure exactly when every key passes; otherwise the first failing key in order, all earlier keys passing |
| UserValidator.Unknown | api/validators/user.js:23-44 | exactly the payload keys the schema does not declare |
| UserValidator.Create | api/validators/user.js:10-46 | a non-object is refused; a key failure is the first failing key in declaration order; with all keys passing, accepted exactly when no undeclared key is present |
| UserValidator.WellFormedAccepted | api/validators/user.js:23-44 | a payload with a valid email, a pattern username, an 8-unit password and a matching confirmation is accepted |
| UserValidator.EmailCheckedFirst | api/validators/user.js:24 | an email failure is reported whatever is wrong with the other keys |
| UserValidator.UsernameWithSpaceRejected | api/validators/user.js:25-34 | a username containing a space is refused by the pattern |
| UserValidator.ShortPasswordRejected | api/validators/user.js:35 | a non-empty password under 8 characters is refused as too short |
| UserValidator.Utf16LengthOfBmp | api/validators/user.js:35 | for characters of the Basic Multilingual Plane the JavaScript length is the character count |
| UserValidator.ConfirmationMismatchRejected | api/validators/user.js:36-43 | a confirmation different from the password is refused with "must match password" |

## Left out

- SHA-1, bcrypt, `crypto.randomBytes`, `bcrypt.genSaltSync`, the email syntax check and the mail transport are function parameters. bcrypt's only assumed property is that a password matches any hash made from it.
- The clock: `now` is a parameter in milliseconds. The DATETIME column's truncation to whole seconds is not modelled.
- The life times are read with `Number(getEnv(...))` when each model file loads. The model takes them as integers, so a non-numeric variable (`NaN`, an invalid date) is not modelled. A missing variable reads as `''`, which `Number` turns into 0, a zero life time; the model covers that.
- `encodeURIComponent` throws `URIError` on a lone surrogate. Dafny strings cannot hold one, so that case is not modelled.
- Strings.ToLower: lower-cases ASCII only. It assumes no other character lower-cases into the letters of `bearer`.
- Sequelize `findOne` is modelled as the first match in insertion order. Row order, SQL collation (case-insensitive matches) and promise rejection by the database are not modelled. A lookup failure is an explicit `Result` input where the source passes one on.
- The `user_recovery` and `user_email_verification` models declare `email` as an unsigned integer, but the code stores the address string. The model stores the string.
- The migrations are not part of this model. They give the email-verification table a unique index on `email` and key the recovery table by `user_id`.
- The recovery model leaves `allowNull` unset on `is_active`. A NULL flag reads as inactive, and the model's boolean covers it.
- A record whose accessors throw is the `Unreadable` argument of `validate`.
- `UserAccessToken.validate` (called by token.js), `isAccessTokenValid` (token_new.js), `findPasswordHashByEmail` and `isPasswordCorrect` (the login handler) are never defined. Each is an input whose `None` value stands for the undefined method, and the lemmas named above show what the shipped code then does. When one is given as defined, its behaviour is arbitrary: a settled result for the two lookups, any boolean function for the password check.
- The framework's answer to an exception that escapes a handler or `authenticate` (hapi's generic 500) is not modelled; the model stops at the escaping error.
- The methods the tests call but no file defines (`invalidateToken`, `setPassword`, `findByEmail` of the user model and others) are not modelled.
- If the callback of `validateAccessToken` throws, the `.catch` calls the callback a second time. The model does not capture that second call.
- Logging (`request.log`), plugin registration, the route table with its own inline schema, and hapi's mapping of a schema failure to a 400 are not modelled.
- AuthTokenNew.ValidateAccessToken: the logging of a swallowed lookup error is not modelled.
- UserValidator.Create: reports all undeclared keys as a set, where Joi reports the first in insertion order. A missing payload passes, as in Joi, because the object itself is not required.
- UserController.Create: the password is a string. A missing password, which makes bcrypt throw, is not modelled.
