/** The registration payload schema `create()` of the user validators: an
    object with `email`, `username`, `password` and `password_confirmation`,
    checked key by key in that order, the first failure being the one
    reported. The email syntax check is a parameter. */
module UserValidator {
  import opened Common

  /** The keys of the schema. */
  datatype Key = Email | Username | Password | PasswordConfirmation

  /** The keys in declaration order, which is the order they are checked in. */
  const Keys: seq<Key> := [Email, Username, Password, PasswordConfirmation]

  function Name(k: Key): string {
    match k
    case Email => "email"
    case Username => "username"
    case Password => "password"
    case PasswordConfirmation => "password_confirmation"
  }

  const KeyNames: set<string> := {Name(Email), Name(Username), Name(Password), Name(PasswordConfirmation)}

  const MinPasswordLength := 8

  /** Why a key was refused. */
  datatype Reason =
    | Required           // the key is missing
    | NotAString         // a string rule met another JSON value
    | Empty              // a string rule met ""
    | InvalidEmail
    | UsernamePattern    // outside /^[\w-_.]+$/
    | TooShort(limit: nat)
    | MustMatchPassword

  datatype ValidationError =
    | KeyError(key: Key, reason: Reason)
    | PayloadNotAnObject
    | UnknownKeys(keys: set<string>)

  /** The text after the quoted key, as the schema's language options set it. */
  function ReasonText(reason: Reason): string {
    match reason
    case Required => "is required"
    case NotAString => "must be a string"
    case Empty => "is not allowed to be empty"
    case InvalidEmail => "must be a valid email"
    case UsernamePattern => "can only contain 0-9, a-z, A-Z, -, _"
    case TooShort(limit) => "length must be at least " + NatToString(limit) + " characters long"
    case MustMatchPassword => "must match password"
  }

  /** The message of a key error: the key in double quotes, then the reason. */
  function Message(key: Key, reason: Reason): (m: string)
    ensures |m| > |Name(key)| + 2 && m[..|Name(key)| + 2] == "\"" + Name(key) + "\""
  {
    var quoted := "\"" + Name(key) + "\"";
    var m := quoted + " " + ReasonText(reason);
    assert m[..|quoted|] == quoted;
    m
  }

  function DigitChar(d: nat): char
    requires d < 10
  {
    ('0' as int + d) as char
  }

  /** Decimal digits of a natural number. */
  function NatToString(n: nat): (s: string)
    ensures |s| >= 1 && forall i :: 0 <= i < |s| ==> '0' <= s[i] <= '9'
  {
    if n < 10 then [DigitChar(n)] else NatToString(n / 10) + [DigitChar(n % 10)]
  }

  /** A word character of a JavaScript regular expression, or `-` or `.`:
      the class `[\w-_.]`. */
  predicate IsUsernameChar(c: char) {
    'A' <= c <= 'Z' || 'a' <= c <= 'z' || '0' <= c <= '9' || c == '_' || c == '-' || c == '.'
  }

  /** `^[\w-_.]+$` */
  predicate MatchesUsernamePattern(s: string) {
    |s| > 0 && forall i :: 0 <= i < |s| ==> IsUsernameChar(s[i])
  }

  /** The length JavaScript reports: characters outside the Basic
      Multilingual Plane count twice (UTF-16 code units). */
  function Utf16Length(s: string): (n: nat)
    ensures |s| <= n <= 2 * |s|
  {
    if s == [] then 0 else (if s[0] as int >= 0x10000 then 2 else 1) + Utf16Length(s[1..])
  }

  /** The value of `key`, None when missing. */
  function Lookup(fields: map<string, Json>, key: string): Option<Json> {
    if key in fields then Some(fields[key]) else None
  }

  predicate IsNonEmptyString(v: Option<Json>) {
    v.Some? && v.value.JStr? && v.value.s != ""
  }

  /** `Joi.string().required()`: present, a string, not empty. */
  function StringRule(v: Option<Json>): (reason: Option<Reason>)
    ensures reason.None? <==> IsNonEmptyString(v)
  {
    match v
    case None => Some(Required)
    case Some(JStr(s)) => if s == "" then Some(Empty) else None
    case Some(_) => Some(NotAString)
  }

  /** The rule of one key of the schema, applied to the payload's fields. */
  function KeyRule(fields: map<string, Json>, key: Key, isEmail: string -> bool): (reason: Option<Reason>)
    ensures var v := Lookup(fields, Name(key));
      key == Email ==> (reason.None? <==> IsNonEmptyString(v) && isEmail(v.value.s))
    ensures var v := Lookup(fields, Name(key));
      key == Username ==> (reason.None? <==> v.Some? && v.value.JStr? && MatchesUsernamePattern(v.value.s))
    ensures var v := Lookup(fields, Name(key));
      key == Password ==> (reason.None? <==> v.Some? && v.value.JStr? && Utf16Length(v.value.s) >= MinPasswordLength)
    ensures var v := Lookup(fields, Name(key));
      key == PasswordConfirmation ==> (reason.None? <==> v.Some? && v == Lookup(fields, Name(Password)))
  {
    var v := Lookup(fields, Name(key));
    match key
    case Email =>
      if StringRule(v).Some? then StringRule(v)
      else if !isEmail(v.value.s) then Some(InvalidEmail)
      else None
    case Username =>
      if StringRule(v).Some? then StringRule(v)
      else if !MatchesUsernamePattern(v.value.s) then Some(UsernamePattern)
      else None
    case Password =>
      if StringRule(v).Some? then StringRule(v)
      else if Utf16Length(v.value.s) < MinPasswordLength then Some(TooShort(MinPasswordLength))
      else None
    case PasswordConfirmation =>
      if v.None? then Some(Required)
      else if v != Lookup(fields, Name(Password)) then Some(MustMatchPassword)
      else None
  }

  /** `e` reports the key at index `i`: that key fails and all before it pass. */
  ghost predicate FirstFailingAt(fields: map<string, Json>, keys: seq<Key>, isEmail: string -> bool, i: int, e: ValidationError) {
    && 0 <= i < |keys|
    && e.KeyError? && e.key == keys[i] && KeyRule(fields, keys[i], isEmail) == Some(e.reason)
    && forall j :: 0 <= j < i ==> KeyRule(fields, keys[j], isEmail).None?
  }

  /** The keys of `keys` are checked in order; the first failing one is
      reported. */
  function FirstFailure(fields: map<string, Json>, keys: seq<Key>, isEmail: string -> bool): (e: Option<ValidationError>)
    ensures e.None? <==> forall i :: 0 <= i < |keys| ==> KeyRule(fields, keys[i], isEmail).None?
    ensures e.Some? ==> exists i :: FirstFailingAt(fields, keys, isEmail, i, e.value)
  {
    if keys == [] then None
    else
      var reason := KeyRule(fields, keys[0], isEmail);
      if reason.Some? then
        assert FirstFailingAt(fields, keys, isEmail, 0, KeyError(keys[0], reason.value));
        Some(KeyError(keys[0], reason.value))
      else
        var rest := FirstFailure(fields, keys[1..], isEmail);
        if rest.Some? then
          ghost var i :| FirstFailingAt(fields, keys[1..], isEmail, i, rest.value);
          assert FirstFailingAt(fields, keys, isEmail, i + 1, rest.value) by {
            forall j | 0 <= j < i + 1 ensures KeyRule(fields, keys[j], isEmail).None? {
              if j > 0 { assert keys[j] == keys[1..][j - 1]; }
            }
          }
          rest
        else
          assert forall i :: 0 <= i < |keys| ==> KeyRule(fields, keys[i], isEmail).None? by {
            forall i | 0 <= i < |keys| ensures KeyRule(fields, keys[i], isEmail).None? {
              if i > 0 { assert keys[i] == keys[1..][i - 1]; }
            }
          }
          None
  }

  /** The keys of the payload the schema does not know. */
  function Unknown(fields: map<string, Json>): (u: set<string>)
    ensures forall k :: k in u <==> k in fields && k !in KeyNames
  {
    set k | k in fields && k !in KeyNames
  }

  /** `create()` applied to a request payload. A missing payload passes (the
      object itself is not required); anything but an object is refused; then
      the four keys in order; then keys the schema does not declare. */
  function Create(payload: Option<Json>, isEmail: string -> bool): (r: Result<(), ValidationError>)
    ensures payload.None? ==> r.Success?
    ensures payload.Some? && !payload.value.JObj? ==> r == Failure(PayloadNotAnObject)
    ensures payload.Some? && payload.value.JObj? && (exists i :: 0 <= i < |Keys| && KeyRule(payload.value.fields, Keys[i], isEmail).Some?) ==>
      r.Failure? && exists i :: FirstFailingAt(payload.value.fields, Keys, isEmail, i, r.error)
    ensures payload.Some? && payload.value.JObj? && (forall i :: 0 <= i < |Keys| ==> KeyRule(payload.value.fields, Keys[i], isEmail).None?) ==>
      r == if Unknown(payload.value.fields) == {} then Success(()) else Failure(UnknownKeys(Unknown(payload.value.fields)))
  {
    match payload
    case None => Success(())
    case Some(JObj(fields)) =>
      var first := FirstFailure(fields, Keys, isEmail);
      if first.Some? then Failure(first.value)
      else if Unknown(fields) != {} then Failure(UnknownKeys(Unknown(fields)))
      else Success(())
    case Some(_) => Failure(PayloadNotAnObject)
  }

  /** A well-formed registration is accepted. */
  lemma WellFormedAccepted(email: string, username: string, password: string, isEmail: string -> bool)
    requires email != "" && isEmail(email)
    requires MatchesUsernamePattern(username)
    requires Utf16Length(password) >= MinPasswordLength
    ensures Create(Some(JObj(map[Name(Email) := JStr(email), Name(Username) := JStr(username),
                                 Name(Password) := JStr(password), Name(PasswordConfirmation) := JStr(password)])), isEmail)
         == Success(())
  {
    var fields := map[Name(Email) := JStr(email), Name(Username) := JStr(username),
                      Name(Password) := JStr(password), Name(PasswordConfirmation) := JStr(password)];
    assert fields.Keys == KeyNames;
    assert Unknown(fields) == {};
    forall i | 0 <= i < |Keys| ensures KeyRule(fields, Keys[i], isEmail).None? {
      assert Keys[i] in {Email, Username, Password, PasswordConfirmation};
    }
  }

  /** An email failure is reported whatever is wrong with the other keys. */
  lemma EmailCheckedFirst(fields: map<string, Json>, isEmail: string -> bool)
    requires KeyRule(fields, Email, isEmail).Some?
    ensures Create(Some(JObj(fields)), isEmail) == Failure(KeyError(Email, KeyRule(fields, Email, isEmail).value))
  {
  }

  /** A username with a space in it is refused by the pattern once the email
      is acceptable. */
  lemma UsernameWithSpaceRejected(fields: map<string, Json>, isEmail: string -> bool, a: string, b: string)
    requires KeyRule(fields, Email, isEmail).None?
    requires Name(Username) in fields && fields[Name(Username)] == JStr(a + " " + b)
    ensures Create(Some(JObj(fields)), isEmail) == Failure(KeyError(Username, UsernamePattern))
  {
    assert (a + " " + b)[|a|] == ' ';
    assert KeyRule(fields, Keys[1], isEmail) == Some(UsernamePattern);
    var i :| FirstFailingAt(fields, Keys, isEmail, i, Create(Some(JObj(fields)), isEmail).error);
    assert Keys[0] == Email;
    assert i == 1;
  }

  /** A password shorter than eight characters is refused once email and
      username pass. */
  lemma ShortPasswordRejected(fields: map<string, Json>, isEmail: string -> bool, p: string)
    requires KeyRule(fields, Email, isEmail).None? && KeyRule(fields, Username, isEmail).None?
    requires Name(Password) in fields && fields[Name(Password)] == JStr(p) && p != "" && |p| < MinPasswordLength
    requires forall i :: 0 <= i < |p| ==> p[i] as int < 0x10000
    ensures Create(Some(JObj(fields)), isEmail) == Failure(KeyError(Password, TooShort(8)))
  {
    Utf16LengthOfBmp(p);
    assert KeyRule(fields, Keys[2], isEmail) == Some(TooShort(8));
    var i :| FirstFailingAt(fields, Keys, isEmail, i, Create(Some(JObj(fields)), isEmail).error);
    assert Keys[0] == Email && Keys[1] == Username;
    assert i == 2;
  }

  lemma {:induction false} Utf16LengthOfBmp(s: string)
    requires forall i :: 0 <= i < |s| ==> s[i] as int < 0x10000
    ensures Utf16Length(s) == |s|
  {
    if s != [] {
      Utf16LengthOfBmp(s[1..]);
    }
  }

  /** A confirmation that differs from the password is refused once the other
      three keys pass. */
  lemma ConfirmationMismatchRejected(fields: map<string, Json>, isEmail: string -> bool)
    requires KeyRule(fields, Email, isEmail).None? && KeyRule(fields, Username, isEmail).None?
    requires KeyRule(fields, Password, isEmail).None?
    requires Name(PasswordConfirmation) in fields && fields[Name(PasswordConfirmation)] != fields[Name(Password)]
    ensures Create(Some(JObj(fields)), isEmail) == Failure(KeyError(PasswordConfirmation, MustMatchPassword))
  {
    assert KeyRule(fields, Keys[3], isEmail) == Some(MustMatchPassword);
    var i :| FirstFailingAt(fields, Keys, isEmail, i, Create(Some(JObj(fields)), isEmail).error);
    assert Keys[0] == Email && Keys[1] == Username && Keys[2] == Password;
    assert i == 3;
  }
}
