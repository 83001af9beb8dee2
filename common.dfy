/** Values shared by every part of the model: optional values and results,
    the JavaScript error objects the reply helpers inspect, the JSON values
    that travel in request and response bodies, and the shapes of the
    validation results the token stores hand to the bearer gate. */
module Common {

  datatype Option<+T> = None | Some(value: T)

  datatype Result<+T, +E> = Success(value: T) | Failure(error: E)

  /** Instants and durations in milliseconds, the resolution `moment` compares at. */
  type Time = int

  /** A JavaScript error as the reply helpers see it: its `name`, its `message`,
      the `output.payload.message` of a Boom error (None when `isBoom` is not set),
      and the messages of the `errors` items a Sequelize validation error carries. */
  datatype JsError = JsError(name: string, message: string, boom: Option<string>, errors: seq<string>)

  /** `new Error(message)` */
  function NewError(message: string): (e: JsError)
    ensures e.boom.None? && e.message == message && e.name == "Error" && e.errors == []
  {
    JsError("Error", message, None, [])
  }

  /** The TypeError the runtime throws for a call of an undefined method or a
      property read on null. */
  function NewTypeError(message: string): (e: JsError)
    ensures e.boom.None? && e.message == message && e.name == "TypeError" && e.errors == []
  {
    JsError("TypeError", message, None, [])
  }

  /** A JSON value (request payloads and response bodies). */
  datatype Json =
    | JNull
    | JBool(b: bool)
    | JNum(n: int)
    | JStr(s: string)
    | JArr(items: seq<Json>)
    | JObj(fields: map<string, Json>)

  /** JavaScript truthiness of a boolean-valued property that may be missing. */
  predicate Truthy(b: Option<bool>) {
    b == Some(true)
  }

  /** The `credentials` property of a validation result: missing, present but
      not an object (null, a primitive), or an object. */
  datatype Cred<+C> = NoCredentials | NotAnObject | CredObject(obj: C)

  /** A token validation result object; a property that the source does not
      set is None. */
  datatype Verdict = Verdict(isValid: Option<bool>, isExpired: Option<bool>)

  /** A validation result object that may also carry credentials. */
  datatype AuthResult<+C> = AuthResult(isValid: Option<bool>, isExpired: Option<bool>, credentials: Cred<C>)

  /** The arguments of a Node-style `(error, result)` callback. */
  datatype Callback<+C> = CbError(error: JsError) | CbResult(result: AuthResult<C>)

  /** The argument `validate(tokenRecord)` receives: no record (null), a row,
      or an object whose accessor methods throw. */
  datatype RecordArg<+R> = Absent | Record(row: R) | Unreadable

  function ToRecordArg<R>(found: Option<R>): (a: RecordArg<R>)
    ensures a.Absent? <==> found.None?
    ensures found.Some? ==> a == Record(found.value)
  {
    match found
    case None => Absent
    case Some(r) => Record(r)
  }

  /** `moment(expiredAt).isBefore(now)`: strictly before, so the expiry
      instant itself is not yet expired. */
  predicate IsBefore(expiredAt: Time, now: Time) {
    expiredAt < now
  }

  /** The mail message `{to, subject, html}` handed to the mail service. */
  datatype MailMessage = MailMessage(to: string, subject: string, html: string)

  /** `needle` occurs in `hay` starting at index `i`. */
  predicate OccursAt(hay: string, needle: string, i: int) {
    0 <= i <= |hay| - |needle| && hay[i..i + |needle|] == needle
  }

  /** `needle` occurs in `hay` as a contiguous block. */
  ghost predicate Contains(hay: string, needle: string) {
    exists i :: OccursAt(hay, needle, i)
  }

  lemma ContainsMiddle(a: string, b: string, c: string)
    ensures Contains(a + b + c, b)
  {
    var h := a + b + c;
    assert h[|a|..|a| + |b|] == b;
    assert OccursAt(h, b, |a|);
  }

  /** A block that ends the middle part of a concatenation occurs in it. */
  lemma ContainsEndOfMiddle(a: string, b: string, c: string, d: string)
    ensures Contains(a + (b + c) + d, c)
  {
    assert a + (b + c) + d == (a + b) + c + d;
    ContainsMiddle(a + b, c, d);
  }

  /** `k` is the position of the first element of `rows` that satisfies `matches`. */
  ghost predicate FirstMatchAt<R>(rows: seq<R>, matches: R -> bool, k: int) {
    0 <= k < |rows| && matches(rows[k]) && forall j :: 0 <= j < k ==> !matches(rows[j])
  }

  /** The position `findOne` stops at: the first element satisfying the
      condition, or None when no element does. */
  function FindIndex<R>(rows: seq<R>, matches: R -> bool): (k: Option<nat>)
    ensures k.None? <==> forall i :: 0 <= i < |rows| ==> !matches(rows[i])
    ensures k.Some? ==> FirstMatchAt(rows, matches, k.value)
  {
    if rows == [] then None
    else if matches(rows[0]) then Some(0)
    else
      var k := FindIndex(rows[1..], matches);
      if k.None? then None else Some(k.value + 1)
  }

  /** `findOne({where: ...})`: the first row satisfying the condition. */
  function FindOne<R>(rows: seq<R>, matches: R -> bool): (r: Option<R>)
    ensures r.None? <==> forall i :: 0 <= i < |rows| ==> !matches(rows[i])
    ensures r.Some? ==> exists k :: FirstMatchAt(rows, matches, k) && rows[k] == r.value
  {
    var k := FindIndex(rows, matches);
    if k.None? then None else Some(rows[k.value])
  }
}
