/** The `user_recovery` table: account-recovery tokens sent by mail. A row
    holds the token, its expiry, the address it was sent to and an active
    flag that defaults to true. */
module Recovery {
  import opened Common
  import opened Uri
  import opened Tokens
  import opened Utils

  const EmailSubject := "Recover Account"
  const RecoverPath := "/users/recover?token="
  const TemplateHead := "Hello\nPlease click on the link to recover your account.\n<a href="
  const TemplateTail := ">Click here to recover</a>"

  datatype RecoveryRow = RecoveryRow(id: nat, email: string, token: string, expiredAt: Time, isActive: bool)

  /** `validate(tokenRecord)`: no record, an inactive record, or a record whose
      accessors throw is `{isValid: false}`; an active record whose expiry is
      strictly before now is `{isExpired: true}`; any other record is
      `{isValid: true, isExpired: false}`. */
  function Validate(rec: RecordArg<RecoveryRow>, now: Time): (v: Verdict)
    ensures rec.Absent? || rec.Unreadable? ==> v == Verdict(Some(false), None)
    ensures rec.Record? && !rec.row.isActive ==> v == Verdict(Some(false), None)
    ensures rec.Record? && rec.row.isActive && IsBefore(rec.row.expiredAt, now) ==> v == Verdict(None, Some(true))
    ensures Truthy(v.isValid) <==> rec.Record? && rec.row.isActive && !IsBefore(rec.row.expiredAt, now)
    ensures Truthy(v.isValid) ==> v == Verdict(Some(true), Some(false))
  {
    match rec
    case Absent => Verdict(Some(false), None)
    case Unreadable => Verdict(Some(false), None)
    case Record(row) =>
      if !row.isActive then Verdict(Some(false), None)
      else if IsBefore(row.expiredAt, now) then Verdict(None, Some(true))
      else Verdict(Some(true), Some(false))
  }

  /** For an active record the answer depends on the clock alone: valid up to
      and including the expiry instant, expired from the next instant on, and
      never valid again afterwards. */
  lemma ValidityWindow(row: RecoveryRow, now: Time)
    requires row.isActive
    ensures Validate(Record(row), now) == (if now <= row.expiredAt then Verdict(Some(true), Some(false))
                                                                   else Verdict(None, Some(true)))
  {
  }

  lemma {:induction false} ExpiredStaysExpired(row: RecoveryRow, t1: Time, t2: Time)
    requires t1 <= t2 && Validate(Record(row), t1).isExpired == Some(true)
    ensures Validate(Record(row), t2) == Verdict(None, Some(true))
  {
    ValidityWindow(row, t1);
    ValidityWindow(row, t2);
  }

  /** An inactive token is refused at every instant. */
  lemma InactiveIsNeverValid(row: RecoveryRow, now: Time)
    requires !row.isActive
    ensures !Truthy(Validate(Record(row), now).isValid) && Validate(Record(row), now).isExpired.None?
  {
  }

  /** `buildRecoveryUrl(token)`: the base URL (no request), the recovery path
      and the encoded token. Decoding the query value gives the token's bytes
      back, and a hex token appears in it as it is. */
  function BuildRecoveryUrl(env: Env, token: string): (url: string)
    ensures |url| >= |GetBaseUrl(env, None) + RecoverPath|
    ensures url[..|GetBaseUrl(env, None) + RecoverPath|] == GetBaseUrl(env, None) + RecoverPath
    ensures Unescape(url[|GetBaseUrl(env, None) + RecoverPath|..]) == Utf8Encode(token)
    ensures IsLowerHex(token) ==> url == GetBaseUrl(env, None) + RecoverPath + token
  {
    var prefix := GetBaseUrl(env, None) + RecoverPath;
    var url := prefix + EncodeUriComponent(token);
    assert url[|prefix|..] == EncodeUriComponent(token);
    EncodeUriComponentRoundTrip(token);
    if IsLowerHex(token) then HexIsUnchanged(token); url else url
  }

  /** `createEmailRecoveryPayload(email, token)`: addressed to `email`, with
      the recovery subject and an html body that carries the recovery URL
      unescaped. */
  function CreateEmailRecoveryPayload(env: Env, email: string, token: string): (m: MailMessage)
    ensures m.to == email && m.subject == EmailSubject
    ensures Contains(m.html, BuildRecoveryUrl(env, token))
  {
    var url := BuildRecoveryUrl(env, token);
    ContainsMiddle(TemplateHead, url, TemplateTail);
    MailMessage(email, EmailSubject, TemplateHead + url + TemplateTail)
  }

  /** For a generated token the mail carries the token itself in the link. */
  lemma PayloadCarriesToken(env: Env, email: string, token: string)
    requires IsLowerHex(token)
    ensures Contains(CreateEmailRecoveryPayload(env, email, token).html, RecoverPath + token)
  {
    var base := GetBaseUrl(env, None);
    assert BuildRecoveryUrl(env, token) == base + (RecoverPath + token);
    ContainsEndOfMiddle(TemplateHead, base, RecoverPath + token, TemplateTail);
  }

  class UserRecoveryTable {
    /** EMAIL_RECOVERY_TOKEN_LIFE_TIME, in seconds. */
    const lifeTime: int
    var rows: seq<RecoveryRow>
    var nextId: nat

    ghost predicate Valid()
      reads this
    {
      && (forall i :: 0 <= i < |rows| ==> rows[i].id < nextId)
      && (forall i, j :: 0 <= i < j < |rows| ==> rows[i].id < rows[j].id)
    }

    constructor (lifeTime: int)
      ensures Valid() && this.lifeTime == lifeTime && rows == [] && nextId == 1
    {
      this.lifeTime := lifeTime;
      rows := [];
      nextId := 1;
    }

    /** `createNewToken(email)`: appends exactly one active row with a fresh
        token, its expiry and the address, and returns the token. */
    method CreateNewToken(email: string, sha1: seq<Byte> -> Digest, random: RandomBytes, now: Time)
      returns (token: string)
      requires Valid()
      modifies this
      ensures Valid()
      ensures rows == old(rows) + [RecoveryRow(old(nextId), email, token, now + lifeTime * 1000, true)]
      ensures nextId == old(nextId) + 1
      ensures |token| == 40 && IsLowerHex(token) && HexDecode(token) == sha1(random)
    {
      var t := GenToken(sha1, random, now, lifeTime);
      rows := rows + [RecoveryRow(nextId, email, t.value, t.expired, true)];
      nextId := nextId + 1;
      token := t.value;
    }

    /** `findByEmail(email)`: the first row sent to this address. */
    function FindByEmail(email: string): (r: Option<RecoveryRow>)
      reads this
      ensures r.None? <==> forall i :: 0 <= i < |rows| ==> rows[i].email != email
      ensures r.Some? ==> exists k :: FirstMatchAt(rows, (x: RecoveryRow) => x.email == email, k) && rows[k] == r.value
    {
      FindOne(rows, (x: RecoveryRow) => x.email == email)
    }

    /** `findByToken(token)`: the first row holding this token. */
    function FindByToken(token: string): (r: Option<RecoveryRow>)
      reads this
      ensures r.None? <==> forall i :: 0 <= i < |rows| ==> rows[i].token != token
      ensures r.Some? ==> exists k :: FirstMatchAt(rows, (x: RecoveryRow) => x.token == token, k) && rows[k] == r.value
    {
      FindOne(rows, (x: RecoveryRow) => x.token == token)
    }

    /** `findAndValidateToken(token)`: valid exactly when the row found for the
        token is active and not yet past its expiry; an unknown token is
        `{isValid: false}`. */
    function FindAndValidateToken(token: string, now: Time): (v: Verdict)
      reads this
      ensures (forall i :: 0 <= i < |rows| ==> rows[i].token != token) ==> v == Verdict(Some(false), None)
      ensures Truthy(v.isValid) <==> FindByToken(token).Some? && FindByToken(token).value.isActive
                                     && !IsBefore(FindByToken(token).value.expiredAt, now)
      ensures FindByToken(token).Some? && !FindByToken(token).value.isActive ==> v == Verdict(Some(false), None)
      ensures var found := FindByToken(token);
        found.Some? && found.value.isActive && IsBefore(found.value.expiredAt, now) ==> v == Verdict(None, Some(true))
    {
      Validate(ToRecordArg(FindByToken(token)), now)
    }
  }

  /** A token just issued, whose value no earlier row holds, validates until
      its expiry instant inclusive. */
  lemma IssuedTokenValidates(t: UserRecoveryTable, before: seq<RecoveryRow>, row: RecoveryRow, now: Time)
    requires t.rows == before + [row]
    requires forall i :: 0 <= i < |before| ==> before[i].token != row.token
    requires row.isActive && now <= row.expiredAt
    ensures t.FindByToken(row.token) == Some(row)
    ensures t.FindAndValidateToken(row.token, now) == Verdict(Some(true), Some(false))
  {
    var r := t.FindByToken(row.token);
    assert t.rows[|before|] == row;
    var k :| FirstMatchAt(t.rows, (x: RecoveryRow) => x.token == row.token, k) && t.rows[k] == r.value;
    assert k == |before|;
  }
}
