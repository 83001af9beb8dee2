/** The `user_email_verification` table: address-verification tokens sent
    by mail. A row holds the token, its expiry and the address; unlike the
    recovery table it has no active flag. */
module EmailVerification {
  import opened Common
  import opened Uri
  import opened Tokens
  import opened Utils

  const EmailSubject := "Verify Account"
  const VerifyPath := "/users/verify?token="
  const TemplateHead := "Hello\nPlease click on the link to verify your email.\n<a href="
  const TemplateTail := ">Click here to verify</a>"

  datatype VerificationRow = VerificationRow(id: nat, email: string, token: string, expiredAt: Time)

  /** `validate(tokenRecord)`: no record is `{isValid: false}`; a record whose
      expiry is strictly before now is `{isExpired: true}`; a record whose
      accessor throws is `{isValid: false, isExpired: true}`; any other record
      is `{isValid: true, isExpired: false}`. */
  function Validate(rec: RecordArg<VerificationRow>, now: Time): (v: Verdict)
    ensures rec.Absent? <==> v == Verdict(Some(false), None)
    ensures rec.Unreadable? <==> v == Verdict(Some(false), Some(true))
    ensures rec.Record? && IsBefore(rec.row.expiredAt, now) <==> v == Verdict(None, Some(true))
    ensures Truthy(v.isValid) <==> rec.Record? && !IsBefore(rec.row.expiredAt, now)
    ensures Truthy(v.isValid) ==> v == Verdict(Some(true), Some(false))
  {
    match rec
    case Absent => Verdict(Some(false), None)
    case Unreadable => Verdict(Some(false), Some(true))
    case Record(row) =>
      if IsBefore(row.expiredAt, now) then Verdict(None, Some(true))
      else Verdict(Some(true), Some(false))
  }

  /** Every record is valid up to and including its expiry instant and
      expired from the next instant on. */
  lemma ValidityWindow(row: VerificationRow, now: Time)
    ensures Validate(Record(row), now) == (if now <= row.expiredAt then Verdict(Some(true), Some(false))
                                                                   else Verdict(None, Some(true)))
  {
  }

  lemma {:induction false} ExpiredStaysExpired(row: VerificationRow, t1: Time, t2: Time)
    requires t1 <= t2 && Validate(Record(row), t1).isExpired == Some(true)
    ensures Validate(Record(row), t2) == Verdict(None, Some(true))
  {
    ValidityWindow(row, t1);
    ValidityWindow(row, t2);
  }

  /** `buildVerificationUrl(token)`: the base URL (no request), the
      verification path and the encoded token. Decoding the query value gives
      the token's bytes back, and a hex token appears in it as it is. */
  function BuildVerificationUrl(env: Env, token: string): (url: string)
    ensures |url| >= |GetBaseUrl(env, None) + VerifyPath|
    ensures url[..|GetBaseUrl(env, None) + VerifyPath|] == GetBaseUrl(env, None) + VerifyPath
    ensures Unescape(url[|GetBaseUrl(env, None) + VerifyPath|..]) == Utf8Encode(token)
    ensures IsLowerHex(token) ==> url == GetBaseUrl(env, None) + VerifyPath + token
  {
    var prefix := GetBaseUrl(env, None) + VerifyPath;
    var url := prefix + EncodeUriComponent(token);
    assert url[|prefix|..] == EncodeUriComponent(token);
    EncodeUriComponentRoundTrip(token);
    if IsLowerHex(token) then HexIsUnchanged(token); url else url
  }

  /** `createEmailVerificationPayload(email, token)`: addressed to `email`,
      with the verification subject and an html body that carries the
      verification URL unescaped. */
  function CreateEmailVerificationPayload(env: Env, email: string, token: string): (m: MailMessage)
    ensures m.to == email && m.subject == EmailSubject
    ensures Contains(m.html, BuildVerificationUrl(env, token))
  {
    var url := BuildVerificationUrl(env, token);
    ContainsMiddle(TemplateHead, url, TemplateTail);
    MailMessage(email, EmailSubject, TemplateHead + url + TemplateTail)
  }

  /** The address is not part of the link: two mails for the same token
      differ only in their recipient. */
  lemma PayloadLinkIgnoresEmail(env: Env, e1: string, e2: string, token: string)
    ensures CreateEmailVerificationPayload(env, e1, token).html == CreateEmailVerificationPayload(env, e2, token).html
    ensures CreateEmailVerificationPayload(env, e1, token).to == e1
  {
  }

  /** For a generated token the mail carries the token itself in the link. */
  lemma PayloadCarriesToken(env: Env, email: string, token: string)
    requires IsLowerHex(token)
    ensures Contains(CreateEmailVerificationPayload(env, email, token).html, VerifyPath + token)
  {
    var base := GetBaseUrl(env, None);
    assert BuildVerificationUrl(env, token) == base + (VerifyPath + token);
    ContainsEndOfMiddle(TemplateHead, base, VerifyPath + token, TemplateTail);
  }

  class UserEmailVerificationTable {
    /** EMAIL_VERIFICATION_TOKEN_LIFE_TIME, in seconds. */
    const lifeTime: int
    var rows: seq<VerificationRow>
    var nextId: nat

    ghost predicate Valid()
      reads this
    {
      && (forall i :: 0 <= i < |rows| ==> rows[i].id < nextId)
      && (forall i, j :: 0 <= i < j < |rows| ==> rows[i].id < rows[j].id)
    }

    constructor (lifeTime: int)
      ensures Valid() && this.lifeTime == lifeTime && rows == [] && nextId == 1
    {
      this.lifeTime := lifeTime;
      rows := [];
      nextId := 1;
    }

    /** `createNewToken(email)`: appends exactly one row with a fresh token,
        its expiry and the address, and returns the token. */
    method CreateNewToken(email: string, sha1: seq<Byte> -> Digest, random: RandomBytes, now: Time)
      returns (token: string)
      requires Valid()
      modifies this
      ensures Valid()
      ensures rows == old(rows) + [VerificationRow(old(nextId), email, token, now + lifeTime * 1000)]
      ensures nextId == old(nextId) + 1
      ensures |token| == 40 && IsLowerHex(token) && HexDecode(token) == sha1(random)
    {
      var t := GenToken(sha1, random, now, lifeTime);
      rows := rows + [VerificationRow(nextId, email, t.value, t.expired)];
      nextId := nextId + 1;
      token := t.value;
    }

    /** `findByEmail(email)`: the first row sent to this address. */
    function FindByEmail(email: string): (r: Option<VerificationRow>)
      reads this
      ensures r.None? <==> forall i :: 0 <= i < |rows| ==> rows[i].email != email
      ensures r.Some? ==> exists k :: FirstMatchAt(rows, (x: VerificationRow) => x.email == email, k) && rows[k] == r.value
    {
      FindOne(rows, (x: VerificationRow) => x.email == email)
    }

    /** `findByToken(token)`: the first row holding this token. */
    function FindByToken(token: string): (r: Option<VerificationRow>)
      reads this
      ensures r.None? <==> forall i :: 0 <= i < |rows| ==> rows[i].token != token
      ensures r.Some? ==> exists k :: FirstMatchAt(rows, (x: VerificationRow) => x.token == token, k) && rows[k] == r.value
    {
      FindOne(rows, (x: VerificationRow) => x.token == token)
    }

    /** `findAndValidateToken(token)`: valid exactly when a row holds the token
        and the first such row is not yet past its expiry; an unknown token is
        `{isValid: false}`. */
    function FindAndValidateToken(token: string, now: Time): (v: Verdict)
      reads this
      ensures (forall i :: 0 <= i < |rows| ==> rows[i].token != token) <==> v == Verdict(Some(false), None)
      ensures Truthy(v.isValid) <==> FindByToken(token).Some? && !IsBefore(FindByToken(token).value.expiredAt, now)
    {
      Validate(ToRecordArg(FindByToken(token)), now)
    }
  }

  /** A token just issued, whose value no earlier row holds, validates until
      its expiry instant inclusive and is expired afterwards. */
  lemma IssuedTokenValidates(t: UserEmailVerificationTable, before: seq<VerificationRow>, row: VerificationRow, now: Time)
    requires t.rows == before + [row]
    requires forall i :: 0 <= i < |before| ==> before[i].token != row.token
    ensures t.FindByToken(row.token) == Some(row)
    ensures t.FindAndValidateToken(row.token, now)
      == (if now <= row.expiredAt then Verdict(Some(true), Some(false)) else Verdict(None, Some(true)))
  {
    var r := t.FindByToken(row.token);
    assert t.rows[|before|] == row;
    var k :| FirstMatchAt(t.rows, (x: VerificationRow) => x.token == row.token, k) && t.rows[k] == r.value;
    assert k == |before|;
  }
}
