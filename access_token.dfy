/** The `user_access_token` table: session tokens owned by a user. Lookups
    join the owning user and return a row only when that user exists. */
module AccessTokens {
  import opened Common
  import opened Uri
  import opened Tokens
  import opened UserModel

  datatype AccessTokenRow = AccessTokenRow(id: nat, userId: nat, accessToken: string, expiredAt: Time, isActive: bool)

  /** A token row with its owning user attached as `.User`. */
  datatype Joined = Joined(row: AccessTokenRow, user: UserRow)

  /** `{user}`: the credentials a valid token yields. */
  datatype Credentials = Credentials(user: UserRow)

  /** The row has an owner in `users`: the inner join keeps it. */
  predicate HasOwner(users: seq<UserRow>, row: AccessTokenRow) {
    FindById(users, row.userId).Some?
  }

  function Join(users: seq<UserRow>, found: Option<AccessTokenRow>): (r: Option<Joined>)
    requires found.Some? ==> HasOwner(users, found.value)
    ensures r.None? <==> found.None?
    ensures r.Some? ==> r.value.row == found.value && Some(r.value.user) == FindById(users, found.value.userId)
  {
    if found.None? then None else Some(Joined(found.value, FindById(users, found.value.userId).value))
  }

  /** The classification inside `validateAccessToken`: no row or an inactive
      row gives `{isValid: false}`; an active row whose expiry is strictly
      before now gives `{isExpired: true}`; otherwise `{credentials: {user}}`
      with the joined owner. No branch sets `isValid` to true. */
  function Classify(found: Option<Joined>, now: Time): (v: AuthResult<Credentials>)
    ensures found.None? ==> v == AuthResult(Some(false), None, NoCredentials)
    ensures found.Some? && !found.value.row.isActive ==> v == AuthResult(Some(false), None, NoCredentials)
    ensures found.Some? && found.value.row.isActive && IsBefore(found.value.row.expiredAt, now) ==>
      v == AuthResult(None, Some(true), NoCredentials)
    ensures v.credentials.CredObject? <==>
      found.Some? && found.value.row.isActive && !IsBefore(found.value.row.expiredAt, now)
    ensures v.credentials.CredObject? ==> v == AuthResult(None, None, CredObject(Credentials(found.value.user)))
    ensures !Truthy(v.isValid)
  {
    match found
    case None => AuthResult(Some(false), None, NoCredentials)
    case Some(j) =>
      if !j.row.isActive then AuthResult(Some(false), None, NoCredentials)
      else if IsBefore(j.row.expiredAt, now) then AuthResult(None, Some(true), NoCredentials)
      else AuthResult(None, None, CredObject(Credentials(j.user)))
  }

  /** `validateAccessToken(token, callback)` once the lookup has settled: a
      failed lookup goes to the callback as its error, a settled one as the
      classification. */
  function OnLookup(lookup: Result<Option<Joined>, JsError>, now: Time): (cb: Callback<Credentials>)
    ensures lookup.Failure? <==> cb.CbError?
    ensures lookup.Failure? ==> cb.error == lookup.error
    ensures lookup.Success? ==> cb == CbResult(Classify(lookup.value, now))
  {
    match lookup
    case Failure(e) => CbError(e)
    case Success(found) => CbResult(Classify(found, now))
  }

  /** Once expired, a token stays expired; a token accepted at some instant
      was accepted at every earlier instant. */
  lemma ExpiryIsPermanent(j: Joined, t1: Time, t2: Time)
    requires t1 <= t2
    ensures Classify(Some(j), t1).isExpired == Some(true) ==> Classify(Some(j), t2).isExpired == Some(true)
    ensures Classify(Some(j), t2).credentials.CredObject? ==> Classify(Some(j), t1).credentials.CredObject?
  {
  }

  class UserAccessTokenTable {
    /** ACCESS_TOKEN_LIFE_TIME, in seconds. */
    const lifeTime: int
    var rows: seq<AccessTokenRow>
    var nextId: nat

    ghost predicate Valid()
      reads this
    {
      && (forall i :: 0 <= i < |rows| ==> rows[i].id < nextId)
      && (forall i, j :: 0 <= i < j < |rows| ==> rows[i].id < rows[j].id)
    }

    constructor (lifeTime: int)
      ensures Valid() && this.lifeTime == lifeTime && rows == [] && nextId == 1
    {
      this.lifeTime := lifeTime;
      rows := [];
      nextId := 1;
    }

    /** `createNewAccessToken(userId)`: appends exactly one row with a fresh
        generated token, its expiry and the user id; `is_active` takes its
        default, true. Returns the token. */
    method CreateNewAccessToken(userId: nat, sha1: seq<Byte> -> Digest, random: RandomBytes, now: Time)
      returns (token: string)
      requires Valid()
      modifies this
      ensures Valid()
      ensures rows == old(rows) + [AccessTokenRow(old(nextId), userId, token, now + lifeTime * 1000, true)]
      ensures nextId == old(nextId) + 1
      ensures |token| == 40 && IsLowerHex(token) && HexDecode(token) == sha1(random)
    {
      var t := GenToken(sha1, random, now, lifeTime);
      rows := rows + [AccessTokenRow(nextId, userId, t.value, t.expired, true)];
      nextId := nextId + 1;
      token := t.value;
    }

    /** `findByToken(token)`: the first row with this token whose owner
        exists, joined with that owner. */
    function FindByToken(token: string, users: seq<UserRow>): (r: Option<Joined>)
      reads this
      ensures r.None? <==> forall i :: 0 <= i < |rows| ==> !(rows[i].accessToken == token && HasOwner(users, rows[i]))
      ensures r.Some? ==> r.value.row in rows && r.value.row.accessToken == token
      ensures r.Some? ==> Some(r.value.user) == FindById(users, r.value.row.userId)
      ensures r.Some? ==> exists k :: FirstMatchAt(rows, (x: AccessTokenRow) => x.accessToken == token && HasOwner(users, x), k)
                                      && rows[k] == r.value.row
    {
      Join(users, FindOne(rows, (x: AccessTokenRow) => x.accessToken == token && HasOwner(users, x)))
    }

    /** `findByUserId(userId)`: the first row of this user, provided the user
        exists, joined with that user. */
    function FindByUserId(userId: nat, users: seq<UserRow>): (r: Option<Joined>)
      reads this
      ensures r.None? <==> FindById(users, userId).None? || forall i :: 0 <= i < |rows| ==> rows[i].userId != userId
      ensures r.Some? ==> r.value.row in rows && r.value.row.userId == userId
      ensures r.Some? ==> Some(r.value.user) == FindById(users, userId)
      ensures r.Some? ==> exists k :: FirstMatchAt(rows, (x: AccessTokenRow) => x.userId == userId && HasOwner(users, x), k)
                                      && rows[k] == r.value.row
    {
      Join(users, FindOne(rows, (x: AccessTokenRow) => x.userId == userId && HasOwner(users, x)))
    }

    /** `validateAccessToken(token, callback)` against this table: the
        callback always gets a result; an unknown token or an inactive row is
        `{isValid: false}`, an active row past its expiry `{isExpired: true}`,
        and the owner of an active, unexpired row comes back as credentials. */
    function ValidateAccessToken(token: string, users: seq<UserRow>, now: Time): (cb: Callback<Credentials>)
      reads this
      ensures cb.CbResult? && !Truthy(cb.result.isValid)
      ensures (forall i :: 0 <= i < |rows| ==> !(rows[i].accessToken == token && HasOwner(users, rows[i]))) ==>
        cb == CbResult(AuthResult(Some(false), None, NoCredentials))
      ensures var found := FindByToken(token, users);
        found.Some? && !found.value.row.isActive ==> cb == CbResult(AuthResult(Some(false), None, NoCredentials))
      ensures var found := FindByToken(token, users);
        found.Some? && found.value.row.isActive && IsBefore(found.value.row.expiredAt, now) ==>
          cb == CbResult(AuthResult(None, Some(true), NoCredentials))
      ensures var found := FindByToken(token, users);
        cb.result.credentials.CredObject? <==>
          found.Some? && found.value.row.isActive && !IsBefore(found.value.row.expiredAt, now)
      ensures var found := FindByToken(token, users);
        cb.result.credentials.CredObject? ==>
          found.value.row.accessToken == token
          && Some(cb.result.credentials.obj.user) == FindById(users, found.value.row.userId)
    {
      OnLookup(Success(FindByToken(token, users)), now)
    }
  }

  /** A token just issued to an existing user, whose value no earlier row
      holds, is found again and yields that user's credentials until it
      expires. */
  lemma IssuedTokenIsAccepted(t: UserAccessTokenTable, before: seq<AccessTokenRow>, row: AccessTokenRow,
                              users: seq<UserRow>, now: Time)
    requires t.rows == before + [row]
    requires forall i :: 0 <= i < |before| ==> before[i].accessToken != row.accessToken
    requires HasOwner(users, row) && row.isActive && !IsBefore(row.expiredAt, now)
    ensures t.FindByToken(row.accessToken, users) == Some(Joined(row, FindById(users, row.userId).value))
    ensures t.ValidateAccessToken(row.accessToken, users, now)
      == CbResult(AuthResult(None, None, CredObject(Credentials(FindById(users, row.userId).value))))
  {
    var r := t.FindByToken(row.accessToken, users);
    assert t.rows[|before|] == row;
    var k :| FirstMatchAt(t.rows, (x: AccessTokenRow) => x.accessToken == row.accessToken && HasOwner(users, x), k)
             && t.rows[k] == r.value.row;
    assert k == |before|;
  }
}
