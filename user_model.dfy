/** The `user` table and the password helpers of the User model. bcrypt is a
    parameter: its hash and compare functions, with the salt that
    `genSaltSync()` would draw passed in. */
module UserModel {
  import opened Common

  /** A row of the `user` table. `password` holds a bcrypt hash. */
  datatype UserRow = UserRow(id: nat, email: string, username: string, password: string, isActive: bool)

  /** `bcrypt.hashSync(password, salt)` and `bcrypt.compareSync(password, hash)`. */
  datatype Bcrypt = Bcrypt(hashSync: (string, string) -> string, compareSync: (string, string) -> bool)

  /** What the model relies on from bcrypt: a password matches every hash
      made from it, whatever the salt. */
  ghost predicate Sound(bcrypt: Bcrypt) {
    forall p, salt :: bcrypt.compareSync(p, bcrypt.hashSync(p, salt))
  }

  /** `hash(password)` */
  function Hash(bcrypt: Bcrypt, password: string, salt: string): (h: string)
    ensures Sound(bcrypt) ==> bcrypt.compareSync(password, h)
  {
    bcrypt.hashSync(password, salt)
  }

  /** `validate(password, hash)` */
  function Validate(bcrypt: Bcrypt, password: string, hash: string): (ok: bool)
    ensures Sound(bcrypt) && (exists salt :: hash == bcrypt.hashSync(password, salt)) ==> ok
  {
    bcrypt.compareSync(password, hash)
  }

  /** The user with the given id, as an inner join on `user.id` finds it. */
  function FindById(users: seq<UserRow>, id: nat): (u: Option<UserRow>)
    ensures u.Some? ==> u.value in users && u.value.id == id
    ensures u.None? <==> forall i :: 0 <= i < |users| ==> users[i].id != id
  {
    FindOne(users, (u: UserRow) => u.id == id)
  }

  /** The messages of the not-null violations Sequelize reports, in the
      order the columns are declared. */
  function NullViolations(email: Option<string>, username: Option<string>): (errors: seq<string>)
    ensures errors == [] <==> email.Some? && username.Some?
    ensures email.None? && username.Some? ==> errors == ["email cannot be null"]
    ensures email.Some? && username.None? ==> errors == ["username cannot be null"]
    ensures email.None? && username.None? ==> errors == ["email cannot be null", "username cannot be null"]
  {
    (if email.None? then ["email cannot be null"] else [])
    + (if username.None? then ["username cannot be null"] else [])
  }

  class UserTable {
    var rows: seq<UserRow>
    var nextId: nat

    /** Ids are assigned by auto-increment: increasing, and below `nextId`. */
    ghost predicate Valid()
      reads this
    {
      && (forall i :: 0 <= i < |rows| ==> rows[i].id < nextId)
      && (forall i, j :: 0 <= i < j < |rows| ==> rows[i].id < rows[j].id)
    }

    constructor ()
      ensures Valid() && rows == [] && nextId == 1
    {
      rows := [];
      nextId := 1;
    }

    /** `createNewUser({email, username, password})`: inserts one row holding
        the email and username as given, the bcrypt hash of the password (never
        the password itself) and `is_active` false. A missing email or username
        violates NOT NULL and nothing is inserted. */
    method CreateNewUser(email: Option<string>, username: Option<string>, password: string,
                         bcrypt: Bcrypt, salt: string)
      returns (r: Result<UserRow, JsError>)
      requires Valid()
      modifies this
      ensures Valid()
      ensures r.Failure? <==> email.None? || username.None?
      ensures r.Failure? ==> rows == old(rows) && nextId == old(nextId)
      ensures r.Failure? ==> r.error.name == "SequelizeValidationError" && r.error.boom.None?
      ensures r.Failure? ==> r.error.errors == NullViolations(email, username)
      ensures r.Success? ==> r.value == UserRow(old(nextId), email.value, username.value, Hash(bcrypt, password, salt), false)
      ensures r.Success? ==> rows == old(rows) + [r.value] && nextId == old(nextId) + 1
      ensures r.Success? ==> forall i :: 0 <= i < |old(rows)| ==> old(rows)[i].id != r.value.id
      ensures r.Success? && Sound(bcrypt) ==> Validate(bcrypt, password, r.value.password)
    {
      if email.None? || username.None? {
        var errors := NullViolations(email, username);
        return Failure(JsError("SequelizeValidationError", "notNull Violation", None, errors));
      }
      var row := UserRow(nextId, email.value, username.value, Hash(bcrypt, password, salt), false);
      rows := rows + [row];
      nextId := nextId + 1;
      r := Success(row);
    }
  }
}
