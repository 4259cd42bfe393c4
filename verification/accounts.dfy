/** The user table shared by the auth and admin services: one row per
    account with its credentials, one-time-password state and role. */
module Accounts {
  import opened Common
  import opened Text
  import opened ErrorHandler
  import Tables

  datatype Role = Normal | Seller | Admin | SuperAdmin

  function RoleName(r: Role): string {
    match r
    case Normal => "normal"
    case Seller => "seller"
    case Admin => "admin"
    case SuperAdmin => "superadmin"
  }

  /** The role a string names, if it names one of the four. */
  function ParseRole(s: string): (r: Option<Role>)
    ensures r.Some? <==> s in {"normal", "seller", "admin", "superadmin"}
  {
    if s == "normal" then Some(Normal)
    else if s == "seller" then Some(Seller)
    else if s == "admin" then Some(Admin)
    else if s == "superadmin" then Some(SuperAdmin)
    else None
  }

  lemma RoleNamesRoundTrip(r: Role, s: string)
    ensures ParseRole(RoleName(r)) == Some(r)
    ensures ParseRole(s).Some? ==> RoleName(ParseRole(s).value) == s
  {
  }

  /** The role a new row receives: the column's default in the database
      schema, which is not part of this model; "normal" is assumed. */
  const DefaultRole: Role := Normal

  /** A user row. `kycStatus` is `None` while it holds the schema default. */
  datatype User = User(
    id: nat,
    email: string,
    fullname: Option<string>,
    password: Option<string>,      // bcrypt hash; absent for Google-only accounts
    emailOTP: Option<string>,
    phoneOTP: Option<string>,
    otpExpiresAt: Option<int>,     // one expiry shared by the email and phone codes
    emailVerified: bool,
    phoneVerified: bool,
    googleId: Option<string>,
    phone: Option<string>,
    role: Role,
    kycStatus: Option<string>,
    createdAt: int)

  /** The payload of a session token as the middleware reads it back: the
      user id and, when the signer put one in, the role name. */
  datatype Claims = Claims(id: int, role: Option<string>)

  /** What `login` and `loginWithGoogle` sign: `{ id: user.id }`, no role. */
  function LoginClaims(u: User): (c: Claims)
    ensures c.id == u.id && c.role.None?
  {
    Claims(u.id, None)
  }

  /** The table and its autoincrement counter. */
  datatype Users = Users(rows: seq<User>, nextId: nat)

  /** The table's unique columns (id, email, googleId) and the counter
      being ahead of every id handed out. */
  predicate Valid(db: Users) {
    && (forall i, j :: 0 <= i < j < |db.rows| ==> db.rows[i].id != db.rows[j].id)
    && (forall i, j :: 0 <= i < j < |db.rows| ==> db.rows[i].email != db.rows[j].email)
    && (forall i, j :: 0 <= i < j < |db.rows| && db.rows[i].googleId.Some? ==>
          db.rows[i].googleId != db.rows[j].googleId)
    && (forall i :: 0 <= i < |db.rows| ==> db.rows[i].id < db.nextId)
  }

  function FindByEmail(db: Users, email: string): (r: Option<nat>)
    ensures r.Some? ==> r.value < |db.rows| && db.rows[r.value].email == email
    ensures r.Some? ==> forall j :: 0 <= j < r.value ==> db.rows[j].email != email
    ensures r.None? <==> forall j :: 0 <= j < |db.rows| ==> db.rows[j].email != email
  {
    Tables.FindFirst(db.rows, (u: User) => u.email == email)
  }

  function FindById(db: Users, id: nat): (r: Option<nat>)
    ensures r.Some? ==> r.value < |db.rows| && db.rows[r.value].id == id
    ensures r.Some? ==> forall j :: 0 <= j < r.value ==> db.rows[j].id != id
    ensures r.None? <==> forall j :: 0 <= j < |db.rows| ==> db.rows[j].id != id
  {
    Tables.FindFirst(db.rows, (u: User) => u.id == id)
  }

  function FindByGoogleId(db: Users, googleId: string): (r: Option<nat>)
    ensures r.Some? ==> r.value < |db.rows| && db.rows[r.value].googleId == Some(googleId)
    ensures r.Some? ==> forall j :: 0 <= j < r.value ==> db.rows[j].googleId != Some(googleId)
    ensures r.None? <==> forall j :: 0 <= j < |db.rows| ==> db.rows[j].googleId != Some(googleId)
  {
    Tables.FindFirst(db.rows, (u: User) => u.googleId == Some(googleId))
  }

  /** The email lookup depends only on the email column. */
  lemma SameEmailsSameFind(db: Users, db': Users, email: string)
    requires |db'.rows| == |db.rows|
    requires forall j :: 0 <= j < |db.rows| ==> db'.rows[j].email == db.rows[j].email
    ensures FindByEmail(db', email) == FindByEmail(db, email)
  {
  }

  /** In a valid table a unique column value names exactly one row. */
  lemma FindByEmailUnique(db: Users, email: string, k: nat)
    requires Valid(db) && k < |db.rows| && db.rows[k].email == email
    ensures FindByEmail(db, email) == Some(k)
  {
  }

  lemma FindByIdUnique(db: Users, id: nat, k: nat)
    requires Valid(db) && k < |db.rows| && db.rows[k].id == id
    ensures FindById(db, id) == Some(k)
  {
  }

  /** A fresh row as `user.create` stores it: the next id, the default role,
      nothing verified. */
  function NewUser(db: Users, email: string, fullname: Option<string>, now: int): (u: User)
    ensures u.id == db.nextId && u.email == email && u.role == DefaultRole
    ensures !u.emailVerified && !u.phoneVerified && u.googleId.None? && u.password.None?
  {
    User(db.nextId, email, fullname, None, None, None, None, false, false, None, None, DefaultRole, None, now)
  }

  function Insert(db: Users, u: User): (db': Users)
    requires u.id == db.nextId
    ensures db'.rows == db.rows + [u] && db'.nextId == db.nextId + 1
  {
    Users(db.rows + [u], db.nextId + 1)
  }

  /** Inserting a row whose email and Google id are not yet taken keeps the
      table valid. */
  lemma InsertKeepsValid(db: Users, u: User)
    requires Valid(db) && u.id == db.nextId
    requires FindByEmail(db, u.email).None?
    requires u.googleId.Some? ==> FindByGoogleId(db, u.googleId.value).None?
    ensures Valid(Insert(db, u))
  {
  }

  /** Replacing row `i` by a row with the same unique columns keeps the
      table valid. */
  lemma ReplaceKeepsValid(db: Users, i: nat, u: User)
    requires Valid(db) && i < |db.rows|
    requires u.id == db.rows[i].id && u.email == db.rows[i].email && u.googleId == db.rows[i].googleId
    ensures Valid(db.(rows := db.rows[i := u]))
  {
  }

  /** Removing row `i` keeps the table valid. */
  lemma RemoveKeepsValid(db: Users, i: nat)
    requires Valid(db) && i < |db.rows|
    ensures Valid(db.(rows := Tables.RemoveAt(db.rows, i)))
  {
    var rows := db.rows;
    var r := Tables.RemoveAt(rows, i);
    forall a | 0 <= a < |r| ensures r[a] == rows[if a < i then a else a + 1] {
    }
    forall a, b | 0 <= a < b < |r|
      ensures r[a].id != r[b].id && r[a].email != r[b].email
      ensures r[a].googleId.Some? ==> r[a].googleId != r[b].googleId
    {
      var a' := if a < i then a else a + 1;
      var b' := if b < i then b else b + 1;
      assert a' < b' && r[a] == rows[a'] && r[b] == rows[b'];
    }
  }

  /** After removing row `i` of a valid table its id occurs nowhere, and
      every other row is still present. */
  lemma RemoveIsExact(db: Users, i: nat)
    requires Valid(db) && i < |db.rows|
    ensures var r := Tables.RemoveAt(db.rows, i);
      && (forall a :: 0 <= a < |r| ==> r[a].id != db.rows[i].id)
      && (forall j :: 0 <= j < |db.rows| && j != i ==> db.rows[j] in r)
  {
    var rows := db.rows;
    var r := Tables.RemoveAt(rows, i);
    forall a | 0 <= a < |r| ensures r[a].id != rows[i].id {
      if a < i { assert r[a] == rows[a]; } else { assert r[a] == rows[a + 1]; }
    }
    forall j | 0 <= j < |rows| && j != i ensures rows[j] in r {
      if j < i { assert r[j] == rows[j]; } else { assert r[j - 1] == rows[j]; }
    }
  }

  /** The path or body id as `Number(userId)`: NaN is refused by the ORM's
      argument validation. */
  function UserIdOf(userId: string): (r: Result<nat, AppError>)
    ensures r.Ok? <==> NumberOf(userId).Some?
    ensures r.Ok? ==> r.value == NumberOf(userId).value
  {
    match NumberOf(userId)
    case Some(n) => Ok(n)
    case None => Err(Validation("Argument `id` is missing."))
  }
}
