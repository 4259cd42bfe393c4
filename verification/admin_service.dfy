/** User administration on the user table (src/services/admin.service.ts):
    listing, role change, deletion and suspension. */
module AdminService {
  import opened Common
  import opened ErrorHandler
  import opened Accounts
  import Tables
  import Sorting

  const SuspendedStatus: string := "SUSPENDED"

  /** The row a write returned (or the error it threw) and the table after it. */
  datatype AdminOutcome = AdminOutcome(result: Result<User, AppError>, db: Users)

  /** `getAllUsers`: every row, newest first. */
  function GetAllUsers(db: Users): (r: seq<User>)
    ensures Sorting.SortedDesc(r, (u: User) => u.createdAt)
    ensures multiset(r) == multiset(db.rows)
  {
    Sorting.SortDesc(db.rows, (u: User) => u.createdAt)
  }

  /** The listing holds every user and nothing else. */
  lemma AllUsersListed(db: Users)
    ensures |GetAllUsers(db)| == |db.rows|
    ensures forall i :: 0 <= i < |db.rows| ==> db.rows[i] in GetAllUsers(db)
    ensures forall i :: 0 <= i < |GetAllUsers(db)| ==> GetAllUsers(db)[i] in db.rows
  {
    var r := GetAllUsers(db);
    assert |multiset(r)| == |multiset(db.rows)|;
    forall i | 0 <= i < |db.rows| ensures db.rows[i] in r {
      assert db.rows[i] in multiset(db.rows);
    }
    forall i | 0 <= i < |r| ensures r[i] in db.rows {
      assert r[i] in multiset(r);
    }
  }

  /** `updateUserRole`. The role column is an enum: a value outside it is
      refused by the ORM's argument validation before any lookup. */
  function UpdateUserRole(db: Users, userId: nat, role: string): (r: AdminOutcome)
    ensures ParseRole(role).None? ==> r.db == db && r.result.Err? && r.result.error.Validation?
    ensures ParseRole(role).Some? && FindById(db, userId).None? ==>
      r.db == db && r.result.Err? && r.result.error.KnownRequest? && r.result.error.code == "P2025"
    ensures r.result.Ok? <==> ParseRole(role).Some? && FindById(db, userId).Some?
    ensures r.result.Ok? ==> var i := FindById(db, userId).value;
      && r.db.nextId == db.nextId
      && |r.db.rows| == |db.rows|
      && r.result.value == r.db.rows[i]
      && r.db.rows[i].role == ParseRole(role).value
      && r.db.rows[i].(role := db.rows[i].role) == db.rows[i]
      && (forall j :: 0 <= j < |db.rows| && j != i ==> r.db.rows[j] == db.rows[j])
  {
    match ParseRole(role)
    case None => AdminOutcome(Err(Validation("Invalid value for argument `role`. Expected Role.")), db)
    case Some(newRole) =>
      match FindById(db, userId)
      case None => AdminOutcome(Err(RecordNotFound("Record to update not found.")), db)
      case Some(i) =>
        var u := db.rows[i].(role := newRole);
        AdminOutcome(Ok(u), db.(rows := db.rows[i := u]))
  }

  /** A role change keeps the table's unique columns. */
  lemma UpdateRoleKeepsValid(db: Users, userId: nat, role: string)
    requires Valid(db)
    ensures Valid(UpdateUserRole(db, userId, role).db)
  {
    match FindById(db, userId)
    case None =>
    case Some(i) =>
      if ParseRole(role).Some? {
        ReplaceKeepsValid(db, i, db.rows[i].(role := ParseRole(role).value));
      }
  }

  /** Setting the same role twice is setting it once. */
  lemma UpdateRoleIdempotent(db: Users, userId: nat, role: string)
    ensures var db1 := UpdateUserRole(db, userId, role).db;
      UpdateUserRole(db1, userId, role).db == db1
  {
    var r := UpdateUserRole(db, userId, role);
    if r.result.Ok? {
      var i := FindById(db, userId).value;
      var db1 := r.db;
      var k := FindById(db1, userId).value;
      assert db1.rows[i].id == userId;
      assert k == i;
      assert db1.rows[i := db1.rows[i].(role := ParseRole(role).value)] == db1.rows;
    }
  }

  /** `deleteUser`. Wallets, bank accounts, properties and the relation
      tables refer to users; `referenced` says whether any row does, and
      then the database refuses the deletion (P2003) and nothing changes. */
  function DeleteUser(db: Users, userId: nat, referenced: bool): (r: AdminOutcome)
    ensures FindById(db, userId).None? ==>
      r.db == db && r.result.Err? && r.result.error.KnownRequest? && r.result.error.code == "P2025"
    ensures FindById(db, userId).Some? && referenced ==>
      r == AdminOutcome(Err(ForeignKeyViolation("userId")), db)
    ensures r.result.Ok? <==> FindById(db, userId).Some? && !referenced
    ensures r.result.Ok? ==>
      && r.result.value == db.rows[FindById(db, userId).value]
      && r.db.nextId == db.nextId
      && multiset(r.db.rows) == multiset(db.rows) - multiset{r.result.value}
  {
    match FindById(db, userId)
    case None => AdminOutcome(Err(RecordNotFound("Record to delete does not exist.")), db)
    case Some(i) =>
      if referenced then AdminOutcome(Err(ForeignKeyViolation("userId")), db)
      else AdminOutcome(Ok(db.rows[i]), db.(rows := Tables.RemoveAt(db.rows, i)))
  }

  /** In a valid table a deletion the database allows removes exactly the
      named user: it is gone, every other row is still there, and the table
      stays valid. A refused deletion leaves the table as it was. */
  lemma DeleteRemovesExactly(db: Users, userId: nat, referenced: bool)
    requires Valid(db)
    ensures var db1 := DeleteUser(db, userId, referenced).db;
      && Valid(db1)
      && (!referenced ==> FindById(db1, userId).None?)
      && (referenced ==> db1 == db)
      && (forall j :: 0 <= j < |db.rows| && db.rows[j].id != userId ==> db.rows[j] in db1.rows)
  {
    match FindById(db, userId)
    case None =>
    case Some(i) =>
      if !referenced {
        var db1 := db.(rows := Tables.RemoveAt(db.rows, i));
        assert DeleteUser(db, userId, referenced).db == db1;
        RemoveKeepsValid(db, i);
        RemoveIsExact(db, i);
        assert FindById(db1, userId).None?;
      }
  }

  /** `suspendUser`: only the KYC status changes; the account is not
      otherwise touched. */
  function SuspendUser(db: Users, userId: nat): (r: AdminOutcome)
    ensures FindById(db, userId).None? ==>
      r.db == db && r.result.Err? && r.result.error.KnownRequest? && r.result.error.code == "P2025"
    ensures r.result.Ok? <==> FindById(db, userId).Some?
    ensures r.result.Ok? ==> var i := FindById(db, userId).value;
      && r.db.nextId == db.nextId
      && |r.db.rows| == |db.rows|
      && r.result.value == r.db.rows[i]
      && r.db.rows[i].kycStatus == Some(SuspendedStatus)
      && r.db.rows[i].(kycStatus := db.rows[i].kycStatus) == db.rows[i]
      && (forall j :: 0 <= j < |db.rows| && j != i ==> r.db.rows[j] == db.rows[j])
  {
    match FindById(db, userId)
    case None => AdminOutcome(Err(RecordNotFound("Record to update not found.")), db)
    case Some(i) =>
      var u := db.rows[i].(kycStatus := Some(SuspendedStatus));
      AdminOutcome(Ok(u), db.(rows := db.rows[i := u]))
  }

  lemma SuspendKeepsValid(db: Users, userId: nat)
    requires Valid(db)
    ensures Valid(SuspendUser(db, userId).db)
  {
    match FindById(db, userId)
    case None =>
    case Some(i) => ReplaceKeepsValid(db, i, db.rows[i].(kycStatus := Some(SuspendedStatus)));
  }
}
