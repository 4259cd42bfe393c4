/** The admin endpoints (src/controllers/admin.controller.ts). None of them
    catches: an error the service throws leaves the handler unanswered,
    which is the `Unhandled` reply here. `userId` is the raw path or body
    value, read with `Number(userId)`. */
module AdminController {
  import opened Common
  import opened Text
  import opened ErrorHandler
  import opened Accounts
  import opened AdminService
  import AuthService
  import Sorting

  const InvalidRoleText: string := "Invalid role"
  const RoleUpdatedText: string := "User role updated"
  const DemotedText: string := "User demoted successfully"
  const RemovedText: string := "User removed"
  const SuspendedText: string := "User suspended"

  datatype AdminReply =
    | Listed(users: seq<User>)
    | Done(message: string, user: User)
    | BadRequest(message: string)
    | Unhandled(error: AppError)

  datatype AdminAnswer = AdminAnswer(reply: AdminReply, db: Users)

  /** A service outcome as the handler answers it. */
  function Answer(message: string, r: AdminOutcome): (a: AdminAnswer)
    ensures a.db == r.db
    ensures r.result.Ok? <==> a.reply.Done?
    ensures r.result.Ok? ==> a.reply == Done(message, r.result.value)
    ensures r.result.Err? ==> a.reply == Unhandled(r.result.error)
  {
    match r.result
    case Ok(u) => AdminAnswer(Done(message, u), r.db)
    case Err(e) => AdminAnswer(Unhandled(e), r.db)
  }

  /** `fetchUsers`. */
  function FetchUsers(db: Users): (r: AdminReply)
    ensures r.Listed? && multiset(r.users) == multiset(db.rows)
    ensures r.Listed? && Sorting.SortedDesc(r.users, (u: User) => u.createdAt)
  {
    Listed(GetAllUsers(db))
  }

  /** `promoteUser`: the role is checked against the four names first. */
  function PromoteUser(db: Users, userId: string, newRole: string): (r: AdminAnswer)
    ensures ParseRole(newRole).None? ==> r == AdminAnswer(BadRequest(InvalidRoleText), db)
    ensures ParseRole(newRole).Some? && UserIdOf(userId).Err? ==>
      r == AdminAnswer(Unhandled(UserIdOf(userId).error), db)
    ensures ParseRole(newRole).Some? && UserIdOf(userId).Ok? ==>
      r == Answer(RoleUpdatedText, UpdateUserRole(db, UserIdOf(userId).value, newRole))
  {
    if newRole !in ["normal", "seller", "admin", "superadmin"] then AdminAnswer(BadRequest(InvalidRoleText), db)
    else match UserIdOf(userId)
      case Err(e) => AdminAnswer(Unhandled(e), db)
      case Ok(id) => Answer(RoleUpdatedText, UpdateUserRole(db, id, newRole))
  }

  /** Any of the four roles is accepted for any existing user, whatever the
      user's current role: "promoting" may lower a role as well. */
  lemma PromoteSetsAnyRole(db: Users, id: nat, role: Role)
    requires FindById(db, id).Some?
    ensures var r := PromoteUser(db, NatToDecimal(id), RoleName(role));
      var i := FindById(db, id).value;
      && r.reply.Done? && r.reply.message == RoleUpdatedText
      && r.db.rows[i].role == role
  {
    RoleNamesRoundTrip(role, "");
    NumberOfDecimal(id);
  }

  /** A name outside the four roles gets 400 and changes nothing. */
  lemma PromoteRejectsUnknownRole(db: Users, userId: string, newRole: string)
    requires newRole !in {"normal", "seller", "admin", "superadmin"}
    ensures PromoteUser(db, userId, newRole) == AdminAnswer(BadRequest(InvalidRoleText), db)
  {
  }

  /** `demoteUser`: no check on the role; a bad value reaches the ORM,
      whose validation error goes unanswered. */
  function DemoteUser(db: Users, userId: string, newRole: string): (r: AdminAnswer)
    ensures UserIdOf(userId).Err? ==> r == AdminAnswer(Unhandled(UserIdOf(userId).error), db)
    ensures UserIdOf(userId).Ok? ==>
      r == Answer(DemotedText, UpdateUserRole(db, UserIdOf(userId).value, newRole))
  {
    match UserIdOf(userId)
    case Err(e) => AdminAnswer(Unhandled(e), db)
    case Ok(id) => Answer(DemotedText, UpdateUserRole(db, id, newRole))
  }

  /** Demotion and promotion make the same change to the table; they differ
      only in how an invalid role is answered: 400 from promotion, an
      unanswered validation error from demotion. */
  lemma DemoteIsUncheckedPromote(db: Users, userId: string, newRole: string)
    ensures DemoteUser(db, userId, newRole).db == PromoteUser(db, userId, newRole).db
    ensures ParseRole(newRole).None? ==>
      && PromoteUser(db, userId, newRole).reply == BadRequest(InvalidRoleText)
      && DemoteUser(db, userId, newRole).reply.Unhandled?
      && DemoteUser(db, userId, newRole).reply.error.Validation?
  {
  }

  /** `removeUser`; `referenced` says whether other rows refer to the
      user, as for `deleteUser`. */
  function RemoveUser(db: Users, userId: string, referenced: bool): (r: AdminAnswer)
    ensures UserIdOf(userId).Err? ==> r == AdminAnswer(Unhandled(UserIdOf(userId).error), db)
    ensures UserIdOf(userId).Ok? ==> r == Answer(RemovedText, DeleteUser(db, UserIdOf(userId).value, referenced))
  {
    match UserIdOf(userId)
    case Err(e) => AdminAnswer(Unhandled(e), db)
    case Ok(id) => Answer(RemovedText, DeleteUser(db, id, referenced))
  }

  /** `suspendUserAccount`. */
  function SuspendUserAccount(db: Users, userId: string): (r: AdminAnswer)
    ensures UserIdOf(userId).Err? ==> r == AdminAnswer(Unhandled(UserIdOf(userId).error), db)
    ensures UserIdOf(userId).Ok? ==> r == Answer(SuspendedText, SuspendUser(db, UserIdOf(userId).value))
  {
    match UserIdOf(userId)
    case Err(e) => AdminAnswer(Unhandled(e), db)
    case Ok(id) => Answer(SuspendedText, SuspendUser(db, id))
  }

  /** Removing an unreferenced user by the decimal form of its id removes
      exactly that user; a second removal finds nothing and changes nothing.
      A referenced user is refused and stays. */
  lemma RemoveTwiceIsNotFound(db: Users, id: nat, again: bool)
    requires Valid(db)
    ensures var db1 := RemoveUser(db, NatToDecimal(id), false).db;
      && FindById(db1, id).None?
      && RemoveUser(db1, NatToDecimal(id), again).db == db1
      && RemoveUser(db1, NatToDecimal(id), again).reply.Unhandled?
    ensures FindById(db, id).Some? ==>
      && RemoveUser(db, NatToDecimal(id), true).db == db
      && RemoveUser(db, NatToDecimal(id), true).reply.Unhandled?
  {
    NumberOfDecimal(id);
    DeleteRemovesExactly(db, id, false);
  }

  /** Suspension is only a status: a suspended account logs in exactly as
      before. */
  lemma SuspendedUserCanStillLogin(db: Users, userId: string, email: string, password: string,
                                   matches: (string, string) -> bool, sign: Claims -> string)
    ensures var db1 := SuspendUserAccount(db, userId).db;
      AuthService.Login(db1, email, password, matches, sign).Ok? <==>
      AuthService.Login(db, email, password, matches, sign).Ok?
  {
    var db1 := SuspendUserAccount(db, userId).db;
    assert |db1.rows| == |db.rows|;
    forall j | 0 <= j < |db.rows|
      ensures db1.rows[j].email == db.rows[j].email && db1.rows[j].password == db.rows[j].password
      ensures db1.rows[j].emailVerified == db.rows[j].emailVerified
    {
    }
    SameEmailsSameFind(db, db1, email);
  }
}
