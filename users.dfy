/** The user directory rules of the users controller: who may be created, which
    fields an update may change, and the soft delete that spares admins.  The chain
    builder reads the `managerId` these operations maintain. */
module UserController {
  import opened Common
  import opened Store

  datatype UserError =
    | MissingFields      // 400 "All fields are required"
    | InvalidRole        // 400 "Invalid role"
    | EmailTaken         // 400 "Email already registered"
    | InvalidManager     // 400 "Invalid manager ID"
    | UserNotFound       // 404
    | NoFieldsToUpdate   // 400 "No valid fields to update"
    | CannotDeleteAdmin  // 400

  /** The `managerId` field of an update request: absent (`undefined`), or present
      with a JSON value, where `None` is null. */
  datatype ManagerField = Undefined | Defined(value: Option<int>)

  /** The roles `createUser` accepts: employee and manager, never admin. */
  function CreatableRole(s: string): (r: Option<Role>)
    ensures r.Some? ==> r.value != Admin
    ensures r.Some? <==> s == "employee" || s == "manager"
  {
    if s == "employee" then Some(Employee)
    else if s == "manager" then Some(Manager)
    else None
  }

  /** The roles `updateUser` accepts: employee, manager and admin. */
  function AnyRole(s: string): (r: Option<Role>)
    ensures r.Some? <==> s == "employee" || s == "manager" || s == "admin"
    ensures CreatableRole(s).Some? ==> r == CreatableRole(s)
  {
    if s == "admin" then Some(Admin) else CreatableRole(s)
  }

  /** Some user of any company already has this email. */
  predicate EmailExists(users: seq<User>, email: string)
  {
    exists i :: 0 <= i < |users| && users[i].email == email
  }

  /** The user `id` exists and belongs to the company. */
  predicate InCompany(users: seq<User>, id: int, companyId: int)
  {
    1 <= id <= |users| && users[id - 1].companyId == companyId
  }

  /** The user `id` may be somebody's manager: an existing manager or admin of the
      same company. */
  predicate IsManagerCandidate(users: seq<User>, id: int, companyId: int)
  {
    InCompany(users, id, companyId) && users[id - 1].role in {Manager, Admin}
  }

  /** Every field `createUser` requires is present and non-empty. */
  predicate AllGiven(email: string, password: string, firstName: string, lastName: string, roleText: string)
  {
    Given(email) && Given(password) && Given(firstName) && Given(lastName) && Given(roleText)
  }

  /** The guards of `createUser`, checked in the source's order; on success, the
      role to store. */
  function CheckNewUser(
    users: seq<User>, companyId: int, email: string, password: string,
    firstName: string, lastName: string, roleText: string, managerId: Option<int>)
    : (r: Result<Role, UserError>)
    ensures r.Ok? <==>
              && Given(email) && Given(password) && Given(firstName) && Given(lastName)
              && CreatableRole(roleText).Some?
              && !EmailExists(users, email)
              && (Truthy(managerId) ==> IsManagerCandidate(users, managerId.value, companyId))
    ensures r.Ok? ==> r.value == CreatableRole(roleText).value && r.value != Admin
    ensures r == Err(MissingFields) <==> !AllGiven(email, password, firstName, lastName, roleText)
    ensures r == Err(InvalidRole) <==>
              AllGiven(email, password, firstName, lastName, roleText) && CreatableRole(roleText).None?
    ensures r == Err(EmailTaken) <==>
              && AllGiven(email, password, firstName, lastName, roleText) && CreatableRole(roleText).Some?
              && EmailExists(users, email)
    ensures r == Err(InvalidManager) <==>
              && AllGiven(email, password, firstName, lastName, roleText) && CreatableRole(roleText).Some?
              && !EmailExists(users, email)
              && Truthy(managerId) && !IsManagerCandidate(users, managerId.value, companyId)
    ensures r.Err? ==> r.error in {MissingFields, InvalidRole, EmailTaken, InvalidManager}
  {
    if !AllGiven(email, password, firstName, lastName, roleText) then
      Err(MissingFields)
    else if CreatableRole(roleText).None? then
      Err(InvalidRole)
    else if EmailExists(users, email) then
      Err(EmailTaken)
    else if Truthy(managerId) && !IsManagerCandidate(users, managerId.value, companyId) then
      Err(InvalidManager)
    else
      Ok(CreatableRole(roleText).value)
  }

  /** `createUser`: on success appends the new user, active, with a falsy manager
      stored as null, and returns its id; on any error nothing changes. */
  method CreateUser(
    db: Database, companyId: int, email: string, password: string,
    firstName: string, lastName: string, roleText: string, managerId: Option<int>)
    returns (r: Result<int, UserError>)
    requires db.Valid()
    modifies db`users
    ensures db.Valid()
    ensures var check := CheckNewUser(old(db.users), companyId, email, password, firstName, lastName, roleText, managerId);
            && (r.Err? <==> check.Err?)
            && (r.Err? ==> r.error == check.error && db.users == old(db.users))
            && (r.Ok? ==> && r.value == |old(db.users)| + 1
                          && db.users == old(db.users)
                               + [User(companyId, email, firstName, lastName, check.value, OrNull(managerId), true)])
  {
    var check := CheckNewUser(db.users, companyId, email, password, firstName, lastName, roleText, managerId);
    if check.Err? {
      return Err(check.error);
    }
    var user := User(companyId, email, firstName, lastName, check.value, OrNull(managerId), true);
    db.users := db.users + [user];
    r := Ok(|db.users|);
  }

  /** Rewriting one row without touching its email keeps emails unique. */
  lemma EmailsUniqueKeptByUpdate(users: seq<User>, i: int, u: User)
    requires EmailsUnique(users) && 0 <= i < |users| && u.email == users[i].email
    ensures EmailsUnique(users[i := u])
  {
  }

  /** `updateUser`: changes only the supplied fields of a user of the caller's
      company: names when truthy, the role when it is one of the three roles, the
      manager when the field is present (a falsy value clears it, a truthy one must
      name a manager candidate), and the active flag when it is a boolean.  A request
      that supplies none of these is refused. */
  method UpdateUser(
    db: Database, companyId: int, userId: int, firstName: string, lastName: string,
    roleText: string, managerId: ManagerField, isActive: Option<bool>)
    returns (r: Result<(), UserError>)
    requires db.Valid()
    modifies db`users
    ensures db.Valid()
    ensures r == Err(UserNotFound) <==> !InCompany(old(db.users), userId, companyId)
    ensures r == Err(InvalidManager) <==>
              && InCompany(old(db.users), userId, companyId)
              && managerId.Defined? && Truthy(managerId.value)
              && !IsManagerCandidate(old(db.users), managerId.value.value, companyId)
    ensures r == Err(NoFieldsToUpdate) <==>
              && InCompany(old(db.users), userId, companyId)
              && !Given(firstName) && !Given(lastName) && AnyRole(roleText).None?
              && managerId.Undefined? && isActive.None?
    ensures r.Err? ==> r.error in {UserNotFound, InvalidManager, NoFieldsToUpdate}
    ensures r.Err? ==> db.users == old(db.users)
    ensures r.Ok? ==>
              && InCompany(old(db.users), userId, companyId)
              && |db.users| == |old(db.users)|
              && (forall i :: 0 <= i < |db.users| && i != userId - 1 ==> db.users[i] == old(db.users)[i])
              && var u, u' := old(db.users)[userId - 1], db.users[userId - 1];
                 && u'.email == u.email && u'.companyId == u.companyId
                 && u'.firstName == (if Given(firstName) then firstName else u.firstName)
                 && u'.lastName == (if Given(lastName) then lastName else u.lastName)
                 && u'.role == (if AnyRole(roleText).Some? then AnyRole(roleText).value else u.role)
                 && u'.managerId == (if managerId.Defined? then OrNull(managerId.value) else u.managerId)
                 && u'.isActive == (if isActive.Some? then isActive.value else u.isActive)
  {
    if !InCompany(db.users, userId, companyId) {
      return Err(UserNotFound);
    }
    var update := BuildUpdate(db.users, companyId, db.users[userId - 1], firstName, lastName, roleText, managerId, isActive);
    if update.Err? {
      return Err(update.error);
    }
    var row, assignments := update.value.0, update.value.1;
    if assignments == 0 {
      return Err(NoFieldsToUpdate);
    }
    EmailsUniqueKeptByUpdate(db.users, userId - 1, row);
    db.users := db.users[userId - 1 := row];
    r := Ok(());
  }

  /** The SET list of `updateUser`, built field by field in the source's order:
      the row as the update statement leaves it and the number of `column = ?`
      items.  A truthy manager id that names no manager candidate of the company
      is refused. */
  method BuildUpdate(
    users: seq<User>, companyId: int, u: User, firstName: string, lastName: string,
    roleText: string, managerId: ManagerField, isActive: Option<bool>)
    returns (r: Result<(User, nat), UserError>)
    ensures r.Err? <==>
              managerId.Defined? && Truthy(managerId.value) && !IsManagerCandidate(users, managerId.value.value, companyId)
    ensures r.Err? ==> r.error == InvalidManager
    ensures r.Ok? ==>
              && r.value.0 == u.(firstName := if Given(firstName) then firstName else u.firstName,
                                 lastName := if Given(lastName) then lastName else u.lastName,
                                 role := if AnyRole(roleText).Some? then AnyRole(roleText).value else u.role,
                                 managerId := if managerId.Defined? then OrNull(managerId.value) else u.managerId,
                                 isActive := if isActive.Some? then isActive.value else u.isActive)
              && (r.value.1 == 0 <==>
                    !Given(firstName) && !Given(lastName) && AnyRole(roleText).None? && managerId.Undefined? && isActive.None?)
  {
    var row := u;
    var assignments := 0;
    if Given(firstName) {
      row, assignments := row.(firstName := firstName), assignments + 1;
    }
    if Given(lastName) {
      row, assignments := row.(lastName := lastName), assignments + 1;
    }
    var role := AnyRole(roleText);
    if role.Some? {
      row, assignments := row.(role := role.value), assignments + 1;
    }
    if managerId.Defined? {
      if Truthy(managerId.value) && !IsManagerCandidate(users, managerId.value.value, companyId) {
        return Err(InvalidManager);
      }
      row, assignments := row.(managerId := OrNull(managerId.value)), assignments + 1;
    }
    if isActive.Some? {
      row, assignments := row.(isActive := isActive.value), assignments + 1;
    }
    r := Ok((row, assignments));
  }

  /** The guards of `deleteUser`. */
  function CheckDelete(users: seq<User>, userId: int, companyId: int): (r: Result<(), UserError>)
    ensures r == Err(UserNotFound) <==> !InCompany(users, userId, companyId)
    ensures r == Err(CannotDeleteAdmin) <==> InCompany(users, userId, companyId) && users[userId - 1].role == Admin
    ensures r.Ok? <==> InCompany(users, userId, companyId) && users[userId - 1].role != Admin
  {
    if !InCompany(users, userId, companyId) then Err(UserNotFound)
    else if users[userId - 1].role == Admin then Err(CannotDeleteAdmin)
    else Ok(())
  }

  /** `deleteUser`: a soft delete.  The row stays; only its active flag is cleared,
      and admins are refused. */
  method DeleteUser(db: Database, companyId: int, userId: int) returns (r: Result<(), UserError>)
    requires db.Valid()
    modifies db`users
    ensures db.Valid()
    ensures r == CheckDelete(old(db.users), userId, companyId)
    ensures r.Err? ==> db.users == old(db.users)
    ensures r.Ok? ==> db.users == old(db.users)[userId - 1 := old(db.users)[userId - 1].(isActive := false)]
  {
    r := CheckDelete(db.users, userId, companyId);
    if r.Ok? {
      var i := userId - 1;
      EmailsUniqueKeptByUpdate(db.users, i, db.users[i].(isActive := false));
      db.users := db.users[i := db.users[i].(isActive := false)];
    }
  }

  /** No directory operation ever removes a user or changes an admin through a
      delete: after a successful `deleteUser`, every admin row is as it was. */
  lemma DeleteSparesAdmins(users: seq<User>, userId: int, companyId: int, i: int)
    requires CheckDelete(users, userId, companyId).Ok?
    requires 0 <= i < |users| && users[i].role == Admin
    ensures users[userId - 1 := users[userId - 1].(isActive := false)][i] == users[i]
  {
  }
}
