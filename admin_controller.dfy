/** The handlers of `controllers/adminController.js`: account management
    for administrators.  Password hashing is a function given by the caller
    and `LIKE` matching a predicate given by the caller. */
module AdminController {
  import opened Common
  import opened Schema
  import opened Queries
  import Text
  import Users
  import Jobs
  import Proposals
  import Projects
  import ProjectFiles

  /** `requireAdmin`: only an administrator passes. */
  function RequireAdmin(role: Role): (r: Outcome)
    ensures r.Pass? <==> role == Admin
    ensures r.Fail? ==> r.error == ForbiddenError("Admin access required")
  {
    if role != Admin then Fail(ForbiddenError("Admin access required")) else Pass
  }

  /** How an address is stored: lower-cased, then trimmed. */
  function NormalizeEmail(email: string): (r: string)
    ensures |r| <= |email|
    ensures Text.Trim(r) == r
    ensures Text.ToLower(r) == r
  {
    var lower := Text.ToLower(email);
    Text.TrimIdempotent(lower);
    Text.ToLowerIdempotent(email);
    Text.TrimKeepsLower(lower);
    Text.Trim(lower)
  }

  /** The role `createUser` stores: one of the three names, else client. */
  function CreateRole(role: Option<string>): (r: Role)
    ensures role.Some? && ParseRole(role.value).Some? ==> r == ParseRole(role.value).value
    ensures role.None? || ParseRole(role.value).None? ==> r == Client
  {
    if role.Some? && ParseRole(role.value).Some? then ParseRole(role.value).value else Client
  }

  datatype UsersPage = UsersPage(users: seq<Users.PublicUser>, page: int, limit: int, total: nat, pages: JsNumber)

  /** `getUsers`: `page` and `limit` default to 1 and 20 and go through
      `parseInt`; a `NaN` bound for `LIMIT` or `OFFSET` makes SQLite refuse
      the query. */
  function GetUsers(users: Users.UserTable, role: Option<string>, search: Option<string>, page: Option<string>,
                    limit: Option<string>, like: (string, string) -> bool): (r: Result<UsersPage>)
    reads users
    ensures var p := Text.IntParam(page, 1);
      var l := Text.IntParam(limit, 20);
      r.Ok? <==> p.Some? && l.Some?
    ensures r.Ok? ==>
      var p := Text.IntParam(page, 1).value;
      var l := Text.IntParam(limit, 20).value;
      var total := users.Count(role, search, like);
      r.value == UsersPage(users.FindAll(role, search, like, l, (p - 1) * l), p, l, total, TotalPages(total, Some(l)))
  {
    var p := Text.IntParam(page, 1);
    var l := Text.IntParam(limit, 20);
    var offset := Offset(p, l);
    if offset.None? then Err(Failure("datatype mismatch"))
    else
      var total := users.Count(role, search, like);
      Ok(UsersPage(users.FindAll(role, search, like, l.value, offset.value), p.value, l.value, total,
                   TotalPages(total, l)))
  }

  /** A page of `getUsers` holds at most `limit` accounts, and every page
      numbered from 1 to `pages` holds at least one. */
  lemma UsersPageBounds(users: Users.UserTable, role: Option<string>, search: Option<string>, page: Option<string>,
                        limit: Option<string>, like: (string, string) -> bool)
    ensures var r := GetUsers(users, role, search, page, limit, like);
      r.Ok? && r.value.limit >= 0 ==> |r.value.users| <= r.value.limit
    ensures var r := GetUsers(users, role, search, page, limit, like);
      r.Ok? && r.value.limit > 0 && r.value.pages.Finite? && 1 <= r.value.page <= r.value.pages.value ==>
      |r.value.users| > 0
  {
    var r := GetUsers(users, role, search, page, limit, like);
    if r.Ok? && r.value.limit > 0 {
      TotalPagesCovers(r.value.total, r.value.limit, r.value.page);
    }
  }

  /** `getUser`. */
  function GetUser(users: Users.UserTable, id: int): (r: Result<Users.PublicUser>)
    reads users
    ensures r.Ok? <==> users.FindById(id).Some?
    ensures r.Ok? ==> r.value == Users.Public(users.rows[id])
    ensures r.Err? ==> r.error == NotFoundError("User not found")
  {
    match users.FindById(id)
    case None => Err(NotFoundError("User not found"))
    case Some(u) => Ok(u)
  }

  /** `createUser`: name, email and password are required; the address is
      normalised before the duplicate check and before it is stored; an
      unknown role becomes client.  Every request that passes the checks
      creates the account. */
  method CreateUser(users: Users.UserTable, name: Option<string>, email: Option<string>, password: Option<string>,
                    role: Option<string>, hash: string -> string, now: Time)
    returns (r: Result<Users.Account>)
    requires users.Valid()
    modifies users
    ensures users.Valid()
    ensures !Truthy(name) || !Truthy(email) || !Truthy(password) ==>
      r == Err(ValidationError("Name, email, and password are required"))
    ensures Truthy(name) && Truthy(email) && Truthy(password) && old(users.EmailTaken(NormalizeEmail(email.value))) ==>
      r == Err(ConflictError("Email already registered"))
    ensures r.Err? ==> users.rows == old(users.rows)
    ensures r.Ok? <==>
      (Truthy(name) && Truthy(email) && Truthy(password) && !old(users.EmailTaken(NormalizeEmail(email.value))))
    ensures r.Ok? ==>
      (r.value == Users.Account(old(users.nextId), Text.Trim(name.value), NormalizeEmail(email.value), CreateRole(role))
       && users.rows == old(users.rows)[r.value.id := Users.User(r.value.id, r.value.name, r.value.email,
                                                                hash(password.value), r.value.role, now)])
  {
    if !Truthy(name) || !Truthy(email) || !Truthy(password) {
      return Err(ValidationError("Name, email, and password are required"));
    }
    var normalized := NormalizeEmail(email.value);
    if users.FindByEmail(normalized).Some? {
      return Err(ConflictError("Email already registered"));
    }
    var userRole := CreateRole(role);
    r := users.Create(Some(Text.Trim(name.value)), Some(normalized), Some(hash(password.value)),
                      Some(RoleName(userRole)), now);
  }

  /** `updateUser`'s duplicate check as written: it runs only when the
      given address differs from the stored one character for character,
      and then looks up the normalised address, which may be the caller's
      own. */
  function EmailConflictAsWritten(stored: Users.PublicUser, email: Option<string>, owner: Option<Users.User>): bool {
    Truthy(email) && email.value != stored.email && owner.Some?
  }

  /** The same check as intended: a conflict is an address that, once
      normalised, belongs to another account. */
  function EmailConflict(stored: Users.PublicUser, email: Option<string>, owner: Option<Users.User>): (r: bool)
    ensures r ==> Truthy(email) && owner.Some? && owner.value.id != stored.id
  {
    Truthy(email) && owner.Some? && owner.value.id != stored.id
  }

  /** As written, re-submitting one's own address with a capital letter is
      refused as a conflict with oneself. */
  lemma SelfConflictAsWritten()
    ensures var stored := Users.PublicUser(1, "Al", "a@b.c", Client, 0);
      var email := Some("A@b.c");
      var owner := Some(Users.User(1, "Al", "a@b.c", "h", Client, 0));
      owner.value.email == NormalizeEmail(email.value)
      && EmailConflictAsWritten(stored, email, owner)
      && !EmailConflict(stored, email, owner)
  {
    var e := "A@b.c";
    var lower := Text.ToLower(e);
    assert |lower| == 5;
    assert lower[0] == Text.LowerChar(e[0]) == 'a';
    assert lower[1] == '@' && lower[2] == 'b' && lower[3] == '.' && lower[4] == 'c';
    assert lower == "a@b.c";
    assert !Text.IsSpace('a') && !Text.IsSpace('c');
    assert Text.TrimStart(lower) == lower;
    assert Text.TrimEnd(lower) == lower;
    assert NormalizeEmail(e) == "a@b.c";
  }

  /** With the intended check, one's own address never conflicts. */
  lemma OwnEmailNeverConflicts(stored: Users.PublicUser, email: Option<string>, owner: Option<Users.User>)
    requires owner.Some? ==> owner.value.id == stored.id
    ensures !EmailConflict(stored, email, owner)
  {
  }

  /** An address whose only owner, if any, is the user `id` is free for
      that user. */
  lemma OwnAddressIsFree(users: Users.UserTable, id: int, email: string)
    requires users.Valid()
    requires users.FindByEmail(email).Some? ==> users.FindByEmail(email).value.id == id
    ensures forall k :: k in users.rows && k != id ==> users.rows[k].email != email
  {
  }

  /** An address that, once normalised, belongs to an account other than
      `id`. */
  predicate TakenByOther(rows: map<nat, Users.User>, id: int, email: Option<string>) {
    Truthy(email) && exists k :: k in rows && k != id && rows[k].email == NormalizeEmail(email.value)
  }

  /** `updateUser`, with the intended duplicate check: unknown id first,
      then a normalised address owned by another account; the name is
      trimmed and the address normalised before the update.  Past the two
      checks only an invalid role can make the write fail. */
  method UpdateUser(users: Users.UserTable, id: int, name: Option<string>, email: Option<string>, role: Option<string>)
    returns (r: Result<Users.PublicUser>)
    requires users.Valid()
    modifies users
    ensures users.Valid() && users.nextId == old(users.nextId)
    ensures old(users.FindById(id)).None? ==> r == Err(NotFoundError("User not found"))
    ensures old(users.FindById(id)).Some? && TakenByOther(old(users.rows), id, email) ==>
      r == Err(ConflictError("Email already in use"))
    ensures r.Err? ==> users.rows == old(users.rows)
    ensures r.Ok? <==>
      old(users.FindById(id)).Some? && !TakenByOther(old(users.rows), id, email)
      && !(Truthy(role) && ParseRole(role.value).None?)
    ensures r.Err? && r.error.ConflictError? ==> TakenByOther(old(users.rows), id, email)
    ensures r.Err? ==>
      (r.error.NotFoundError? || r.error.ConflictError?
       || (r.error.ConstraintError? && Truthy(role) && ParseRole(role.value).None?))
    ensures r.Ok? ==>
      (id >= 0 && id in old(users.rows)
       && users.rows == old(users.rows)[id := Users.UserTable.Updated(
            old(users.rows)[id],
            if name.Some? then Some(Text.Trim(name.value)) else None,
            if email.Some? then Some(NormalizeEmail(email.value)) else None,
            if Truthy(role) then ParseRole(role.value) else None)]
       && r.value == Users.Public(users.rows[id]))
  {
    var user := users.FindById(id);
    if user.None? {
      return Err(NotFoundError("User not found"));
    }
    assert user.value.id == id;
    var owner: Option<Users.User> := None;
    if Truthy(email) {
      owner := users.FindByEmail(NormalizeEmail(email.value));
    }
    if EmailConflict(user.value, email, owner) {
      assert users.rows[owner.value.id].email == NormalizeEmail(email.value);
      return Err(ConflictError("Email already in use"));
    }
    var newName := if name.Some? then Some(Text.Trim(name.value)) else None;
    var newEmail := if email.Some? then Some(NormalizeEmail(email.value)) else None;
    if Truthy(email) {
      OwnAddressIsFree(users, id, NormalizeEmail(email.value));
    } else {
      assert !Truthy(newEmail);
    }
    var updated := users.Update(id, newName, newEmail, role);
    if updated.Err? {
      return Err(updated.error);
    }
    return Ok(updated.value.value);
  }

  /** Whether a row whose foreign key to `users` has no ON DELETE action
      refers to the account: a job it posted, a proposal it sent, a project
      it is client or editor of, or a file it uploaded. */
  predicate Referenced(jobs: Jobs.JobTable, proposals: Proposals.ProposalTable, projects: Projects.ProjectTable,
                       files: ProjectFiles.FileTable, id: int)
    reads jobs, proposals, projects, files
  {
    (exists k :: k in jobs.rows && jobs.rows[k].clientId == id)
    || (exists k :: k in proposals.rows && proposals.rows[k].editorId == id)
    || (exists k :: k in projects.rows && (projects.rows[k].clientId == id || projects.rows[k].editorId == id))
    || (exists k :: k in files.rows && files.rows[k].uploadedBy == id)
  }

  /** `deleteUser`: an administrator cannot delete their own account; an
      unknown id is NotFound; an account that jobs, proposals, projects or
      files still refer to is kept by the foreign key and the error
      propagates; otherwise exactly that account goes. */
  method DeleteUser(users: Users.UserTable, jobs: Jobs.JobTable, proposals: Proposals.ProposalTable,
                    projects: Projects.ProjectTable, files: ProjectFiles.FileTable, callerId: int, id: int)
    returns (r: Result<Users.PublicUser>)
    requires users.Valid()
    modifies users
    ensures users.Valid()
    ensures id == callerId ==> r == Err(ValidationError("You cannot delete your own account"))
    ensures id != callerId && old(users.FindById(id)).None? ==> r == Err(NotFoundError("User not found"))
    ensures id != callerId && old(users.FindById(id)).Some? && Referenced(jobs, proposals, projects, files, id) ==>
      r == Err(ConstraintError("FOREIGN KEY constraint failed"))
    ensures r.Err? ==> users.rows == old(users.rows)
    ensures r.Ok? <==>
      id != callerId && old(users.FindById(id)).Some? && !Referenced(jobs, proposals, projects, files, id)
    ensures r.Ok? ==> r.value == old(Users.Public(users.rows[id])) && users.rows == old(users.rows) - {id as nat}
  {
    if id == callerId {
      return Err(ValidationError("You cannot delete your own account"));
    }
    var user := users.FindById(id);
    if user.None? {
      return Err(NotFoundError("User not found"));
    }
    var deleted := users.Delete(id, Referenced(jobs, proposals, projects, files, id));
    if deleted.Err? {
      return Err(deleted.error);
    }
    return Ok(user.value);
  }
}
