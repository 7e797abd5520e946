/** The accounts table of `models/User.js`.  Email addresses are unique
    (compared exactly, as SQLite's default collation does) and every role is
    one of the three the schema allows. */
module Users {
  import opened Common
  import opened Schema
  import opened Queries

  datatype User = User(id: nat, name: string, email: string, passwordHash: string, role: Role, createdAt: Time)

  /** The columns the lookups other than `findByEmail` select: everything
      but the password hash. */
  datatype PublicUser = PublicUser(id: nat, name: string, email: string, role: Role, createdAt: Time)

  /** The four columns `create` hands back and the auth responses show:
      never the password hash. */
  datatype Account = Account(id: nat, name: string, email: string, role: Role)

  /** Whether a user id names an existing account, as an inner
      `JOIN users` requires. */
  predicate Present(accounts: map<nat, User>, id: int) {
    id >= 0 && id in accounts
  }

  function Public(u: User): PublicUser {
    PublicUser(u.id, u.name, u.email, u.role, u.createdAt)
  }

  function Publics(us: seq<User>): (r: seq<PublicUser>)
    ensures |r| == |us| && forall i :: 0 <= i < |us| ==> r[i] == Public(us[i])
  {
    if us == [] then [] else [Public(us[0])] + Publics(us[1..])
  }

  /** Rewriting one account with an address no other account uses keeps
      addresses unique. */
  lemma RewriteKeepsUnique(rows: map<nat, User>, id: nat, u: User)
    requires forall a, b :: a in rows && b in rows && a != b ==> rows[a].email != rows[b].email
    requires forall k :: k in rows && k != id ==> rows[k].email != u.email
    ensures var w := rows[id := u];
      forall a, b :: a in w && b in w && a != b ==> w[a].email != w[b].email
  {
  }

  /** `ORDER BY created_at DESC`. */
  function NewestFirst(u: User): seq<Term> {
    [Desc(Int(u.createdAt))]
  }

  /** The `findAll`/`count` filter: a truthy role must equal the stored one
      and a truthy search text must `LIKE`-match the name or the email.
      `like(pattern, text)` stands for SQLite's `LIKE '%search%'`. */
  predicate Matches(u: User, role: Option<string>, search: Option<string>, like: (string, string) -> bool) {
    (!Truthy(role) || RoleName(u.role) == role.value)
    && (!Truthy(search) || like(search.value, u.name) || like(search.value, u.email))
  }

  /** `Matches` as the `WHERE` clause a query filters with. */
  function Matching(role: Option<string>, search: Option<string>, like: (string, string) -> bool): User -> bool {
    (u: User) => Matches(u, role, search, like)
  }

  /** Every account, as `SELECT ... FROM users` without a `WHERE`. */
  function AnyUser(): User -> bool {
    (u: User) => true
  }

  /** The counts of `getStats`; the three `SUM`s are NULL on an empty table. */
  datatype UserStats = UserStats(total: nat, clients: Option<nat>, editors: Option<nat>, admins: Option<nat>,
                                 recentUsers: seq<PublicUser>)

  function CountRole(us: seq<User>, r: Role): nat {
    if us == [] then 0 else (if us[0].role == r then 1 else 0) + CountRole(us[1..], r)
  }

  lemma {:induction false} RolesPartition(us: seq<User>)
    ensures CountRole(us, Client) + CountRole(us, Editor) + CountRole(us, Admin) == |us|
  {
    if us != [] {
      RolesPartition(us[1..]);
    }
  }

  /** The `users` table. */
  class UserTable {
    var rows: map<nat, User>
    var nextId: nat

    ghost predicate Valid()
      reads this
    {
      nextId >= 1
      && (forall id :: id in rows ==> rows[id].id == id && 1 <= id < nextId)
      && (forall a, b :: a in rows && b in rows && a != b ==> rows[a].email != rows[b].email)
    }

    constructor ()
      ensures Valid() && rows == map[]
    {
      rows := map[];
      nextId := 1;
    }

    /** Whether some account uses the address. */
    predicate EmailTaken(email: string)
      reads this
    {
      exists id :: id in rows && rows[id].email == email
    }

    /** `User.create`: the role defaults to client; a role outside the
        CHECK list, a missing column or an address already in use is
        refused and nothing is stored. */
    method Create(name: Option<string>, email: Option<string>, passwordHash: Option<string>, role: Option<string>,
                  now: Time)
      returns (r: Result<Account>)
      requires Valid()
      modifies this
      ensures Valid()
      ensures r.Err? ==> r.error.ConstraintError? && rows == old(rows) && nextId == old(nextId)
      ensures r.Ok? <==>
        (name.Some? && email.Some? && passwordHash.Some? && ParseRole(role.GetOr("client")).Some?
         && !old(EmailTaken(email.value)))
      ensures r.Ok? ==>
        (r.value == Account(old(nextId), name.value, email.value, ParseRole(role.GetOr("client")).value)
         && old(nextId) !in old(rows) && nextId == old(nextId) + 1
         && rows == old(rows)[old(nextId) := User(old(nextId), name.value, email.value, passwordHash.value,
                                                  r.value.role, now)])
    {
      var parsed := ParseRole(role.GetOr("client"));
      if name.None? || email.None? || passwordHash.None? || parsed.None? {
        return Err(ConstraintError("NOT NULL or CHECK constraint failed: users"));
      }
      if EmailTaken(email.value) {
        return Err(ConstraintError("UNIQUE constraint failed: users.email"));
      }
      var u := User(nextId, name.value, email.value, passwordHash.value, parsed.value, now);
      rows := rows[nextId := u];
      nextId := nextId + 1;
      return Ok(Account(u.id, u.name, u.email, u.role));
    }

    /** `User.findByEmail`: the one account with that exact address. */
    function FindByEmail(email: string): (r: Option<User>)
      requires Valid()
      reads this
      ensures r.Some? <==> EmailTaken(email)
      ensures r.Some? ==> r.value.email == email && r.value.id in rows && rows[r.value.id] == r.value
    {
      if EmailTaken(email) then
        var id :| id in rows && rows[id].email == email;
        Some(rows[id])
      else None
    }

    /** `User.findById`, without the password hash. */
    function FindById(id: int): (r: Option<PublicUser>)
      reads this
      ensures r.Some? <==> id >= 0 && id in rows
      ensures r.Some? ==> r.value == Public(rows[id])
    {
      if id >= 0 && id in rows then Some(Public(rows[id])) else None
    }

    /** `User.findAll`: the public views of the LIMIT/OFFSET window of the
        matching accounts, newest first. */
    function FindAll(role: Option<string>, search: Option<string>, like: (string, string) -> bool,
                     limit: int, offset: int): (r: seq<PublicUser>)
      reads this
      ensures limit >= 0 ==> |r| <= limit
      ensures var n := Count(role, search, like);
        var start := if offset < 0 then 0 else if offset > n then n else offset;
        |r| == if 0 <= limit < n - start then limit else n - start
      ensures exists w :: IsWindow(w, Rows(rows, nextId), Matching(role, search, like), NewestFirst, limit, offset)
                          && r == Publics(w)
    {
      var page := Select(Rows(rows, nextId), Matching(role, search, like), NewestFirst, limit, offset);
      Publics(page)
    }

    /** `User.count`: the same filter as `findAll`, without paging. */
    function Count(role: Option<string>, search: Option<string>, like: (string, string) -> bool): nat
      reads this
    {
      Queries.Count(Rows(rows, nextId), Matching(role, search, like))
    }

    /** `User.getStats`: the role counts, which partition the total, and the
        five newest accounts. */
    function GetStats(): (r: UserStats)
      reads this
      ensures r.total == |Rows(rows, nextId)|
      ensures r.total == 0 <==> r.clients.None?
      ensures r.total > 0 ==>
        (r.clients.Some? && r.editors.Some? && r.admins.Some?
         && r.clients.value + r.editors.value + r.admins.value == r.total)
      ensures r.total > 0 ==>
        r.clients == Some(CountRole(Rows(rows, nextId), Client))
        && r.editors == Some(CountRole(Rows(rows, nextId), Editor))
        && r.admins == Some(CountRole(Rows(rows, nextId), Admin))
      ensures |r.recentUsers| <= 5
      ensures exists w :: IsWindow(w, Rows(rows, nextId), AnyUser(), NewestFirst, 5, 0) && r.recentUsers == Publics(w)
    {
      var all := Rows(rows, nextId);
      RolesPartition(all);
      var newest := Select(all, AnyUser(), NewestFirst, 5, 0);
      var recent := Publics(newest);
      if all == [] then UserStats(0, None, None, None, recent)
      else UserStats(|all|, Some(CountRole(all, Client)), Some(CountRole(all, Editor)), Some(CountRole(all, Admin)),
                     recent)
    }

    /** The row `update` writes: each truthy field replaces the stored one. */
    static function Updated(u: User, name: Option<string>, email: Option<string>, role: Option<Role>): (r: User)
      ensures r.id == u.id && r.passwordHash == u.passwordHash && r.createdAt == u.createdAt
      ensures r.name == (if Truthy(name) then name.value else u.name)
      ensures r.email == (if Truthy(email) then email.value else u.email)
      ensures r.role == (if role.Some? then role.value else u.role)
    {
      u.(name := if Truthy(name) then name.value else u.name,
         email := if Truthy(email) then email.value else u.email,
         role := if role.Some? then role.value else u.role)
    }

    /** `User.update`: only the fields given as non-empty strings are
        written; with none given the user is returned as stored.  An
        `UPDATE` that matches no row checks no constraint; on an existing
        row a role outside the CHECK list, or an address another account
        uses, is refused and nothing changes. */
    method Update(id: int, name: Option<string>, email: Option<string>, role: Option<string>)
      returns (r: Result<Option<PublicUser>>)
      requires Valid()
      modifies this
      ensures Valid() && nextId == old(nextId)
      ensures !Truthy(name) && !Truthy(email) && !Truthy(role) ==> rows == old(rows) && r == Ok(old(FindById(id)))
      ensures id >= 0 && id in old(rows) && Truthy(role) && ParseRole(role.value).None? ==> r.Err?
      ensures r.Err? ==> r.error.ConstraintError? && rows == old(rows)
      ensures r.Err? ==>
        (Truthy(role) && ParseRole(role.value).None?)
        || (Truthy(email) && exists k :: k in old(rows) && k != id && old(rows)[k].email == email.value)
      ensures r.Ok? && id >= 0 && id in old(rows) ==>
        rows == old(rows)[id := Updated(old(rows)[id], name, email,
                                        if Truthy(role) then ParseRole(role.value) else None)]
        && r.value == Some(Public(rows[id]))
      ensures r.Ok? && !(id >= 0 && id in old(rows)) ==> rows == old(rows) && r.value.None?
    {
      if !Truthy(name) && !Truthy(email) && !Truthy(role) {
        return Ok(FindById(id));
      }
      if !(id >= 0 && id in rows) {
        return Ok(None);
      }
      var parsed: Option<Role> := None;
      if Truthy(role) {
        parsed := ParseRole(role.value);
        if parsed.None? {
          return Err(ConstraintError("CHECK constraint failed: role"));
        }
      }
      if Truthy(email) && exists k :: k in rows && k != id && rows[k].email == email.value {
        return Err(ConstraintError("UNIQUE constraint failed: users.email"));
      }
      var u := Updated(rows[id], name, email, parsed);
      assert forall k :: k in rows && k != id ==> rows[k].email != u.email;
      Rewrite(id, u);
      return Ok(Some(Public(u)));
    }

    /** The `UPDATE users SET ... WHERE id = ?` statement once its
        constraints hold. */
    method Rewrite(id: nat, u: User)
      requires Valid() && id in rows && u.id == id
      requires forall k :: k in rows && k != id ==> rows[k].email != u.email
      modifies this
      ensures Valid() && nextId == old(nextId) && rows == old(rows)[id := u]
    {
      RewriteKeepsUnique(rows, id, u);
      rows := rows[id := u];
    }

    /** `User.delete`: an unknown id gives nothing and changes nothing.  The
        foreign keys are enforced, and a job, proposal, project or project
        file that refers to the account does so without an ON DELETE
        action, so while such a row exists (`referenced`) the DELETE is
        refused and nothing changes.  Otherwise that account alone is
        removed and returned. */
    method Delete(id: int, referenced: bool) returns (r: Result<Option<PublicUser>>)
      requires Valid()
      modifies this
      ensures Valid() && nextId == old(nextId)
      ensures old(FindById(id)).None? ==> r == Ok(None) && rows == old(rows)
      ensures old(FindById(id)).Some? && referenced ==>
        r == Err(ConstraintError("FOREIGN KEY constraint failed")) && rows == old(rows)
      ensures old(FindById(id)).Some? && !referenced ==>
        r == Ok(old(FindById(id))) && rows == old(rows) - {id as nat}
    {
      var user := FindById(id);
      if user.None? {
        return Ok(None);
      }
      if referenced {
        return Err(ConstraintError("FOREIGN KEY constraint failed"));
      }
      rows := rows - {id as nat};
      return Ok(user);
    }
  }

  /** Each row of a page of matching accounts is the public view of a
      stored account that matches. */
  lemma PublicsOfMatching(rows: map<nat, User>, n: nat, role: Option<string>, search: Option<string>,
                          like: (string, string) -> bool, page: seq<User>)
    requires forall u :: u in page ==> u in Rows(rows, n) && Matches(u, role, search, like)
    ensures forall i :: 0 <= i < |page| ==>
      exists u :: u in rows.Values && Matches(u, role, search, like) && Publics(page)[i] == Public(u)
  {
    RowsAreValues(rows, n);
    var r := Publics(page);
    forall i | 0 <= i < |page|
      ensures exists u :: u in rows.Values && Matches(u, role, search, like) && r[i] == Public(u)
    {
      PublicOfMatching(rows, n, role, search, like, page, i);
    }
  }

  lemma PublicOfMatching(rows: map<nat, User>, n: nat, role: Option<string>, search: Option<string>,
                         like: (string, string) -> bool, page: seq<User>, i: nat)
    requires forall u :: u in page ==> u in rows.Values && Matches(u, role, search, like)
    requires i < |page|
    ensures exists u :: u in rows.Values && Matches(u, role, search, like) && Publics(page)[i] == Public(u)
  {
    var u := page[i];
    assert u in page;
    assert Publics(page)[i] == Public(u);
  }

  /** Every account `findAll` lists is the public view of a stored account
      that matches the filter. */
  lemma FindAllMatches(t: UserTable, role: Option<string>, search: Option<string>, like: (string, string) -> bool,
                       limit: int, offset: int)
    ensures var r := t.FindAll(role, search, like, limit, offset);
      forall i :: 0 <= i < |r| ==> exists u :: u in t.rows.Values && Matches(u, role, search, like) && r[i] == Public(u)
  {
    var page := Select(Rows(t.rows, t.nextId), Matching(role, search, like), NewestFirst, limit, offset);
    PublicsOfMatching(t.rows, t.nextId, role, search, like, page);
  }

  /** `count` counts exactly the rows `findAll` would list without a limit. */
  lemma CountMatchesFindAll(t: UserTable, role: Option<string>, search: Option<string>, like: (string, string) -> bool)
    ensures t.Count(role, search, like) == |t.FindAll(role, search, like, -1, 0)|
  {
  }
}
