/** The handlers of `controllers/authController.js`: self-service
    registration and login.  bcrypt hashing and comparison and JWT signing
    are functions given by the caller. */
module AuthController {
  import opened Common
  import opened Schema
  import Text
  import Users

  /** One run of `[^\s@]+` may use only these characters. */
  predicate Plain(s: string) {
    forall i :: 0 <= i < |s| ==> !Text.IsSpace(s[i]) && s[i] != '@'
  }

  /** `/^[^\s@]+@[^\s@]+\.[^\s@]+$/.test(s)`, decided by looking for the
      `@` and for a dot strictly inside the domain. */
  predicate IsEmail(s: string) {
    exists k :: 0 < k < |s| - 1 && s[k] == '@' && Plain(s[..k]) && Plain(s[k + 1..])
                && exists j :: k + 1 < j < |s| - 1 && s[j] == '.'
  }

  /** The same pattern read as a grammar: three non-empty runs joined by
      `@` and `.`. */
  ghost predicate EmailShape(s: string) {
    exists a, b, c :: a != "" && b != "" && c != "" && Plain(a) && Plain(b) && Plain(c)
                      && s == a + "@" + b + "." + c
  }

  lemma EmailShapeOfParts(s: string, k: int, j: int)
    requires 0 < k < |s| - 1 && s[k] == '@' && Plain(s[..k]) && Plain(s[k + 1..])
    requires k + 1 < j < |s| - 1 && s[j] == '.'
    ensures EmailShape(s)
  {
    var a, b, c := s[..k], s[k + 1..j], s[j + 1..];
    assert s == a + "@" + b + "." + c;
    assert Plain(b) && Plain(c) by {
      assert forall i :: 0 <= i < |b| ==> b[i] == s[k + 1..][i];
      assert forall i :: 0 <= i < |c| ==> c[i] == s[k + 1..][j - k + i];
    }
  }

  lemma PartsOfEmailShape(s: string, a: string, b: string, c: string)
    requires a != "" && b != "" && c != "" && Plain(a) && Plain(b) && Plain(c)
    requires s == a + "@" + b + "." + c
    ensures IsEmail(s)
  {
    var k, j := |a|, |a| + 1 + |b|;
    assert s[k] == '@' && s[j] == '.';
    assert s[..k] == a;
    assert s[k + 1..] == b + "." + c;
    assert !Text.IsSpace('.');
  }

  /** The check and the grammar agree on every string. */
  lemma IsEmailIff(s: string)
    ensures IsEmail(s) <==> EmailShape(s)
  {
    if IsEmail(s) {
      var k :| 0 < k < |s| - 1 && s[k] == '@' && Plain(s[..k]) && Plain(s[k + 1..])
               && exists j :: k + 1 < j < |s| - 1 && s[j] == '.';
      var j :| k + 1 < j < |s| - 1 && s[j] == '.';
      EmailShapeOfParts(s, k, j);
    }
    if EmailShape(s) {
      var a, b, c :| a != "" && b != "" && c != "" && Plain(a) && Plain(b) && Plain(c)
                     && s == a + "@" + b + "." + c;
      PartsOfEmailShape(s, a, b, c);
    }
  }

  /** `email?.trim().toLowerCase()`. */
  function NormalizeEmail(email: Option<string>): Option<string> {
    if email.None? then None else Some(Text.ToLower(Text.Trim(email.value)))
  }

  function TrimOpt(s: Option<string>): Option<string> {
    if s.None? then None else Some(Text.Trim(s.value))
  }

  /** The role `register` stores: editor or admin when asked for, else client. */
  function RegisterRole(role: Option<string>): (r: Role)
    ensures r == Editor <==> role == Some("editor")
    ensures r == Admin <==> role == Some("admin")
  {
    if role == Some("editor") then Editor else if role == Some("admin") then Admin else Client
  }

  /** The checks of `register` on its trimmed inputs, in order, up to and
      including the duplicate check. */
  function RegisterGuard(name: Option<string>, email: Option<string>, password: Option<string>, taken: bool): (r: Outcome)
    ensures !Truthy(name) || !Truthy(email) || !Truthy(password) ==>
      r == Fail(HttpError(400, "name, email and password are required"))
    ensures r.Pass? <==>
      (Truthy(name) && Truthy(email) && Truthy(password) && |name.value| >= 3 && IsEmail(email.value)
       && |password.value| >= 6 && !taken)
    ensures r.Fail? ==> r.error.HttpError? && r.error.status == (if r.error.message == "Email already registered" then 409 else 400)
  {
    if !Truthy(name) || !Truthy(email) || !Truthy(password) then Fail(HttpError(400, "name, email and password are required"))
    else if |name.value| < 3 then Fail(HttpError(400, "Name must be at least 3 characters"))
    else if !IsEmail(email.value) then Fail(HttpError(400, "Invalid email format"))
    else if |password.value| < 6 then Fail(HttpError(400, "Password must be at least 6 characters"))
    else if taken then Fail(HttpError(409, "Email already registered"))
    else Pass
  }

  /** `register`: inputs are trimmed (and the address lower-cased) before
      any check; an account is created exactly when every check passes,
      and the answer shows the account without its password hash. */
  method Register(users: Users.UserTable, name: Option<string>, email: Option<string>, password: Option<string>,
                  role: Option<string>, hash: string -> string, now: Time)
    returns (r: Result<Users.Account>)
    requires users.Valid()
    modifies users
    ensures users.Valid()
    ensures var e := NormalizeEmail(email);
      r.Err? <==> RegisterGuard(TrimOpt(name), e, TrimOpt(password), Truthy(e) && old(users.EmailTaken(e.value))).Fail?
    ensures r.Err? ==> users.rows == old(users.rows)
    ensures r.Ok? ==>
      (r.value == Users.Account(old(users.nextId), TrimOpt(name).value, NormalizeEmail(email).value, RegisterRole(role))
       && users.rows == old(users.rows)[r.value.id := Users.User(r.value.id, r.value.name, r.value.email,
                                                                hash(TrimOpt(password).value), r.value.role, now)])
  {
    var n, e, p := TrimOpt(name), NormalizeEmail(email), TrimOpt(password);
    var taken := Truthy(e) && users.FindByEmail(e.value).Some?;
    var guard := RegisterGuard(n, e, p, taken);
    if guard.Fail? {
      return Err(guard.error);
    }
    assert !users.EmailTaken(e.value);
    var validRole := RegisterRole(role);
    RoleNameParses(validRole);
    r := users.Create(n, e, Some(hash(p.value)), Some(RoleName(validRole)), now);
  }

  datatype Session = Session(token: string, user: Users.Account)

  /** `login`: missing fields are a 400, an unknown address or a wrong
      password a 401; on success the token is signed for the account's id
      and role. */
  function Login(users: Users.UserTable, email: Option<string>, password: Option<string>,
                 matches: (string, string) -> bool, sign: (nat, Role) -> string): (r: Result<Session>)
    requires users.Valid()
    reads users
    ensures var e, p := NormalizeEmail(email), TrimOpt(password);
      !Truthy(e) || !Truthy(p) ==> r == Err(HttpError(400, "email and password are required"))
    ensures r.Err? ==> r.error.HttpError? && r.error.status in {400, 401}
    ensures var e, p := NormalizeEmail(email), TrimOpt(password);
      r.Ok? <==>
        (Truthy(e) && Truthy(p) && users.FindByEmail(e.value).Some?
         && matches(p.value, users.FindByEmail(e.value).value.passwordHash))
    ensures r.Ok? ==>
      (r.value.user.id in users.rows && users.rows[r.value.user.id].email == NormalizeEmail(email).value
       && var u := users.rows[r.value.user.id];
          r.value == Session(sign(u.id, u.role), Users.Account(u.id, u.name, u.email, u.role)))
  {
    var e, p := NormalizeEmail(email), TrimOpt(password);
    if !Truthy(e) || !Truthy(p) then Err(HttpError(400, "email and password are required"))
    else
      match users.FindByEmail(e.value)
      case None => Err(HttpError(401, "Invalid credentials"))
      case Some(u) =>
        if !matches(p.value, u.passwordHash) then Err(HttpError(401, "invalid credentials"))
        else Ok(Session(sign(u.id, u.role), Users.Account(u.id, u.name, u.email, u.role)))
  }

  /** Normalising an address twice changes nothing more: the address
      `register` stores is the one `login` looks up when the same text is
      typed again. */
  lemma NormalizeEmailIdempotent(typed: string)
    ensures NormalizeEmail(Some(typed)) == NormalizeEmail(NormalizeEmail(Some(typed)))
  {
    var t := Text.Trim(typed);
    var l := Text.ToLower(t);
    Text.TrimIdempotent(typed);
    Text.ToLowerIdempotent(t);
    Text.TrimKeepsLower(l);
    assert Text.Trim(l) == l by {
      Text.LowerKeepsTrimmed(t);
    }
  }
}
