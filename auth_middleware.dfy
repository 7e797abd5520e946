/** `middleware/authMiddleware.js`: reading the bearer token of a request
    and checking the caller's role.  Token verification is an oracle that
    either yields the token's user id or names the way it failed. */
module AuthMiddleware {
  import opened Common
  import opened Schema
  import Text
  import Users

  /** What `jwt.verify` does with a token. */
  datatype TokenCheck =
    | Verified(userId: int)
      /** `TokenExpiredError` */
    | Expired
      /** `JsonWebTokenError` */
    | Malformed
      /** any other exception */
    | Broken

  /** The `req.user` the middleware attaches. */
  datatype AuthUser = AuthUser(id: nat, name: string, email: string, role: Role)

  /** `const [scheme, token] = header.split(" ")`, accepted when the scheme
      is exactly `Bearer` and the token is non-empty. */
  function BearerToken(header: string): (r: Option<string>)
    ensures r.Some? ==> r.value != "" && ' ' !in r.value
  {
    var parts := Text.Split(header, ' ');
    if parts[0] == "Bearer" && |parts| >= 2 && parts[1] != "" then
      Text.SplitSpec(header, ' ');
      Some(parts[1])
    else None
  }

  /** An accepted header is `Bearer`, one space, the token, then nothing
      or a space. */
  lemma BearerTokenSound(header: string, token: string)
    requires BearerToken(header) == Some(token)
    ensures exists rest :: header == "Bearer " + token + rest && (rest == "" || rest[0] == ' ')
  {
    var parts := Text.Split(header, ' ');
    Text.SplitFirst(header, ' ');
    assert |parts[0]| == 6;
    var tail := header[7..];
    assert header == "Bearer " + tail;
    Text.SplitFirst(tail, ' ');
    var r := Text.Split(tail, ' ');
    assert r == parts[1..];
    assert r[0] == token;
    if |r| == 1 {
      assert header == "Bearer " + token + "";
    } else {
      var rest := tail[|token|..];
      assert tail == token + rest;
      assert header == "Bearer " + token + rest;
    }
  }

  /** Every header of that shape is accepted, with that token. */
  lemma BearerTokenComplete(header: string, token: string, rest: string)
    requires token != "" && ' ' !in token
    requires header == "Bearer " + token + rest && (rest == "" || rest[0] == ' ')
    ensures BearerToken(header) == Some(token)
  {
    assert header == "Bearer" + [' '] + (token + rest);
    Text.SplitAfter("Bearer", token + rest, ' ');
    if rest == "" {
      assert token + rest == token;
      Text.SplitNone(token, ' ');
    } else {
      assert token + rest == token + [' '] + rest[1..];
      Text.SplitAfter(token, rest[1..], ' ');
    }
  }

  /** A header is accepted exactly when it is `Bearer`, one space, a
      non-empty token without spaces, then nothing or a space. */
  lemma BearerTokenIff(header: string, token: string)
    ensures BearerToken(header) == Some(token) <==>
      (token != "" && ' ' !in token
       && exists rest :: header == "Bearer " + token + rest && (rest == "" || rest[0] == ' '))
  {
    if BearerToken(header) == Some(token) {
      BearerTokenSound(header, token);
    }
    if token != "" && ' ' !in token && exists rest :: header == "Bearer " + token + rest && (rest == "" || rest[0] == ' ') {
      var rest :| header == "Bearer " + token + rest && (rest == "" || rest[0] == ' ');
      BearerTokenComplete(header, token, rest);
    }
  }

  /** `authRequired`: the header (missing counts as empty), then the token,
      then the user it names, who must still exist. */
  function AuthRequired(users: Users.UserTable, header: Option<string>, verify: string -> TokenCheck): (r: Result<AuthUser>)
    requires users.Valid()
    reads users
    ensures BearerToken(header.GetOr("")).None? ==>
      r == Err(AuthenticationError("Missing or invalid Authorization header"))
    ensures r.Ok? <==>
      (BearerToken(header.GetOr("")).Some?
       && verify(BearerToken(header.GetOr("")).value).Verified?
       && users.FindById(verify(BearerToken(header.GetOr("")).value).userId).Some?)
    ensures r.Ok? ==>
      (r.value.id in users.rows
       && verify(BearerToken(header.GetOr("")).value) == Verified(r.value.id)
       && var u := users.rows[r.value.id]; r.value == AuthUser(u.id, u.name, u.email, u.role))
    ensures r.Err? ==> r.error.AuthenticationError?
  {
    var token := BearerToken(header.GetOr(""));
    if token.None? then Err(AuthenticationError("Missing or invalid Authorization header"))
    else
      match verify(token.value)
      case Expired => Err(AuthenticationError("Token expired"))
      case Malformed => Err(AuthenticationError("Invalid token"))
      case Broken => Err(AuthenticationError("Authentication failed"))
      case Verified(id) =>
        match users.FindById(id)
        case None => Err(AuthenticationError("User not found"))
        case Some(u) => Ok(AuthUser(u.id, u.name, u.email, u.role))
  }

  /** A request without an Authorization header never gets through. */
  lemma MissingHeaderRejected(users: Users.UserTable, verify: string -> TokenCheck)
    requires users.Valid()
    ensures AuthRequired(users, None, verify) == Err(AuthenticationError("Missing or invalid Authorization header"))
  {
    assert Text.Split("", ' ') == [""];
  }

  /** `roles.join(" or ")`. */
  function JoinOr(names: seq<string>): string {
    if names == [] then ""
    else if |names| == 1 then names[0]
    else names[0] + " or " + JoinOr(names[1..])
  }

  function RoleNames(roles: seq<Role>): (r: seq<string>)
    ensures |r| == |roles| && forall i :: 0 <= i < |roles| ==> r[i] == RoleName(roles[i])
  {
    if roles == [] then [] else [RoleName(roles[0])] + RoleNames(roles[1..])
  }

  /** `requireRole(...roles)`: no caller is an authentication failure, a
      caller whose role is not listed an authorisation failure. */
  function RequireRole(user: Option<AuthUser>, roles: seq<Role>): (r: Outcome)
    ensures user.None? ==> r == Fail(AuthenticationError("Authentication required"))
    ensures user.Some? && user.value.role !in roles ==>
      r == Fail(AuthorizationError("Access denied. Required role: " + JoinOr(RoleNames(roles))))
    ensures r.Pass? <==> user.Some? && user.value.role in roles
  {
    if user.None? then Fail(AuthenticationError("Authentication required"))
    else if user.value.role !in roles then
      Fail(AuthorizationError("Access denied. Required role: " + JoinOr(RoleNames(roles))))
    else Pass
  }
}
