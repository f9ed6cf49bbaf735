/**
 * The two Express middlewares that guard authenticated routes: `verifyJWT`
 * finds the access token, verifies it and loads its user, and
 * `requireRole(...roles)` lets a request through only for the listed roles.
 * Neither keeps state; each either answers with an error status or hands the
 * request on to `next`.
 */
module AuthMiddleware {
  import opened Common

  const TOKEN_MISSING := "Unauthorized \U{2014} token missing"
  const INVALID_TOKEN := "Invalid or expired token"
  const USER_GONE := "User no longer exists"
  const AUTH_REQUIRED := "Authentication required"
  const INSUFFICIENT := "Forbidden \U{2014} insufficient permissions"

  /** What a middleware does with a request: pass it on, or answer it. */
  datatype Outcome<T> = Next(value: T) | Reject(status: int, message: string)

  /**
   * What `jwt.verify` makes of a token: it throws (`Invalid`) or yields a
   * payload, whose `userId` claim may be absent.
   */
  datatype Decoded = Invalid | Valid(userId: Option<Id>)

  /** The user store as the middleware sees it: id to role. */
  type Users = map<Id, string>

  /**
   * `req.cookies?.accessToken || req.header("Authorization")?.replace("Bearer ", "")`:
   * a non-empty cookie wins; otherwise the header with its first "Bearer "
   * removed; no header gives no token.
   */
  function ExtractToken(cookie: Option<string>, header: Option<string>): (t: Option<string>)
    ensures cookie.Some? && cookie.value != "" ==> t == cookie
    ensures (cookie.None? || cookie.value == "") && header.None? ==> t.None?
    ensures (cookie.None? || cookie.value == "") && header.Some? ==>
      t == Some(ReplaceFirst(header.value, "Bearer ", ""))
  {
    if cookie.Some? && cookie.value != "" then cookie
    else if header.Some? then Some(ReplaceFirst(header.value, "Bearer ", ""))
    else None
  }

  /** JavaScript falsiness of the token: absent or the empty string. */
  predicate Missing(t: Option<string>)
  {
    t.None? || t.value == ""
  }

  /**
   * `verifyJWT`: the token is checked for presence, then verified, then its
   * user looked up; each failure answers 401 with its own message and the
   * first failing check decides. On success the request carries the user id.
   */
  function VerifyJwt(cookie: Option<string>, header: Option<string>, verify: string -> Decoded,
                     users: Users): (r: Outcome<Id>)
    ensures r.Reject? ==> r.status == 401
    ensures r == Reject(401, TOKEN_MISSING) <==> Missing(ExtractToken(cookie, header))
    ensures r == Reject(401, INVALID_TOKEN) <==>
      (!Missing(ExtractToken(cookie, header)) && verify(ExtractToken(cookie, header).value).Invalid?)
    ensures r.Next? <==>
      (!Missing(ExtractToken(cookie, header)) &&
       var d := verify(ExtractToken(cookie, header).value);
       d.Valid? && d.userId.Some? && d.userId.value in users)
    ensures r.Next? ==> r.value in users && verify(ExtractToken(cookie, header).value) == Valid(Some(r.value))
  {
    var token := ExtractToken(cookie, header);
    if Missing(token) then Reject(401, TOKEN_MISSING)
    else
      var decoded := verify(token.value);
      if decoded.Invalid? then Reject(401, INVALID_TOKEN)
      else if decoded.userId.None? || decoded.userId.value !in users then Reject(401, USER_GONE)
      else Next(decoded.userId.value)
  }

  /** A bearer header alone yields exactly the text after "Bearer ". */
  lemma BearerHeaderToken(token: string)
    ensures ExtractToken(None, Some("Bearer " + token)) == Some(token)
  {
    ReplaceFirstOfPrefix("Bearer ", token, "");
    assert "" + token == token;
  }

  /** A non-empty cookie makes the Authorization header irrelevant. */
  lemma CookieWins(cookie: string, h1: Option<string>, h2: Option<string>, verify: string -> Decoded,
                   users: Users)
    requires cookie != ""
    ensures VerifyJwt(Some(cookie), h1, verify, users) == VerifyJwt(Some(cookie), h2, verify, users)
  {
  }

  /** Deleting a user from the store revokes every token that named them. */
  lemma DeletedUserRejected(cookie: Option<string>, header: Option<string>, verify: string -> Decoded,
                            users: Users, id: Id)
    requires VerifyJwt(cookie, header, verify, users) == Next(id)
    ensures VerifyJwt(cookie, header, verify, users - {id}) == Reject(401, USER_GONE)
  {
  }

  /**
   * `requireRole(...roles)`: no authenticated user answers 401, a role outside
   * the list answers 403, anything else goes on.
   */
  function RequireRole(user: Option<string>, roles: seq<string>): (r: Outcome<string>)
    ensures r == Reject(401, AUTH_REQUIRED) <==> user.None?
    ensures r == Reject(403, INSUFFICIENT) <==> user.Some? && user.value !in roles
    ensures r.Next? <==> user.Some? && user.value in roles
    ensures r.Next? ==> r.value == user.value
  {
    if user.None? then Reject(401, AUTH_REQUIRED)
    else if user.value !in roles then Reject(403, INSUFFICIENT)
    else Next(user.value)
  }

  /** Allowing more roles never turns away a request that was let through. */
  lemma RequireRoleMonotone(user: Option<string>, roles: seq<string>, more: seq<string>)
    requires RequireRole(user, roles).Next?
    ensures RequireRole(user, roles + more).Next?
    ensures RequireRole(user, more + roles).Next?
  {
  }

  /**
   * The two middlewares chained as the routes chain them: a request passes
   * exactly when its token names a stored user whose role is listed.
   */
  function Guard(cookie: Option<string>, header: Option<string>, verify: string -> Decoded,
                 users: Users, roles: seq<string>): (r: Outcome<string>)
    ensures r.Next? <==>
      (VerifyJwt(cookie, header, verify, users).Next? &&
       users[VerifyJwt(cookie, header, verify, users).value] in roles)
    ensures r.Reject? && r.status == 403 ==> VerifyJwt(cookie, header, verify, users).Next?
  {
    match VerifyJwt(cookie, header, verify, users)
    case Reject(s, m) => Reject(s, m)
    case Next(id) => RequireRole(Some(users[id]), roles)
  }
}
