/**
 * The login form action: check the form's shape, look the user up by
 * username, verify the password against the stored hash, create a session,
 * set the session cookie and redirect to `/`.
 */
module LoginRoute {
  import opened Js
  import opened Cookies
  import opened Store
  import opened Argon2
  import opened Sessions
  import opened Kit
  import opened Credentials

  const IncorrectCredentials := "Incorrect username or password"

  /** The cost parameters login passes to `verify`. */
  const VerifyOptions := Options(19456, 2, 32, 1)

  /** The user whose password matched, or the failure the action returns. */
  datatype Authentication = Authenticated(user: UserRow) | Refused(failure: ActionResult)

  /**
   * Lines 31-51 as written. `!existingUser` tests the array the select returns,
   * and an array is always truthy, so the guard never fires: with no matching
   * row `existingUser[0]` is `undefined` and reading its `password_hash` throws.
   */
  function AuthenticateAsWritten(argon2: Hasher, existingUser: seq<UserRow>, password: string)
    : (r: Result<Authentication>)
    ensures existingUser == [] ==> r.Throw? && r.exception.TypeError?
    ensures existingUser != [] ==> r == Ok(Authenticate(argon2, existingUser, password))
  {
    if !ArrayTruthy(existingUser) then Ok(Refused(Fail(400, Some(IncorrectCredentials))))
    else if existingUser == [] then Throw(TypeError("Cannot read properties of undefined (reading 'password_hash')"))
    else
      var user := existingUser[0];
      if !argon2.verify(user.passwordHash, password, VerifyOptions) then Ok(Refused(Fail(400, Some(IncorrectCredentials))))
      else Ok(Authenticated(user))
  }

  /**
   * Lines 31-51 as intended: no matching row and a wrong password end in the
   * same failure; otherwise the first matching user is the one signed in.
   */
  function Authenticate(argon2: Hasher, existingUser: seq<UserRow>, password: string): (r: Authentication)
    ensures r.Authenticated? <==>
      existingUser != [] && argon2.verify(existingUser[0].passwordHash, password, VerifyOptions)
    ensures r.Authenticated? ==> r.user == existingUser[0]
    ensures r.Refused? ==> r.failure == Fail(400, Some(IncorrectCredentials))
  {
    if existingUser == [] then Refused(Fail(400, Some(IncorrectCredentials)))
    else
      var user := existingUser[0];
      if !argon2.verify(user.passwordHash, password, VerifyOptions) then Refused(Fail(400, Some(IncorrectCredentials)))
      else Authenticated(user)
  }

  /** An unknown username throws as written, where a wrong password fails with 400. */
  lemma UnknownUserThrowsAsWritten(argon2: Hasher, user: UserRow, password: string)
    requires !argon2.verify(user.passwordHash, password, VerifyOptions)
    ensures AuthenticateAsWritten(argon2, [], password).Throw?
    ensures AuthenticateAsWritten(argon2, [user], password) == Ok(Refused(Fail(400, Some(IncorrectCredentials))))
    ensures Authenticate(argon2, [], password) == Authenticate(argon2, [user], password)
  {
  }

  /** What the action leaves behind: its result, the session table, and the cookies it set. */
  datatype Effect = Effect(result: ActionResult, sessions: map<string, SessionRow>, cookies: seq<CookieWrite>)

  /** Lines 53-57: a session for the authenticated user, its cookie, and the redirect to `/`. */
  function SignIn(
    cookies: CookieConfig, users: seq<UserRow>, sessions: map<string, SessionRow>,
    user: UserRow, sessionId: string, expiresAt: int): (r: Effect)
    ensures InsertSession(users, sessions, SessionRow(sessionId, user.id, expiresAt)).Ok? <==> r.result.Redirect?
    ensures r.result.Redirect? ==>
      && r.result == Redirect(302, "/")
      && r.sessions == sessions[sessionId := SessionRow(sessionId, user.id, expiresAt)]
      && r.cookies == [Write(cookies.SessionCookie(sessionId))]
    ensures !r.result.Redirect? ==>
      r.result.Thrown? && r.sessions == sessions && r.cookies == []
      && (sessionId in sessions || user.id !in UserIds(users))
  {
    match InsertSession(users, sessions, SessionRow(sessionId, user.id, expiresAt))
    case Throw(e) => Effect(Thrown(e), sessions, [])
    case Ok(sessions') => Effect(Redirect(302, "/"), sessions', [Write(cookies.SessionCookie(sessionId))])
  }

  /**
   * The login action on table values, with the corrected lookup guard: it
   * either redirects to `/` having added exactly one session and set exactly one
   * cookie carrying that session's id, or it changes nothing; its failures are
   * the 400s of the form checks and of authentication, or a thrown insert error.
   */
  function Spec(
    cookies: CookieConfig, argon2: Hasher, username: FormValue, password: FormValue,
    users: seq<UserRow>, sessions: map<string, SessionRow>, sessionId: string, expiresAt: int): (r: Effect)
    ensures r.result.Redirect? ==>
      && r.result == Redirect(302, "/")
      && sessionId !in sessions && r.sessions.Keys == sessions.Keys + {sessionId}
      && (forall id :: id in sessions ==> r.sessions[id] == sessions[id])
      && |r.cookies| == 1 && r.cookies[0].name == cookies.name && r.cookies[0].value == sessionId
    ensures !r.result.Redirect? ==> r.sessions == sessions && r.cookies == []
    ensures r.result.Fail? ==> r.result.status == 400 && r.result.message.Some?
    ensures r.result.Thrown? ==> r.result.exception.UniqueViolation? || r.result.exception.ForeignKeyViolation?
  {
    match CheckLogin(username, password)
    case Rejected(failure) => Effect(failure, sessions, [])
    case Accepted(name, secret) =>
      match Authenticate(argon2, RowsNamed(users, name), secret)
      case Refused(failure) => Effect(failure, sessions, [])
      case Authenticated(user) => SignIn(cookies, users, sessions, user, sessionId, expiresAt)
  }

  /**
   * The login action as written, on table values: a well-formed username no
   * user has makes it throw a `TypeError`; in every other case it does what
   * `Spec` does.
   */
  function SpecAsWritten(
    cookies: CookieConfig, argon2: Hasher, username: FormValue, password: FormValue,
    users: seq<UserRow>, sessions: map<string, SessionRow>, sessionId: string, expiresAt: int): (r: Effect)
    ensures CheckLogin(username, password).Accepted? && (forall u :: u in users ==> u.username != username.s) ==>
      r.result.Thrown? && r.result.exception.TypeError? && r.sessions == sessions && r.cookies == []
    ensures !(CheckLogin(username, password).Accepted? && (forall u :: u in users ==> u.username != username.s)) ==>
      r == Spec(cookies, argon2, username, password, users, sessions, sessionId, expiresAt)
  {
    match CheckLogin(username, password)
    case Rejected(failure) => Effect(failure, sessions, [])
    case Accepted(name, secret) =>
      match AuthenticateAsWritten(argon2, RowsNamed(users, name), secret)
      case Throw(e) => Effect(Thrown(e), sessions, [])
      case Ok(Refused(failure)) => Effect(failure, sessions, [])
      case Ok(Authenticated(user)) => SignIn(cookies, users, sessions, user, sessionId, expiresAt)
  }

  /**
   * A form that fails the shape checks returns the check's failure before any
   * lookup, verification or session: nothing is stored and no cookie is set.
   */
  lemma RejectedFormChangesNothing(
    cookies: CookieConfig, argon2: Hasher, username: FormValue, password: FormValue,
    users: seq<UserRow>, sessions: map<string, SessionRow>, sessionId: string, expiresAt: int)
    requires !UsernameAccepted(username) || !LoginPasswordAccepted(password)
    ensures var e := Spec(cookies, argon2, username, password, users, sessions, sessionId, expiresAt);
      && e.sessions == sessions && e.cookies == []
      && e.result == Fail(400, Some(if !UsernameAccepted(username) then InvalidUsername else InvalidPassword))
  {
  }

  /**
   * No username enumeration: for well-formed credentials, an unknown username
   * and a known one with the wrong password give the identical effect.
   */
  lemma UnknownUserLikeWrongPassword(
    cookies: CookieConfig, argon2: Hasher, name: string, password: string,
    users1: seq<UserRow>, users2: seq<UserRow>, user: UserRow,
    sessions: map<string, SessionRow>, sessionId: string, expiresAt: int)
    requires CheckLogin(Text(name), Text(password)).Accepted?
    requires forall u :: u in users1 ==> u.username != name
    requires UniqueUsers(users2) && user in users2 && user.username == name
    requires !argon2.verify(user.passwordHash, password, VerifyOptions)
    ensures Spec(cookies, argon2, Text(name), Text(password), users1, sessions, sessionId, expiresAt)
         == Spec(cookies, argon2, Text(name), Text(password), users2, sessions, sessionId, expiresAt)
         == Effect(Fail(400, Some(IncorrectCredentials)), sessions, [])
  {
  }

  /**
   * A login succeeds exactly when the form is well formed, a user of that name
   * exists, the password verifies against that user's hash and the session id
   * is new; it then adds one session for that user, sets exactly the session
   * cookie, with the library's attributes over the default path, and redirects.
   */
  lemma SessionOnlyAfterVerify(
    cookies: CookieConfig, argon2: Hasher, username: FormValue, password: FormValue,
    users: seq<UserRow>, sessions: map<string, SessionRow>, sessionId: string, expiresAt: int)
    requires UniqueUsers(users)
    ensures var e := Spec(cookies, argon2, username, password, users, sessions, sessionId, expiresAt);
      e.result.Redirect? <==>
        && CheckLogin(username, password).Accepted?
        && (exists u :: u in users && u.username == username.s
                        && argon2.verify(u.passwordHash, password.s, VerifyOptions))
        && sessionId !in sessions
    ensures var e := Spec(cookies, argon2, username, password, users, sessions, sessionId, expiresAt);
      e.result.Redirect? ==>
        && e.result == Redirect(302, "/")
        && (exists u :: u in users && u.username == username.s
                        && e.sessions == sessions[sessionId := SessionRow(sessionId, u.id, expiresAt)])
        && e.cookies == [CookieWrite(cookies.name, sessionId, WithDefaultPath(cookies.attributes))]
    ensures var e := Spec(cookies, argon2, username, password, users, sessions, sessionId, expiresAt);
      !e.result.Redirect? ==> e.sessions == sessions && e.cookies == []
  {
  }

  /**
   * `actions.default` of the login page, with the corrected lookup guard (as
   * written, see `SpecAsWritten`). `sessionId` and `expiresAt` are what the
   * session library would draw for a new session.
   */
  method Action(event: RequestEvent, lucia: Lucia, argon2: Hasher, sessionId: string, expiresAt: int)
    returns (result: ActionResult)
    requires lucia.db.Valid()
    modifies lucia.db`sessions, event`setCookies
    ensures lucia.db.Valid()
    ensures var e := Spec(lucia.cookies, argon2, event.FormField("username"), event.FormField("password"),
                          lucia.db.users, old(lucia.db.sessions), sessionId, expiresAt);
      && result == e.result
      && lucia.db.sessions == e.sessions
      && event.setCookies == old(event.setCookies) + e.cookies
  {
    var username := event.FormField("username");
    if !UsernameAccepted(username) {
      return Fail(400, Some(InvalidUsername));
    }
    var password := event.FormField("password");
    if !LoginPasswordAccepted(password) {
      return Fail(400, Some(InvalidPassword));
    }

    var existingUser := lucia.db.SelectUsersByUsername(username.s);
    if existingUser == [] {
      return Fail(400, Some(IncorrectCredentials));
    }
    var user := existingUser[0];
    var validPassword := argon2.verify(user.passwordHash, password.s, VerifyOptions);
    if !validPassword {
      return Fail(400, Some(IncorrectCredentials));
    }

    var session := lucia.CreateSession(user.id, sessionId, expiresAt);
    match session
    case Throw(e) =>
      return Thrown(e);
    case Ok(s) =>
      var cookie := lucia.cookies.SessionCookie(s.id);
      event.SetCookie(Write(cookie));
      return Redirect(302, "/");
  }
}
