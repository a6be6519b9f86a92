/**
 * The signup form action: check the form's shape, hash the password, insert
 * the user under a freshly generated id, create a session for it, set the
 * session cookie and redirect to `/`.
 */
module SignupRoute {
  import opened Js
  import opened Cookies
  import opened Store
  import opened Argon2
  import opened Sessions
  import opened Kit
  import opened Credentials

  /** The cost parameters signup passes to `hash`. */
  const HashOptions := Options(19456, 2, 32, 1)

  /** What the action leaves behind: its result, both tables, and the cookies it set. */
  datatype Effect = Effect(
    result: ActionResult, users: seq<UserRow>, sessions: map<string, SessionRow>, cookies: seq<CookieWrite>)

  /**
   * The signup action on table values. `userId` is the id `generateIdFromEntropySize(10)`
   * would return, `salt` the salt `hash` would draw, `sessionId` and `expiresAt` what
   * the session library would draw. It either redirects to `/` having stored
   * one user under `userId` and one session for it and set one cookie carrying
   * that session's id, or it sets no cookie and stores at most the user row:
   * the insert is not undone if creating the session fails.
   */
  function Spec(
    cookies: CookieConfig, argon2: Hasher, username: FormValue, password: FormValue,
    users: seq<UserRow>, sessions: map<string, SessionRow>,
    userId: string, salt: string, sessionId: string, expiresAt: int): (r: Effect)
    ensures r.result.Redirect? ==>
      && r.result == Redirect(302, "/")
      && |r.users| == |users| + 1 && r.users[..|users|] == users
      && username.Text? && r.users[|users|].id == userId && r.users[|users|].username == username.s
      && r.sessions == sessions[sessionId := SessionRow(sessionId, userId, expiresAt)]
      && sessionId !in sessions
      && |r.cookies| == 1 && r.cookies[0].name == cookies.name && r.cookies[0].value == sessionId
    ensures !r.result.Redirect? ==> r.sessions == sessions && r.cookies == []
    ensures r.result.Fail? ==> r.result.status == 400 && r.users == users
    ensures UniqueUsers(users) ==> UniqueUsers(r.users)
  {
    match CheckSignup(username, password)
    case Rejected(failure) => Effect(failure, users, sessions, [])
    case Accepted(name, secret) =>
      var passwordHash := argon2.hash(secret, HashOptions, salt);
      match InsertUser(users, UserRow(userId, name, passwordHash))
      case Throw(e) => Effect(Thrown(e), users, sessions, [])
      case Ok(users') =>
        match InsertSession(users', sessions, SessionRow(sessionId, userId, expiresAt))
        case Throw(e) => Effect(Thrown(e), users', sessions, [])
        case Ok(sessions') => Effect(Redirect(302, "/"), users', sessions', [Write(cookies.SessionCookie(sessionId))])
  }

  /**
   * A form that fails the shape checks returns the check's failure before any
   * id generation, hashing, insert or session: nothing is stored and no cookie is set.
   */
  lemma RejectedFormChangesNothing(
    cookies: CookieConfig, argon2: Hasher, username: FormValue, password: FormValue,
    users: seq<UserRow>, sessions: map<string, SessionRow>,
    userId: string, salt: string, sessionId: string, expiresAt: int)
    requires !UsernameAccepted(username) || !SignupPasswordAccepted(password)
    ensures var e := Spec(cookies, argon2, username, password, users, sessions, userId, salt, sessionId, expiresAt);
      && e.users == users && e.sessions == sessions && e.cookies == []
      && e.result == Fail(400, Some(if !UsernameAccepted(username) then InvalidUsername else InvalidPassword))
  {
  }

  /**
   * A signup succeeds exactly when the form is well formed and the generated
   * user id, the username and the session id are all new. It then appends the
   * row (new id, submitted username, hash of the submitted password), adds one
   * session for exactly that id, sets exactly the session cookie, and redirects.
   */
  lemma SignupCreatesAccount(
    cookies: CookieConfig, argon2: Hasher, username: FormValue, password: FormValue,
    users: seq<UserRow>, sessions: map<string, SessionRow>,
    userId: string, salt: string, sessionId: string, expiresAt: int)
    ensures var e := Spec(cookies, argon2, username, password, users, sessions, userId, salt, sessionId, expiresAt);
      e.result.Redirect? <==>
        && CheckSignup(username, password).Accepted?
        && userId !in UserIds(users)
        && (forall u :: u in users ==> u.username != username.s)
        && sessionId !in sessions
    ensures var e := Spec(cookies, argon2, username, password, users, sessions, userId, salt, sessionId, expiresAt);
      e.result.Redirect? ==>
        && e.result == Redirect(302, "/")
        && e.users == users + [UserRow(userId, username.s, argon2.hash(password.s, HashOptions, salt))]
        && e.sessions == sessions[sessionId := SessionRow(sessionId, userId, expiresAt)]
        && e.cookies == [CookieWrite(cookies.name, sessionId, WithDefaultPath(cookies.attributes))]
  {
  }

  /**
   * Signing up under a username that is taken (with an unused generated id)
   * throws the unique violation and leaves exactly one row of that name.
   */
  lemma DuplicateUsernameRejected(
    cookies: CookieConfig, argon2: Hasher, name: string, password: FormValue,
    users: seq<UserRow>, sessions: map<string, SessionRow>, existing: UserRow,
    userId: string, salt: string, sessionId: string, expiresAt: int)
    requires UniqueUsers(users) && existing in users && existing.username == name
    requires CheckSignup(Text(name), password).Accepted? && userId !in UserIds(users)
    ensures var e := Spec(cookies, argon2, Text(name), password, users, sessions, userId, salt, sessionId, expiresAt);
      && e.result == Thrown(UniqueViolation(UsernameUnique))
      && e.users == users && e.sessions == sessions && e.cookies == []
      && RowsNamed(e.users, name) == [existing]
  {
    RowsNamedFinds(users, existing);
  }

  /** `actions.default` of the signup page. */
  method Action(
    event: RequestEvent, lucia: Lucia, argon2: Hasher,
    userId: string, salt: string, sessionId: string, expiresAt: int)
    returns (result: ActionResult)
    requires lucia.db.Valid()
    modifies lucia.db, event`setCookies
    ensures lucia.db.Valid()
    ensures var e := Spec(lucia.cookies, argon2, event.FormField("username"), event.FormField("password"),
                          old(lucia.db.users), old(lucia.db.sessions), userId, salt, sessionId, expiresAt);
      && result == e.result
      && lucia.db.users == e.users
      && lucia.db.sessions == e.sessions
      && event.setCookies == old(event.setCookies) + e.cookies
  {
    var username := event.FormField("username");
    var password := event.FormField("password");
    if !UsernameAccepted(username) {
      return Fail(400, Some(InvalidUsername));
    }
    if !SignupPasswordAccepted(password) {
      return Fail(400, Some(InvalidPassword));
    }

    var passwordHash := argon2.hash(password.s, HashOptions, salt);
    var inserted := lucia.db.Insert(UserRow(userId, username.s, passwordHash));
    if inserted.Throw? {
      return Thrown(inserted.exception);
    }

    var session := lucia.CreateSession(userId, sessionId, expiresAt);
    match session
    case Throw(e) =>
      return Thrown(e);
    case Ok(s) =>
      var cookie := lucia.cookies.SessionCookie(s.id);
      event.SetCookie(Write(cookie));
      return Redirect(302, "/");
  }
}
