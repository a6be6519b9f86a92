/**
 * The session library as the handlers use it: creating, validating and
 * invalidating sessions in the session table, and the session cookie and
 * its blank variant. How the library's clock judges a session (expired,
 * due for renewal) is an input, as are the random session ids.
 */
module Sessions {
  import opened Js
  import opened Cookies
  import opened Store

  /** A session as the library hands it out; `isFresh` (the library's `fresh`) asks the caller to reissue the cookie. */
  datatype Session = Session(id: string, userId: string, expiresAt: int, isFresh: bool)

  /** No user attributes are configured, so a user is its id. */
  datatype User = User(id: string)

  /** The `{ session, user }` pair `validateSession` resolves to. */
  datatype Validation = Validation(session: Option<Session>, user: Option<User>)

  /** The library clock's verdict on a stored session when it is validated. */
  datatype Lifetime = Expired | Active | Renewable(newExpiresAt: int)

  /** The configured session cookie: its name and the attributes of the live and the blank cookie. */
  datatype CookieConfig = CookieConfig(name: string, attributes: Attributes, blankAttributes: Attributes) {

    /** `createSessionCookie(sessionId)`: the configured cookie, carrying the session id as its value. */
    function SessionCookie(sessionId: string): (c: Cookie)
      ensures c.name == name && c.value == sessionId && c.attributes == attributes
      ensures Truthy(Some(c.value)) <==> sessionId != ""
    {
      Cookie(name, sessionId, attributes)
    }

    /** `createBlankSessionCookie()`: same name, and a value a later request reads as no cookie at all. */
    function BlankCookie(): (c: Cookie)
      ensures c.name == name && !Truthy(Some(c.value))
    {
      Cookie(name, "", blankAttributes)
    }
  }

  /** `validateSession(sessionId)` on table values: the resolved pair and the session table afterwards. */
  function Validate(users: seq<UserRow>, sessions: map<string, SessionRow>, sessionId: string, lifetime: Lifetime)
    : (r: (Validation, map<string, SessionRow>))
    ensures r.0.session.Some? <==>
      sessionId in sessions && sessions[sessionId].userId in UserIds(users) && !lifetime.Expired?
    ensures r.0.user.Some? <==> r.0.session.Some?
    ensures r.0.session.Some? ==>
      && r.0.session.value.id == sessionId
      && r.0.session.value.userId == sessions[sessionId].userId
      && r.0.user == Some(User(sessions[sessionId].userId))
      && (r.0.session.value.isFresh <==> lifetime.Renewable?)
    ensures r.0.session.Some? ==>
      r.0.session.value.expiresAt == if lifetime.Renewable? then lifetime.newExpiresAt else sessions[sessionId].expiresAt
    ensures r.1.Keys == if r.0.session.Some? then sessions.Keys else sessions.Keys - {sessionId}
    ensures r.0.session.Some? ==> r.1[sessionId] == sessions[sessionId].(expiresAt := r.0.session.value.expiresAt)
    ensures forall id :: id in r.1 && id != sessionId ==> r.1[id] == sessions[id]
    ensures SessionsReferenceUsers(users, sessions) ==> SessionsReferenceUsers(users, r.1)
  {
    if sessionId !in sessions then
      (Validation(None, None), sessions)
    else
      var row := sessions[sessionId];
      if row.userId !in UserIds(users) || lifetime.Expired? then
        (Validation(None, None), sessions - {sessionId})
      else if lifetime.Renewable? then
        var renewed := Session(sessionId, row.userId, lifetime.newExpiresAt, true);
        (Validation(Some(renewed), Some(User(row.userId))),
         sessions[sessionId := row.(expiresAt := lifetime.newExpiresAt)])
      else
        (Validation(Some(Session(sessionId, row.userId, row.expiresAt, false)), Some(User(row.userId))), sessions)
  }

  /** The `lucia` instance: the database adapter and the cookie configuration. */
  class Lucia {
    const db: Database
    const cookies: CookieConfig

    constructor (db: Database, cookies: CookieConfig)
      ensures this.db == db && this.cookies == cookies
    {
      this.db := db;
      this.cookies := cookies;
    }

    /** `createSession(userId, {})` with the id and expiry the library would draw. */
    method CreateSession(userId: string, sessionId: string, expiresAt: int) returns (r: Result<Session>)
      requires db.Valid()
      modifies db`sessions
      ensures db.Valid()
      ensures var ins := InsertSession(db.users, old(db.sessions), SessionRow(sessionId, userId, expiresAt));
        && (r.Ok? <==> ins.Ok?)
        && (r.Ok? ==> r.value == Session(sessionId, userId, expiresAt, true) && db.sessions == ins.value)
        && (r.Throw? ==> r.exception == ins.exception && db.sessions == old(db.sessions))
    {
      var inserted := db.InsertSessionRow(SessionRow(sessionId, userId, expiresAt));
      match inserted
      case Throw(e) =>
        r := Throw(e);
      case Ok(_) =>
        r := Ok(Session(sessionId, userId, expiresAt, true));
    }

    /** `validateSession(sessionId)`: deletes a session the clock finds expired, extends one due for renewal. */
    method ValidateSession(sessionId: string, lifetime: Lifetime) returns (v: Validation)
      requires db.Valid()
      modifies db`sessions
      ensures db.Valid()
      ensures (v, db.sessions) == Validate(db.users, old(db.sessions), sessionId, lifetime)
    {
      if sessionId !in db.sessions {
        return Validation(None, None);
      }
      var row := db.sessions[sessionId];
      if row.userId !in UserIds(db.users) || lifetime.Expired? {
        db.DeleteSession(sessionId);
        return Validation(None, None);
      }
      if lifetime.Renewable? {
        db.UpdateSessionExpiration(sessionId, lifetime.newExpiresAt);
        v := Validation(Some(Session(sessionId, row.userId, lifetime.newExpiresAt, true)), Some(User(row.userId)));
      } else {
        v := Validation(Some(Session(sessionId, row.userId, row.expiresAt, false)), Some(User(row.userId)));
      }
    }

    /** `invalidateSession(sessionId)`: deletes the session; a missing one is no error. */
    method InvalidateSession(sessionId: string)
      requires db.Valid()
      modifies db`sessions
      ensures db.Valid()
      ensures db.sessions == old(db.sessions) - {sessionId}
    {
      db.DeleteSession(sessionId);
    }
  }
}
