/**
 * The per-request server hook: read the session cookie, validate the session
 * it names, reissue or clear the cookie as the result demands, attach the
 * resolved user and session to `locals`, and hand the request on.
 */
module Hooks {
  import opened Js
  import opened Cookies
  import opened Store
  import opened Sessions
  import opened Kit

  /** What the hook leaves behind: the locals it assigned, the session table, and the cookies it set. */
  datatype Effect = Effect(locals: Locals, sessions: map<string, SessionRow>, cookies: seq<CookieWrite>)

  /**
   * The hook on table values, for the session cookie the request carries (if
   * any): `locals` gets a user exactly when it gets a session, at most one
   * cookie is set, and no session is created.
   */
  function Spec(
    cookies: CookieConfig, sessionId: Option<string>,
    users: seq<UserRow>, sessions: map<string, SessionRow>, lifetime: Lifetime): (r: Effect)
    ensures r.locals.user.Some? <==> r.locals.session.Some?
    ensures r.locals.session.Some? ==>
      Truthy(sessionId) && r.locals.session.value.id == sessionId.value && sessionId.value in r.sessions
    ensures |r.cookies| <= 1 && r.sessions.Keys <= sessions.Keys
    ensures SessionsReferenceUsers(users, sessions) ==> SessionsReferenceUsers(users, r.sessions)
  {
    if !Truthy(sessionId) then Effect(Locals(None, None), sessions, [])
    else
      var (v, sessions') := Validate(users, sessions, sessionId.value, lifetime);
      var renewed := if v.session.Some? && v.session.value.isFresh
                     then [Write(cookies.SessionCookie(v.session.value.id))] else [];
      var cleared := if v.session.None? then [Write(cookies.BlankCookie())] else [];
      Effect(Locals(v.user, v.session), sessions', renewed + cleared)
  }

  /** With no session cookie, or an empty one, the request is anonymous and nothing is touched. */
  lemma AnonymousWithoutCookie(
    cookies: CookieConfig, sessionId: Option<string>,
    users: seq<UserRow>, sessions: map<string, SessionRow>, lifetime: Lifetime)
    requires sessionId == None || sessionId == Some("")
    ensures Spec(cookies, sessionId, users, sessions, lifetime) == Effect(Locals(None, None), sessions, [])
  {
  }

  /**
   * With a session cookie, `locals` holds the pair validation resolved: a user
   * exactly when a session, the session the cookie names, and that session's
   * owner; a session is resolved exactly when it is stored, its owner exists
   * and it has not expired. The table afterwards is the one validation leaves:
   * a renewed session has its new expiry, an unresolved one is deleted.
   */
  lemma LocalsFromValidation(
    cookies: CookieConfig, sessionId: string,
    users: seq<UserRow>, sessions: map<string, SessionRow>, lifetime: Lifetime)
    requires sessionId != ""
    ensures var e := Spec(cookies, Some(sessionId), users, sessions, lifetime);
      && e.locals == Locals(Validate(users, sessions, sessionId, lifetime).0.user,
                            Validate(users, sessions, sessionId, lifetime).0.session)
      && (e.locals.session.Some? <==>
            sessionId in sessions && sessions[sessionId].userId in UserIds(users) && !lifetime.Expired?)
      && (e.locals.user.Some? <==> e.locals.session.Some?)
      && (e.locals.session.Some? ==>
            && e.locals.session.value.id == sessionId
            && e.locals.user == Some(User(sessions[sessionId].userId)))
      && e.sessions == Validate(users, sessions, sessionId, lifetime).1
      && (e.locals.session.None? ==> e.sessions == sessions - {sessionId})
      && (lifetime.Renewable? && e.locals.session.Some? ==>
            e.sessions == sessions[sessionId := sessions[sessionId].(expiresAt := lifetime.newExpiresAt)])
  {
  }

  /**
   * At most one cookie per request: exactly the session cookie when the
   * resolved session is fresh, exactly the blank cookie when none resolved,
   * and none for a session that is not fresh.
   */
  lemma AtMostOneCookie(
    cookies: CookieConfig, sessionId: Option<string>,
    users: seq<UserRow>, sessions: map<string, SessionRow>, lifetime: Lifetime)
    ensures var e := Spec(cookies, sessionId, users, sessions, lifetime);
      && |e.cookies| <= 1
      && (e.locals.session.Some? && e.locals.session.value.isFresh ==>
            e.cookies == [CookieWrite(cookies.name, e.locals.session.value.id, WithDefaultPath(cookies.attributes))])
      && (e.locals.session.Some? && !e.locals.session.value.isFresh ==> e.cookies == [])
      && (Truthy(sessionId) && e.locals.session.None? ==>
            e.cookies == [CookieWrite(cookies.name, "", WithDefaultPath(cookies.blankAttributes))])
  {
  }

  /** `handle`: the hook runs once per request, and `resolve` exactly once after `locals` is assigned. */
  method Handle(event: RequestEvent, lucia: Lucia, lifetime: Lifetime) returns (response: Response)
    requires lucia.db.Valid()
    modifies event`locals, event`resolved, event`setCookies, lucia.db`sessions
    ensures lucia.db.Valid()
    ensures var e := Spec(lucia.cookies, event.GetCookie(lucia.cookies.name),
                          lucia.db.users, old(lucia.db.sessions), lifetime);
      && event.locals == e.locals
      && lucia.db.sessions == e.sessions
      && event.setCookies == old(event.setCookies) + e.cookies
    ensures event.resolved == old(event.resolved) + [event.locals]
    ensures response == Resolved(event.locals)
  {
    var sessionId := event.GetCookie(lucia.cookies.name);
    if !Truthy(sessionId) {
      event.locals := event.locals.(user := None);
      event.locals := event.locals.(session := None);
      response := event.Resolve();
      return;
    }

    var v := lucia.ValidateSession(sessionId.value, lifetime);
    if v.session.Some? && v.session.value.isFresh {
      var cookie := lucia.cookies.SessionCookie(v.session.value.id);
      event.SetCookie(Write(cookie));
    }
    if v.session.None? {
      var cookie := lucia.cookies.BlankCookie();
      event.SetCookie(Write(cookie));
    }

    event.locals := event.locals.(user := v.user);
    event.locals := event.locals.(session := v.session);
    response := event.Resolve();
  }
}
