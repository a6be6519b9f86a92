/**
 * The logout page's load function: refuse a request without a session,
 * otherwise invalidate that session, clear the cookie and redirect to `/login`.
 */
module LogoutRoute {
  import opened Js
  import opened Cookies
  import opened Store
  import opened Sessions
  import opened Kit

  /** What the load leaves behind: its result, the session table, and the cookies it set. */
  datatype Effect = Effect(result: ActionResult, sessions: map<string, SessionRow>, cookies: seq<CookieWrite>)

  /**
   * The load function on table values, for the session the hook put in
   * `locals`: it redirects exactly when there is a session, and then only that
   * session is gone and only the blank cookie is set.
   */
  function Spec(cookies: CookieConfig, session: Option<Session>, sessions: map<string, SessionRow>): (r: Effect)
    ensures r.result.Redirect? <==> session.Some?
    ensures r.sessions.Keys == if session.Some? then sessions.Keys - {session.value.id} else sessions.Keys
    ensures forall id :: id in r.sessions ==> r.sessions[id] == sessions[id]
    ensures r.cookies == if session.Some? then [Write(cookies.BlankCookie())] else []
  {
    if session.None? then Effect(Fail(401, None), sessions, [])
    else Effect(Redirect(302, "/login"), sessions - {session.value.id}, [Write(cookies.BlankCookie())])
  }

  /** Without a session: `fail(401)`, no invalidation, no cookie. */
  lemma LogoutNeedsSession(cookies: CookieConfig, sessions: map<string, SessionRow>)
    ensures Spec(cookies, None, sessions) == Effect(Fail(401, None), sessions, [])
  {
  }

  /**
   * With a session: exactly that session is removed, every other one is kept,
   * only the blank cookie is set, and the load redirects to `/login`.
   */
  lemma LogoutEndsSession(cookies: CookieConfig, session: Session, sessions: map<string, SessionRow>)
    ensures var e := Spec(cookies, Some(session), sessions);
      && e.result == Redirect(302, "/login")
      && session.id !in e.sessions
      && e.sessions.Keys == sessions.Keys - {session.id}
      && (forall id :: id in e.sessions ==> e.sessions[id] == sessions[id])
      && e.cookies == [CookieWrite(cookies.name, "", WithDefaultPath(cookies.blankAttributes))]
  {
  }

  /** `load` of the logout page. */
  method Load(event: RequestEvent, lucia: Lucia) returns (result: ActionResult)
    requires lucia.db.Valid()
    modifies lucia.db`sessions, event`setCookies
    ensures lucia.db.Valid()
    ensures var e := Spec(lucia.cookies, event.locals.session, old(lucia.db.sessions));
      && result == e.result
      && lucia.db.sessions == e.sessions
      && event.setCookies == old(event.setCookies) + e.cookies
  {
    if event.locals.session.None? {
      return Fail(401, None);
    }

    lucia.InvalidateSession(event.locals.session.value.id);
    var cookie := lucia.cookies.BlankCookie();
    event.SetCookie(Write(cookie));
    return Redirect(302, "/login");
  }
}
