/**
 * Properties of whole sessions of use, across the routes: an account made at
 * signup can log in, and a session cookie from signup identifies the user
 * until logout, after which the request is anonymous again.
 */
module Journeys {
  import opened Js
  import opened Cookies
  import opened Store
  import opened Argon2
  import opened Sessions
  import opened Kit
  import opened Credentials
  import SignupRoute
  import LoginRoute
  import Hooks
  import LogoutRoute

  /**
   * A signup that succeeds is followed by a login with the same form that
   * succeeds too: the signup checks are the stricter ones, the new user is the
   * only one of that name, and `hash` and `verify` use the same cost parameters.
   */
  lemma SignupThenLogin(
    cookies: CookieConfig, argon2: Hasher, username: FormValue, password: FormValue,
    users: seq<UserRow>, sessions: map<string, SessionRow>,
    userId: string, salt: string, sessionId: string, expiresAt: int,
    loginSessionId: string, loginExpiresAt: int)
    requires Sound(argon2) && UniqueUsers(users)
    requires var e := SignupRoute.Spec(cookies, argon2, username, password, users, sessions, userId, salt, sessionId, expiresAt);
      e.result.Redirect? && loginSessionId !in e.sessions
    ensures var e := SignupRoute.Spec(cookies, argon2, username, password, users, sessions, userId, salt, sessionId, expiresAt);
      var l := LoginRoute.Spec(cookies, argon2, username, password, e.users, e.sessions, loginSessionId, loginExpiresAt);
      l.result == Redirect(302, "/")
      && l.sessions == e.sessions[loginSessionId := SessionRow(loginSessionId, userId, loginExpiresAt)]
  {
  }

  /**
   * Signup, then a request carrying the cookie signup set, then logout, then a
   * request again: the first request resolves to the new user, logout ends
   * that session, and afterwards the request is anonymous whether the client
   * sends the blank cookie or still the old session id (which the hook then
   * clears with the blank cookie).
   */
  lemma SignupRequestLogoutRequest(
    cookies: CookieConfig, argon2: Hasher, username: FormValue, password: FormValue,
    users: seq<UserRow>, sessions: map<string, SessionRow>,
    userId: string, salt: string, sessionId: string, expiresAt: int,
    lifetime: Lifetime, laterLifetime: Lifetime)
    requires UniqueUsers(users)
    requires SignupRoute.Spec(cookies, argon2, username, password, users, sessions,
                              userId, salt, sessionId, expiresAt).result.Redirect?
    requires sessionId != "" && !lifetime.Expired?
    ensures
      var s := SignupRoute.Spec(cookies, argon2, username, password, users, sessions,
                                userId, salt, sessionId, expiresAt);
      var h := Hooks.Spec(cookies, Some(s.cookies[0].value), s.users, s.sessions, lifetime);
      var o := LogoutRoute.Spec(cookies, h.locals.session, h.sessions);
      && h.locals.user == Some(User(userId))
      && RowsNamed(s.users, username.s) == [UserRow(userId, username.s, argon2.hash(password.s, SignupRoute.HashOptions, salt))]
      && o.result == Redirect(302, "/login")
      && Hooks.Spec(cookies, Some(o.cookies[0].value), s.users, o.sessions, laterLifetime).locals == Locals(None, None)
      && Hooks.Spec(cookies, Some(sessionId), s.users, o.sessions, laterLifetime)
         == Hooks.Effect(Locals(None, None), o.sessions, [Write(cookies.BlankCookie())])
  {
    SignupRoute.SignupCreatesAccount(cookies, argon2, username, password, users, sessions, userId, salt, sessionId, expiresAt);
    var s := SignupRoute.Spec(cookies, argon2, username, password, users, sessions, userId, salt, sessionId, expiresAt);
    var row := UserRow(userId, username.s, argon2.hash(password.s, SignupRoute.HashOptions, salt));
    assert row in s.users;
    assert userId in UserIds(s.users);
    assert UniqueUsers(s.users);
    RowsNamedFinds(s.users, row);
  }
}
