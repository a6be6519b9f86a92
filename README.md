# Username/password authentication flow: a Dafny model

This project models the request-decision layer of a SvelteKit application's
username/password authentication:

- the **login** and **signup** form actions: shape checks on the submitted
  username and password, a user lookup or insert, password verification or
  hashing, session creation, the session cookie, and the redirect;
- the per-request **server hook**: it reads the session cookie, validates the
  session, reissues or clears the cookie, and fills `locals`;
- the **logout** load function: a 401 guard, then session invalidation, the
  blank cookie, and a redirect to `/login`.

The database is a `Store.Database` object with the `user` table as a sequence
of rows and the `session` table as a map keyed by session id. Its invariant
`Valid()` is the schema's constraints: unique ids, unique usernames, and every
session referencing an existing user. The session library is a
`Sessions.Lucia` object over that database. The request is a
`Kit.RequestEvent` object: the form, the request cookies, the cookies set so
far (one `CookieWrite` per `cookies.set` call), `locals`, and the list of
`resolve` calls. The password hasher is a pair of uninterpreted functions,
`Argon2.Hasher`. `Argon2.Sound` says that a hash verifies against its own
password under the same options. Only the lemmas that need this property
assume it.

Each handler has a pure `Spec` function over table values that gives its
result, the new tables and the cookies it sets. The handler method is proved
against it: `LoginRoute.Action`, `SignupRoute.Action`, `Hooks.Handle` and
`LogoutRoute.Load`. The properties are lemmas about `Spec`.

The form, the cookies and the database are inputs. So are the values the
libraries draw at random: the new user id, the salt and the session id. The
session library's clock is an input too, as a `Sessions.Lifetime` verdict:
the session has expired, is active, or is due for renewal with a new expiry.
JavaScript's `.length` counts UTF-16 code units; `Js.Utf16Length` models it.

## Model

| member | source | states |
|---|---|---|
| `Js.Utf16Length` | src/routes/login/+page.server.ts:15-16 | `.length` is at least the character count and at most twice it |
| `Js.Truthy` | src/hooks.server.ts:6 | `!sessionId` holds for `undefined` and for `''`, and fails for every non-empty string |
| `Js.ArrayTruthy` | src/routes/login/+page.server.ts:32 | every array is truthy, the empty one included, so `!existingUser` is never true |
| `Credentials.MatchesUsernamePattern` | src/routes/login/+page.server.ts:17 | `/^[a-z0-9_-]+$/` accepts exactly the non-empty strings made only of `a-z`, `0-9`, `_` and `-` |
| `Credentials.UsernameAccepted` | src/routes/login/+page.server.ts:13-18 | a username is accepted iff it is a string of 3..31 characters, each in the class; a matching string is ASCII, so code units and characters agree |
| `Credentials.PasswordAccepted` | src/routes/login/+page.server.ts:25 | an accepted password is a string of 6..max code units, so 3..max characters; for text inside the Basic Multilingual Plane, exactly 6..max characters |
| `Credentials.CheckLogin` | src/routes/login/+page.server.ts:12-29 | the username is judged first: a bad one gives `fail(400, 'Invalid username')` whatever the password; then a password outside 6..255 gives `fail(400, 'Invalid password')`; otherwise both strings are passed on |
| `Credentials.CheckSignup` | src/routes/signup/+page.server.ts:11-29 | the same username rule and failure messages, with passwords of 6..200 code units |
| `Credentials.SignupAcceptedByLogin` | src/routes/signup/+page.server.ts:25 | every form signup accepts, login accepts with the same credentials; login accepts and signup refuses exactly when the password has 201..255 code units |
| `Credentials.LongPasswordOnlyAtLogin` | src/routes/login/+page.server.ts:25 | a 201-character ASCII password passes login's check and fails signup's |
| `Cookies.WithDefaultPath` | src/routes/login/+page.server.ts:55 | `{ path: '.', ...attributes }` keeps every given attribute, adds `path`, and uses `'.'` only when the attributes have no `path` |
| `Store.UniqueUsers` | src/lib/server/schema.ts:4-5 | the primary key and the unique username: two rows that share an id or a username are the same row; an empty or one-row table satisfies it |
| `Store.SessionsReferenceUsers` | src/lib/server/schema.ts:10-13 | the session primary key and the `user_id` foreign key: every stored session names a user present in the user table; an empty session table satisfies it |
| `Store.RowsNamed` | src/routes/login/+page.server.ts:31 | the select returns exactly the rows with that username, and is empty iff no user has it |
| `Store.RowsNamedUnique` | src/lib/server/schema.ts:5 | with the unique-username constraint, a lookup by username returns at most one row |
| `Store.RowsNamedFinds` | src/lib/server/schema.ts:5 | with unique usernames, the lookup of an existing user's name returns just that user |
| `Store.InsertUser` | src/routes/signup/+page.server.ts:39-43 | the insert succeeds iff both the id and the username are new; it then appends the row and keeps the table's uniqueness; otherwise it throws a unique violation |
| `Store.InsertSession` | src/lib/server/schema.ts:9-18 | a session insert succeeds iff its id is new and its user exists; it then adds exactly that row and keeps every session referencing a user; a taken id throws the primary-key violation |
| `Store.Database.SelectUsersByUsername` | src/routes/login/+page.server.ts:31 | the select changes nothing and returns at most one row |
| `Store.Database.Insert` | src/routes/signup/+page.server.ts:39-43 | the user table grows by the row or, on a violation, stays as it was; the constraints still hold |
| `Sessions.CookieConfig.BlankCookie` | src/hooks.server.ts:20 | the blank cookie has the session cookie's name and an empty value, which a later request reads as no cookie |
| `Sessions.Validate` | src/hooks.server.ts:12 | a session resolves iff it is stored, its owner exists and it has not expired. A resolved session has the requested id, is fresh iff it was renewed, carries the renewed expiry or else the stored one, comes with its owner as the user, and its row keeps everything but that expiry. An unresolved one has no user and is removed from the table. Every other session row is unchanged |
| `Sessions.CookieConfig.SessionCookie` | src/routes/login/+page.server.ts:54 | `createSessionCookie(id)` is the configured cookie with the session id as its value, which a later request reads as a cookie iff the id is non-empty |
| `Sessions.Lucia.CreateSession` | src/routes/login/+page.server.ts:53 | the new session is fresh, for the given user, and is the one row added; a taken id or a missing user throws and adds nothing |
| `Sessions.Lucia.ValidateSession` | src/hooks.server.ts:12 | the pair and the session table afterwards are those of `Sessions.Validate` |
| `Sessions.Lucia.InvalidateSession` | src/routes/logout/+page.server.ts:10 | exactly the given session is deleted; deleting a missing one is no error |
| `Cookies.Write` | src/routes/login/+page.server.ts:55 | a `cookies.set` of a library cookie keeps its name and value, and its options are the cookie's attributes over the default `path: '.'` |
| `Kit.RequestEvent.FormField` | src/routes/login/+page.server.ts:12-24 | `formData.get(name)` (read at lines 12 and 24) is the submitted value when the field was sent and `null` when it was not |
| `Kit.RequestEvent.GetCookie` | src/hooks.server.ts:5 | `cookies.get(name)` is defined iff the request carries that cookie, and then is its value |
| `Kit.RequestEvent.SetCookie` | src/routes/login/+page.server.ts:55 | one call adds exactly one Set-Cookie directive |
| `Kit.RequestEvent.Resolve` | src/hooks.server.ts:9 | `resolve` records one call with the current locals, and the response is the one for those locals |
| `LoginRoute.AuthenticateAsWritten` | src/routes/login/+page.server.ts:31-51 | as written, an empty lookup result throws a `TypeError` instead of failing; a non-empty one behaves as `Authenticate` |
| `LoginRoute.Authenticate` | src/routes/login/+page.server.ts:31-51 | authentication succeeds iff a user was found and `verify` accepts the password against that user's hash; every other case ends in `fail(400, 'Incorrect username or password')` |
| `LoginRoute.UnknownUserThrowsAsWritten` | src/routes/login/+page.server.ts:32-40 | as written, an unknown username throws while a wrong password fails with 400; corrected, the two give the same result |
| `LoginRoute.SignIn` | src/routes/login/+page.server.ts:53-57 | once the user is authenticated: when the session insert succeeds it redirects 302 to `/`, the table gains exactly `SessionRow(sessionId, user.id, expiresAt)` and the one cookie set is the session cookie for that id; when the id is taken or the user is missing it throws, with the sessions unchanged and no cookie |
| `LoginRoute.Spec` | src/routes/login/+page.server.ts:9-58 | the login action with the corrected lookup guard. It either redirects 302 to `/` having added exactly one new session and set exactly one cookie with that session's id, or it leaves the sessions alone and sets no cookie. Its failures are 400s with a message, or a thrown constraint violation |
| `LoginRoute.SpecAsWritten` | src/routes/login/+page.server.ts:31-40 | the login action as written: a well-formed username that no user has throws a `TypeError` and stores nothing; every other input gives what `LoginRoute.Spec` gives |
| `LoginRoute.RejectedFormChangesNothing` | src/routes/login/+page.server.ts:12-29 | a malformed form returns its check's failure and leaves the sessions and cookies untouched |
| `LoginRoute.UnknownUserLikeWrongPassword` | src/routes/login/+page.server.ts:31-51 | for well-formed credentials, an unknown username and a wrong password give the identical effect: `fail(400, 'Incorrect username or password')`, nothing stored, no cookie |
| `LoginRoute.SessionOnlyAfterVerify` | src/routes/login/+page.server.ts:40-57 | login redirects iff the form is well formed, a user of that name has a hash that `verify` accepts, and the session id is new. It then adds one session for that user's id and sets exactly the session cookie with the library's attributes over the default path, redirecting 302 to `/`. Otherwise it stores nothing and sets no cookie |
| `LoginRoute.Action` | src/routes/login/+page.server.ts:9-58 | with the corrected lookup guard (see Findings), the action's result, session table and cookies are those of `LoginRoute.Spec`, the users are untouched, and the database constraints still hold |
| `SignupRoute.Spec` | src/routes/signup/+page.server.ts:9-50 | the signup action. On a redirect 302 to `/`, it has appended one user row with the generated id and the submitted username, added that user's one new session, and set one cookie with the session id. Otherwise it sets no cookie and leaves the sessions alone, and a 400 leaves the users alone too. The users stay unique |
| `SignupRoute.RejectedFormChangesNothing` | src/routes/signup/+page.server.ts:14-29 | a malformed form returns its check's failure before id generation, hashing, insert or session: both tables and the cookies are untouched |
| `SignupRoute.SignupCreatesAccount` | src/routes/signup/+page.server.ts:31-49 | signup redirects iff the form is well formed and the generated id, the username and the session id are all new. The new row holds the generated id, the submitted username and the hash of the submitted password. The one new session belongs to exactly that id, and exactly one cookie is set |
| `SignupRoute.DuplicateUsernameRejected` | src/routes/signup/+page.server.ts:39-43 | a taken username throws the unique violation; nothing is stored, no cookie is set, and exactly one row of that name remains |
| `SignupRoute.Action` | src/routes/signup/+page.server.ts:9-50 | the action's result, tables and cookies are those of `SignupRoute.Spec`, and the database constraints still hold |
| `Hooks.Spec` | src/hooks.server.ts:4-29 | the hook: `locals` gets a user exactly when it gets a session, and that session is the one the non-empty cookie names and is still stored. At most one cookie is set, no session is created, and sessions keep referencing users |
| `Hooks.AnonymousWithoutCookie` | src/hooks.server.ts:5-10 | with no session cookie, or an empty one, `locals.user` and `locals.session` are null, no session is touched and no cookie is set |
| `Hooks.LocalsFromValidation` | src/hooks.server.ts:12-26 | with a cookie, `locals` is exactly the pair `validateSession` returned: a user exactly when a session, that session the one the cookie names, and the user its owner; the session table afterwards is the one validation leaves, with a renewed session at its new expiry and an unresolved one deleted |
| `Hooks.AtMostOneCookie` | src/hooks.server.ts:13-23 | at most one cookie is set per request: the session cookie for a fresh session, the blank cookie when no session resolved, and none for a session that is not fresh |
| `Hooks.Handle` | src/hooks.server.ts:4-29 | the hook's locals, session table and cookies are those of `Hooks.Spec`, and `resolve` is called exactly once, with the final locals |
| `LogoutRoute.Spec` | src/routes/logout/+page.server.ts:5-15 | the logout load: it redirects exactly when `locals` holds a session. Only that session leaves the table, every other row is kept, and the blank cookie is set exactly then |
| `LogoutRoute.LogoutNeedsSession` | src/routes/logout/+page.server.ts:6-8 | without a session in `locals`: `fail(401)`, no invalidation, no cookie |
| `LogoutRoute.LogoutEndsSession` | src/routes/logout/+page.server.ts:10-14 | with one: exactly that session is removed and every other kept, only the blank cookie is set, and the load redirects 302 to `/login` |
| `LogoutRoute.Load` | src/routes/logout/+page.server.ts:5-15 | the load's result, session table and cookies are those of `LogoutRoute.Spec`, and the database constraints still hold |
| `Journeys.SignupThenLogin` | src/routes/signup/+page.server.ts:32-37 | after a successful signup, a login with the same form succeeds for the new user. This relies on signup's checks being the stricter ones and on `hash` and `verify` using the same cost parameters (19456, 2, 32, 1) |
| `Journeys.SignupRequestLogoutRequest` | src/routes/logout/+page.server.ts:10-12 | a request with the cookie signup set resolves to the new user; logout ends that session. A later request is then anonymous, whether it sends the blank cookie or the old id; for the old id the hook clears the cookie again |

## Left out

- The password-hashing library's internals: `hash` and `verify` are uninterpreted functions. The random salt is an argument of `hash`.
- The session library's internals: how ids and expiry dates are drawn, the session lifetime, and the renewal window. The clock's verdict enters as `Sessions.Lifetime`, the new session id and expiry as parameters. The cookie attributes are an opaque `Sessions.CookieConfig`; the blank cookie's empty value is the one fact used about it.
- `generateIdFromEntropySize(10)`: the generated user id is a parameter.
- The database connection, the Drizzle tooling configuration, the home page's calls to a separate backend and the catch-all API route: these are configuration and I/O with no decisions in them.
- The capability tables of the schema: no flow uses them.
- Database failures other than constraint violations (connectivity, timeouts): the model's queries only fail on the primary-key, unique-username and session-to-user constraints.
- When a new user's id and username are both taken, the model reports the primary-key violation. Which of the two PostgreSQL reports is not fixed here.
- Concurrency: two signups racing on one username, and concurrent renewals of one session. Each request is one sequential run over the store.
- `fail` and `redirect`: modelled as the values of `Kit.ActionResult`, not as a returned object and a thrown exception. An exception escaping an action is `Thrown`.
- Reading the form: `request.formData()` throws a `TypeError` when the request body is not form data (a JSON or plain-text body, a malformed multipart body), and the action then fails before any check. The model starts from a parsed form, `Kit.RequestEvent.form`, which holds one value per field: the first one sent, which is the one `formData.get` returns.
- `cookies.get`: reads the request's Cookie header only. The hook calls it before setting any cookie in the same request.
- `LoginRoute.Action`: it follows the corrected lookup guard of `LoginRoute.Spec`, so an unknown username fails with 400 where the code as written throws a `TypeError`. The as-written behaviour is `LoginRoute.SpecAsWritten`, built on `LoginRoute.AuthenticateAsWritten`.
- `LogoutRoute.Load`: its contract states the final session table and cookie list, not the order of the invalidation and the cookie write. The method body performs the invalidation first.
- `Hooks.Handle`: the downstream route that `resolve` runs is not modelled. The response only records the locals it saw.
- Login accepts passwords of up to 255 code units and signup only up to 200; the model keeps both limits as the code has them.

## Findings

| source | as written | input that shows it | evidently intended | confidence | as-written member | corrected member |
|---|---|---|---|---|---|---|
| src/routes/login/+page.server.ts:32-40 | `if (!existingUser)` tests the array the select returns. An array is always truthy, so an unknown username reaches `existingUser[0].password_hash` on `undefined`, which throws a `TypeError`: the request fails with a server error | a well-formed username no user has, e.g. `nosuchuser` with password `secret1` | the same `fail(400, 'Incorrect username or password')` as a wrong password, as the shared message shows; the guard should test `existingUser.length === 0` | high (not executed) | `LoginRoute.AuthenticateAsWritten` and `LoginRoute.SpecAsWritten` (with `LoginRoute.UnknownUserThrowsAsWritten`) | `LoginRoute.Authenticate` and `LoginRoute.Spec` (with `LoginRoute.UnknownUserLikeWrongPassword`) |
