/**
 * The two tables the authentication flow uses: `user(id PK, username UNIQUE,
 * password_hash)` and `session(id PK, user_id FK -> user.id, expires_at)`.
 * The constraints PostgreSQL enforces become the invariant of Database.
 */
module Store {
  import opened Js

  datatype UserRow = UserRow(id: string, username: string, passwordHash: string)
  datatype SessionRow = SessionRow(id: string, userId: string, expiresAt: int)

  // Constraint names as the schema's table definitions produce them.
  const UserPkey := "user_pkey"
  const UsernameUnique := "user_username_unique"
  const SessionPkey := "session_pkey"
  const SessionUserFkey := "session_user_id_user_id_fk"

  /** Primary key and unique username: no two rows share an id or a username. */
  ghost predicate UniqueUsers(users: seq<UserRow>): (r: bool)
    ensures |users| <= 1 ==> r
    ensures r ==> forall u, v :: u in users && v in users && (u.id == v.id || u.username == v.username) ==> u == v
  {
    forall i, j :: 0 <= i < j < |users| ==>
      users[i].id != users[j].id && users[i].username != users[j].username
  }

  function UserIds(users: seq<UserRow>): set<string> {
    set u | u in users :: u.id
  }

  /** Sessions are keyed by their id and every session references an existing user. */
  ghost predicate SessionsReferenceUsers(users: seq<UserRow>, sessions: map<string, SessionRow>): (r: bool)
    ensures sessions == map[] ==> r
    ensures r ==> forall s :: s in sessions.Values ==> exists u :: u in users && u.id == s.userId
  {
    forall id :: id in sessions ==> sessions[id].id == id && sessions[id].userId in UserIds(users)
  }

  /** `db.select().from(userTable).where(eq(userTable.username, name))`: the matching rows, in table order. */
  function RowsNamed(users: seq<UserRow>, name: string): (rows: seq<UserRow>)
    ensures forall u :: u in rows <==> u in users && u.username == name
    ensures rows == [] <==> forall u :: u in users ==> u.username != name
    ensures |rows| <= |users|
  {
    if users == [] then []
    else (if users[0].username == name then [users[0]] else []) + RowsNamed(users[1..], name)
  }

  /** With unique usernames a lookup by username returns at most one row. */
  lemma {:induction false} RowsNamedUnique(users: seq<UserRow>, name: string)
    requires UniqueUsers(users)
    ensures |RowsNamed(users, name)| <= 1
  {
    if users != [] {
      assert UniqueUsers(users[1..]) by {
        forall i, j | 0 <= i < j < |users[1..]|
          ensures users[1..][i].id != users[1..][j].id && users[1..][i].username != users[1..][j].username
        {
          assert users[1..][i] == users[i + 1] && users[1..][j] == users[j + 1];
        }
      }
      RowsNamedUnique(users[1..], name);
      if users[0].username == name {
        forall u | u in users[1..]
          ensures u.username != name
        {
          var j :| 0 <= j < |users[1..]| && users[1..][j] == u;
          assert users[j + 1] == u;
        }
        var rest := RowsNamed(users[1..], name);
        assert RowsNamed(users, name) == [users[0]] + rest;
      }
    }
  }

  /** The row a username lookup finds, when one user of that name exists. */
  lemma RowsNamedFinds(users: seq<UserRow>, u: UserRow)
    requires UniqueUsers(users) && u in users
    ensures RowsNamed(users, u.username) == [u]
  {
    RowsNamedUnique(users, u.username);
    assert u in RowsNamed(users, u.username);
  }

  /** `db.insert(userTable).values(row)`: appended, unless its id or username is taken. */
  function InsertUser(users: seq<UserRow>, row: UserRow): (r: Result<seq<UserRow>>)
    ensures r.Ok? <==> row.id !in UserIds(users) && forall u :: u in users ==> u.username != row.username
    ensures r.Ok? ==> r.value == users + [row] && (UniqueUsers(users) ==> UniqueUsers(r.value))
    ensures r.Throw? ==> r.exception in {UniqueViolation(UserPkey), UniqueViolation(UsernameUnique)}
  {
    if row.id in UserIds(users) then Throw(UniqueViolation(UserPkey))
    else if RowsNamed(users, row.username) != [] then Throw(UniqueViolation(UsernameUnique))
    else Ok(users + [row])
  }

  /** The session insert of the session library's adapter, under both constraints of the session table. */
  function InsertSession(users: seq<UserRow>, sessions: map<string, SessionRow>, row: SessionRow)
    : (r: Result<map<string, SessionRow>>)
    ensures r.Ok? <==> row.id !in sessions && row.userId in UserIds(users)
    ensures r.Ok? ==> r.value == sessions[row.id := row]
    ensures row.id in sessions ==> r == Throw(UniqueViolation(SessionPkey))
    ensures SessionsReferenceUsers(users, sessions) && r.Ok? ==> SessionsReferenceUsers(users, r.value)
  {
    if row.id in sessions then Throw(UniqueViolation(SessionPkey))
    else if row.userId !in UserIds(users) then Throw(ForeignKeyViolation(SessionUserFkey))
    else Ok(sessions[row.id := row])
  }

  /** The PostgreSQL database behind the application, restricted to the two tables the flow touches. */
  class Database {
    var users: seq<UserRow>
    var sessions: map<string, SessionRow>

    ghost predicate Valid()
      reads this
    {
      UniqueUsers(users) && SessionsReferenceUsers(users, sessions)
    }

    constructor ()
      ensures Valid() && users == [] && sessions == map[]
    {
      users := [];
      sessions := map[];
    }

    /** A select by username reads the table and changes nothing. */
    method SelectUsersByUsername(name: string) returns (rows: seq<UserRow>)
      requires Valid()
      ensures rows == RowsNamed(users, name) && |rows| <= 1
    {
      RowsNamedUnique(users, name);
      rows := RowsNamed(users, name);
    }

    method Insert(row: UserRow) returns (r: Result<()>)
      requires Valid()
      modifies this`users
      ensures Valid()
      ensures r.Ok? <==> InsertUser(old(users), row).Ok?
      ensures r.Ok? ==> users == old(users) + [row]
      ensures r.Throw? ==> r.exception == InsertUser(old(users), row).exception && users == old(users)
    {
      match InsertUser(users, row)
      case Throw(e) =>
        r := Throw(e);
      case Ok(rows) =>
        assert forall u :: u in users ==> u in rows;
        users := rows;
        r := Ok(());
    }

    method InsertSessionRow(row: SessionRow) returns (r: Result<()>)
      requires Valid()
      modifies this`sessions
      ensures Valid()
      ensures r.Ok? <==> InsertSession(users, old(sessions), row).Ok?
      ensures r.Ok? ==> sessions == old(sessions)[row.id := row]
      ensures r.Throw? ==> r.exception == InsertSession(users, old(sessions), row).exception
                           && sessions == old(sessions)
    {
      match InsertSession(users, sessions, row)
      case Throw(e) =>
        r := Throw(e);
      case Ok(m) =>
        sessions := m;
        r := Ok(());
    }

    method UpdateSessionExpiration(id: string, expiresAt: int)
      requires Valid()
      modifies this`sessions
      ensures Valid()
      ensures sessions == if id in old(sessions) then old(sessions)[id := old(sessions)[id].(expiresAt := expiresAt)]
                          else old(sessions)
    {
      if id in sessions {
        sessions := sessions[id := sessions[id].(expiresAt := expiresAt)];
      }
    }

    method DeleteSession(id: string)
      requires Valid()
      modifies this`sessions
      ensures Valid()
      ensures sessions == old(sessions) - {id}
    {
      sessions := sessions - {id};
    }
  }
}
