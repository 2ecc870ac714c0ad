/**
 * The NextAuth configuration: the adapter's `createUser`, which provisions
 * a Google user on first sign-in, and the `signIn`, `jwt` and `session`
 * callbacks, which decide who may sign in and carry the database id and
 * role into the token and the session.
 */
module Auth {
  import opened Common
  import opened Text
  import opened Sessions
  import opened Database
  import MW = Middleware

  const GoogleProvider := "google"
  const UnknownUserName := "Unknown User"

  /** The profile fields `createUser` receives: `data.email` and `data.name`. */
  datatype NewUserData = NewUserData(email: string, name: Option<string>)

  /** The first user of an empty table runs the car wash; everyone after is a driver. */
  function BootstrapRole(count: nat): (r: Role)
    ensures r == Manager <==> count == 0
    ensures r != Washer
  {
    if count == 0 then Manager else Driver
  }

  /** `data.name || data.email.split('@')[0] || 'Unknown User'` */
  function FullName(name: Option<string>, email: string): (n: string)
    ensures n != ""
    ensures Truthy(name) ==> n == name.value
    ensures !Truthy(name) && (email == "" || email[0] == '@') ==> n == UnknownUserName
    ensures !Truthy(name) && email != "" && email[0] != '@' ==>
      && StartsWith(email, n)
      && '@' !in n
      && (|n| == |email| || email[|n|] == '@')
  {
    if Truthy(name) then name.value
    else
      var local := Split(email, '@')[0];
      SplitFirst(email, '@');
      SplitFirstAtLeast(email, '@', if email != "" && email[0] != '@' then 1 else 0);
      if local != "" then local else UnknownUserName
  }

  /** The row `prisma.user.create` inserts when the table holds `count` rows. */
  function NewUserRow(count: nat, data: NewUserData, id: string): (u: User)
    ensures u.id == id && u.email == data.email && u.passwordHash.None? && u.deletedAt.None?
    ensures u.role == Manager <==> count == 0
    ensures u.fullName == FullName(data.name, data.email)
  {
    User(id, data.email, FullName(data.name, data.email), BootstrapRole(count), None, None)
  }

  /** The shape `createUser` alone gives the table: a manager first, drivers after. */
  predicate Bootstrapped(users: seq<User>) {
    |users| == 0 || (users[0].role == Manager && forall i :: 0 < i < |users| ==> users[i].role == Driver)
  }

  /** The role column of the table, in row order. */
  function Roles(users: seq<User>): seq<Role> {
    seq(|users|, i requires 0 <= i < |users| => users[i].role)
  }

  /** How many rows carry `role`: its multiplicity in the role column. */
  function CountRole(users: seq<User>, role: Role): (n: nat)
    ensures n <= |users|
    ensures n == multiset(Roles(users))[role]
  {
    if |users| == 0 then 0
    else
      var init := users[..|users| - 1];
      assert Roles(users) == Roles(init) + [users[|users| - 1].role];
      CountRole(init, role) + (if users[|users| - 1].role == role then 1 else 0)
  }

  /** Appending one `createUser` row keeps the shape. */
  lemma BootstrapStep(users: seq<User>, data: NewUserData, id: string)
    requires Bootstrapped(users)
    ensures Bootstrapped(users + [NewUserRow(|users|, data, id)])
  {
  }

  /** A non-empty table of that shape has exactly one manager and no washer. */
  lemma {:induction false} ExactlyOneManager(users: seq<User>)
    requires Bootstrapped(users) && |users| > 0
    ensures CountRole(users, Manager) == 1
    ensures CountRole(users, Washer) == 0
    ensures CountRole(users, Driver) == |users| - 1
  {
    if |users| > 1 {
      var init := users[..|users| - 1];
      assert Bootstrapped(init) by {
        forall i | 0 < i < |init| ensures init[i].role == Driver {
          assert init[i] == users[i];
        }
      }
      ExactlyOneManager(init);
    } else {
      assert users[..0] == [];
    }
  }

  /**
   * The adapter's `createUser`: count every row (soft-deleted ones
   * included), pick the role from the count, insert. The insert fails, and
   * nothing changes, when the id or the address is already taken.
   */
  method CreateUser(db: Db, data: NewUserData, id: string) returns (u: Option<User>)
    requires db.Valid()
    modifies db
    ensures db.Valid()
    ensures u.Some? <==> FindUser(old(db.users), id).None? && FindUserByEmail(old(db.users), data.email).None?
    ensures u.Some? ==> u.value == NewUserRow(|old(db.users)|, data, id) && db.users == old(db.users) + [u.value]
    ensures u.None? ==> db.users == old(db.users)
    ensures Bootstrapped(old(db.users)) ==> Bootstrapped(db.users)
    ensures db.trucks == old(db.trucks) && db.washRecords == old(db.washRecords)
      && db.washImages == old(db.washImages)
    ensures db.nextTruckId == old(db.nextTruckId) && db.nextRecordId == old(db.nextRecordId)
      && db.nextImageId == old(db.nextImageId)
  {
    var count := |db.users|;
    var row := NewUserRow(count, data, id);
    var ok := db.InsertUser(row);
    if ok {
      if Bootstrapped(old(db.users)) {
        BootstrapStep(old(db.users), data, id);
      }
      u := Some(row);
    } else {
      u := None;
    }
  }

  // Callbacks

  datatype Account = Account(provider: string)

  /** The user object NextAuth passes to `jwt` at sign-in (from the Google profile). */
  datatype AuthUser = AuthUser(email: string, idToken: Option<string>)

  /** `signIn`: only Google accounts. */
  predicate SignIn(account: Option<Account>)
  {
    account.Some? && account.value.provider == GoogleProvider
  }

  /**
   * `jwt`: at sign-in (account and user present) copy the database id and
   * role of the user with that address, and the Google id token; on every
   * other call the token passes through.
   */
  function Jwt(token: Token, user: Option<AuthUser>, account: Option<Account>, users: seq<User>): (t: Token)
    ensures account.None? || user.None? ==> t == token
    ensures t.email == token.email
    ensures account.Some? && user.Some? ==>
      var row := FindUserByEmail(users, user.value.email);
      && (row.Some? ==> t.id == Some(row.value.id) && t.role == Some(RoleName(row.value.role)))
      && (row.None? ==> t.id == token.id && t.role == token.role)
      && t.idToken == (if Truthy(user.value.idToken) then user.value.idToken else token.idToken)
  {
    if account.None? || user.None? then token
    else
      var row := FindUserByEmail(users, user.value.email);
      var t1 := if row.Some? then token.(id := Some(row.value.id), role := Some(RoleName(row.value.role))) else token;
      if Truthy(user.value.idToken) then t1.(idToken := user.value.idToken) else t1
  }

  /**
   * `session`: refresh id and role from the user with the session's
   * address, and copy the id token from the JWT.
   */
  function SessionCallback(su: SessionUser, token: Option<Token>, users: seq<User>): (s: Session)
    ensures s.user.Some? && s.user.value.email == su.email
    ensures token.None? ==> s.user.value == su
    ensures token.Some? ==>
      var row := FindUserByEmail(users, su.email);
      && (row.Some? ==> s.user.value.id == Some(row.value.id) && s.user.value.role == Some(RoleName(row.value.role)))
      && (row.None? ==> s.user.value.id == su.id && s.user.value.role == su.role)
      && s.user.value.idToken == (if Truthy(token.value.idToken) then token.value.idToken else su.idToken)
  {
    if token.None? then Session(Some(su))
    else
      var row := FindUserByEmail(users, su.email);
      var u1 := if row.Some? then su.(id := Some(row.value.id), role := Some(RoleName(row.value.role))) else su;
      Session(Some(if Truthy(token.value.idToken) then u1.(idToken := token.value.idToken) else u1))
  }

  /** With unique addresses, the lookup by address finds the row that carries it. */
  lemma FindByEmailOfRow(users: seq<User>, i: nat)
    requires UniqueEmails(users) && i < |users|
    ensures FindUserByEmail(users, users[i].email) == Some(users[i])
  {
    var r := FindUserByEmail(users, users[i].email);
    assert users[i] in users;
    var k :| 0 <= k < |users| && users[k] == r.value;
    if k != i {
      assert users[k].email != users[i].email by {
        if k < i {} else {}
      }
    }
  }

  /**
   * End to end: in a table `createUser` built, a sign-in that `signIn`
   * admits, as the user at position `i`, gives a token that the middleware
   * sends from `/` to the manager's dashboard for the first user and to the
   * driver's dashboard for every later one, and a session from this
   * module's `session` callback that passes that role's gate. Only the
   * routes built on these options (users, cleanup, federated logout) use
   * that session; the upload and wash routes and the root page use the
   * credentials handler's options.
   */
  lemma SignInLandsOnHome(users: seq<User>, i: nat, token: Token, idToken: Option<string>, su: SessionUser,
                          account: Option<Account>)
    requires Bootstrapped(users) && UniqueEmails(users) && i < |users|
    requires su.email == users[i].email
    requires SignIn(account)
    ensures var t := Jwt(token, Some(AuthUser(users[i].email, idToken)), account, users);
      && MW.Middleware(Some(t), "/") == MW.Redirect(if i == 0 then MW.ManagerHome else MW.DriverHome)
      && HasRole(Some(SessionCallback(su, Some(t), users)), if i == 0 then ManagerRole else DriverRole)
  {
    FindByEmailOfRow(users, i);
  }

  /**
   * The token's role is fixed at sign-in, while this module's session
   * callback re-reads the table: after a role change the middleware still
   * routes by the old role, and the routes built on these options (users,
   * cleanup, federated logout) already use the new one.
   */
  lemma TokenRoleIsStale(token: Token, su: SessionUser, users: seq<User>, u: User)
    requires FindUserByEmail(users, su.email) == Some(u)
    requires token.role != Some(RoleName(u.role))
    ensures Jwt(token, None, None, users) == token
    ensures SessionCallback(su, Some(token), users).user.value.role == Some(RoleName(u.role))
    ensures SessionCallback(su, Some(token), users).user.value.role != token.role
  {
  }

  /**
   * The session callback looks the user up by address without looking at
   * `deletedAt`: a soft-deleted user keeps their role and passes the gates.
   */
  lemma SoftDeletedKeepsRole(su: SessionUser, token: Token, users: seq<User>, u: User)
    requires FindUserByEmail(users, su.email) == Some(u) && u.deletedAt.Some?
    ensures HasRole(Some(SessionCallback(su, Some(token), users)), RoleName(u.role))
  {
  }

  /**
   * A session starts without id and role; the callback sets both or
   * neither, so a session with a role always has an id.
   */
  lemma SessionIdWithRole(su: SessionUser, token: Option<Token>, users: seq<User>)
    requires su.id.None? && su.role.None?
    ensures var s := SessionCallback(su, token, users).user.value;
      s.id.Some? <==> s.role.Some?
  {
  }
}
