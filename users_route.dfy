/**
 * `/api/users`: the manager's user administration. `GET` lists the users
 * that are not soft-deleted, `PUT` applies a JSON patch to one user and
 * `DELETE` soft-deletes one by stamping `deletedAt`.
 */
module UsersRoute {
  import opened Common
  import opened Sessions
  import opened Database

  datatype Response =
    | UserList(users: seq<User>)
    | UserRow(user: User)
    | Failure(status: nat, error: string)

  const UnauthorizedError := "Unauthorized"
  const MissingIdError := "Missing user ID"
  const NotFoundError := "User not found"
  const InternalError := "Internal server error"

  /** `findMany({ where: { deletedAt: null } })`, in table order. */
  function LiveUsers(users: seq<User>): (r: seq<User>)
    ensures forall u :: u in r <==> u in users && u.deletedAt.None?
    ensures |r| <= |users|
  {
    if |users| == 0 then []
    else (if users[0].deletedAt.None? then [users[0]] else []) + LiveUsers(users[1..])
  }

  /** `GET /api/users` */
  function Get(session: Option<Session>, users: seq<User>): (r: Response)
    ensures !HasRole(session, ManagerRole) <==> r == Failure(401, UnauthorizedError)
    ensures r.UserList? ==> forall u :: u in r.users <==> u in users && u.deletedAt.None?
    ensures HasRole(session, ManagerRole) ==> r.UserList?
  {
    if !HasRole(session, ManagerRole) then Failure(401, UnauthorizedError)
    else UserList(LiveUsers(users))
  }

  /** With unique ids, the lookup by id finds the row that carries it. */
  lemma IndexOfRow(users: seq<User>, i: nat)
    requires UniqueUserIds(users) && i < |users|
    ensures UserIndex(users, users[i].id) == Some(i)
  {
  }

  // PUT

  /**
   * The JSON body handed to `user.update` as `data`. A field left out of
   * the body is `None`; `passwordHash` and `deletedAt` may also be set to
   * `null`, which is `Some(None)`. The role arrives as a string.
   */
  datatype UserPatch = UserPatch(
    email: Option<string>,
    fullName: Option<string>,
    role: Option<string>,
    passwordHash: Option<Option<string>>,
    deletedAt: Option<Option<int>>)

  /** The row after the patch, or `None` when Prisma rejects a role that is not in the enum. */
  function Patched(u: User, p: UserPatch): (r: Option<User>)
    ensures r.Some? <==> (p.role.None? || RoleFromName(p.role.value).Some?)
    ensures r.Some? ==>
      && r.value.id == u.id
      && r.value.email == (if p.email.Some? then p.email.value else u.email)
      && r.value.fullName == (if p.fullName.Some? then p.fullName.value else u.fullName)
      && (p.role.None? ==> r.value.role == u.role)
      && (p.role.Some? ==> RoleName(r.value.role) == p.role.value)
      && r.value.passwordHash == (if p.passwordHash.Some? then p.passwordHash.value else u.passwordHash)
      && r.value.deletedAt == (if p.deletedAt.Some? then p.deletedAt.value else u.deletedAt)
  {
    var role := if p.role.Some? then RoleFromName(p.role.value) else Some(u.role);
    if role.None? then None
    else
      Some(User(
        u.id,
        if p.email.Some? then p.email.value else u.email,
        if p.fullName.Some? then p.fullName.value else u.fullName,
        role.value,
        if p.passwordHash.Some? then p.passwordHash.value else u.passwordHash,
        if p.deletedAt.Some? then p.deletedAt.value else u.deletedAt))
  }

  /** An empty body changes nothing. */
  lemma EmptyPatchKeepsRow(u: User)
    ensures Patched(u, UserPatch(None, None, None, None, None)) == Some(u)
  {
  }

  /** Applying the same patch twice is applying it once. */
  lemma PatchIdempotent(u: User, p: UserPatch)
    requires Patched(u, p).Some?
    ensures Patched(Patched(u, p).value, p) == Patched(u, p)
  {
    if p.role.Some? {
      RoleNameRoundTrip(Patched(u, p).value.role);
    }
  }

  /** Another row already uses the address (the `email` unique constraint). */
  predicate EmailTakenByOther(users: seq<User>, i: nat, email: string) {
    exists j :: 0 <= j < |users| && j != i && users[j].email == email
  }

  /**
   * `PUT /api/users?id=…`. Everything Prisma throws (unknown id, a role
   * outside the enum, a taken address) and an unreadable body end in the
   * catch-all 500. The route does not look at `deletedAt`: a soft-deleted
   * user can be edited, and a patch setting `deletedAt` to `null` restores
   * one.
   */
  method Put(db: Db, session: Option<Session>, id: Option<string>, data: Option<UserPatch>) returns (r: Response)
    requires db.Valid()
    modifies db
    ensures db.Valid()
    ensures db.trucks == old(db.trucks) && db.washRecords == old(db.washRecords)
      && db.washImages == old(db.washImages)
    ensures db.nextTruckId == old(db.nextTruckId) && db.nextRecordId == old(db.nextRecordId)
      && db.nextImageId == old(db.nextImageId)
    ensures !HasRole(session, ManagerRole) ==> r == Failure(401, UnauthorizedError)
    ensures HasRole(session, ManagerRole) && !Truthy(id) ==> r == Failure(400, MissingIdError)
    ensures r.Failure? ==> db.users == old(db.users)
    ensures HasRole(session, ManagerRole) && Truthy(id) ==>
      if data.None? || UserIndex(old(db.users), id.value).None? then r == Failure(500, InternalError)
      else
        var i := UserIndex(old(db.users), id.value).value;
        var patched := Patched(old(db.users)[i], data.value);
        if patched.None? || EmailTakenByOther(old(db.users), i, patched.value.email) then
          r == Failure(500, InternalError)
        else
          r == UserRow(patched.value) && db.users == old(db.users)[i := patched.value]
  {
    if !HasRole(session, ManagerRole) {
      return Failure(401, UnauthorizedError);
    }
    if !Truthy(id) {
      return Failure(400, MissingIdError);
    }
    if data.None? {
      return Failure(500, InternalError);
    }
    var index := UserIndex(db.users, id.value);
    if index.None? {
      return Failure(500, InternalError);
    }
    var i := index.value;
    var patched := Patched(db.users[i], data.value);
    if patched.None? || EmailTakenByOther(db.users, i, patched.value.email) {
      return Failure(500, InternalError);
    }
    db.UpdateUserAt(i, patched.value);
    r := UserRow(patched.value);
  }

  // DELETE

  /** The row as `DELETE` leaves it. */
  function SoftDeleted(u: User, now: int): User {
    u.(deletedAt := Some(now))
  }

  /**
   * `DELETE /api/users?id=…`: 404 for an id that names no row or a row
   * already soft-deleted; otherwise only that row's `deletedAt` changes.
   */
  method Delete(db: Db, session: Option<Session>, id: Option<string>, now: int) returns (r: Response)
    requires db.Valid()
    modifies db
    ensures db.Valid()
    ensures db.trucks == old(db.trucks) && db.washRecords == old(db.washRecords)
      && db.washImages == old(db.washImages)
    ensures db.nextTruckId == old(db.nextTruckId) && db.nextRecordId == old(db.nextRecordId)
      && db.nextImageId == old(db.nextImageId)
    ensures !HasRole(session, ManagerRole) ==> r == Failure(401, UnauthorizedError)
    ensures HasRole(session, ManagerRole) && !Truthy(id) ==> r == Failure(400, MissingIdError)
    ensures r.Failure? ==> db.users == old(db.users)
    ensures HasRole(session, ManagerRole) && Truthy(id) ==>
      var found := FindUser(old(db.users), id.value);
      if found.None? || found.value.deletedAt.Some? then r == Failure(404, NotFoundError)
      else
        var i := UserIndex(old(db.users), id.value).value;
        r == UserRow(SoftDeleted(found.value, now)) && db.users == old(db.users)[i := r.user]
  {
    if !HasRole(session, ManagerRole) {
      return Failure(401, UnauthorizedError);
    }
    if !Truthy(id) {
      return Failure(400, MissingIdError);
    }
    var index := UserIndex(db.users, id.value);
    if index.None? || db.users[index.value].deletedAt.Some? {
      return Failure(404, NotFoundError);
    }
    var i := index.value;
    var deleted := SoftDeleted(db.users[i], now);
    db.UpdateUserAt(i, deleted);
    r := UserRow(deleted);
  }

  /**
   * After a soft delete the user drops out of the `GET` list and everyone
   * else stays in it, and the lookup a second `DELETE` makes finds the
   * row stamped, so that one answers 404.
   */
  lemma DeleteHidesOnlyThatUser(users: seq<User>, i: nat, now: int)
    requires UniqueUserIds(users) && i < |users|
    ensures var after := users[i := SoftDeleted(users[i], now)];
      && (forall u :: u in LiveUsers(after) <==> u in LiveUsers(users) && u.id != users[i].id)
      && FindUser(after, users[i].id) == Some(SoftDeleted(users[i], now))
  {
    var after := users[i := SoftDeleted(users[i], now)];
    assert UniqueUserIds(after) by {
      forall a, b | 0 <= a < b < |after| ensures after[a].id != after[b].id {
        assert after[a].id == users[a].id && after[b].id == users[b].id;
      }
    }
    IndexOfRow(after, i);
    forall u ensures u in LiveUsers(after) <==> u in LiveUsers(users) && u.id != users[i].id {
      if u in after && u.deletedAt.None? {
        var k :| 0 <= k < |after| && after[k] == u;
        assert k != i;
        assert users[k] == u;
        assert u.id != users[i].id;
      }
      if u in users && u.deletedAt.None? && u.id != users[i].id {
        var k :| 0 <= k < |users| && users[k] == u;
        assert after[k] == u;
      }
    }
  }

  /** A patch that sets `deletedAt` back to `null` brings a soft-deleted user back into the list. */
  lemma RestoreRelists(u: User, now: int)
    ensures var restored := Patched(SoftDeleted(u, now), UserPatch(None, None, None, None, Some(None)));
      restored == Some(u.(deletedAt := None)) && restored.value in LiveUsers([restored.value])
  {
  }
}
