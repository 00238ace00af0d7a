/**
 * src/action/CreateUserAction.ts (POST /user/add): check the body, then the caller,
 * then write the user record and, only if that succeeded, the user's edge to the
 * group with the hard-coded id 2.
 */
module CreateUserAction {
  import opened Wrappers
  import opened Entities
  import opened Kernel
  import opened Queries
  import opened Store
  import opened AuthProvider
  import opened ApiAction
  import opened Prefab

  /** The group id the action links every new user to. */
  const DefaultGroupId: nat := 2

  /**
   * The handler. `seed` is the value generateSeed() returns, `now` the creation time,
   * and `edgeAccepted` whether the store accepts the UserMap write. Statuses: 400 for
   * a missing or empty field (checked first), 403 for a caller not allowed 'admin',
   * 504 when the user record is refused (its name is taken), 500 when the user was
   * written but the edge was not (the user stays), 200 when both were written.
   */
  method Handler(db: AuthDb, cc: CryptoClient, data: Option<JwtToken>, body: Body,
                 seed: string, now: Date, edgeAccepted: bool) returns (status: nat)
    requires db.Valid()
    modifies db`authUser, db`nextAuthUserId, db`userMap, db`nextUserMapId
    ensures db.Valid()
    ensures db.groups == old(db.groups) && db.permission == old(db.permission) && db.groupMap == old(db.groupMap)
    ensures db.nextGroupId == old(db.nextGroupId) && db.nextPermissionId == old(db.nextPermissionId)
    ensures db.nextGroupMapId == old(db.nextGroupMapId)
    ensures !Present(body.username) || !Present(body.password) ==>
      status == 400 && db.Snapshot() == old(db.Snapshot()) && db.Counters() == old(db.Counters())
    ensures Present(body.username) && Present(body.password) && !CallerHolds(old(db.Snapshot()), data, "admin") ==>
      status == 403 && db.Snapshot() == old(db.Snapshot()) && db.Counters() == old(db.Counters())
    ensures (Present(body.username) && Present(body.password) && CallerHolds(old(db.Snapshot()), data, "admin")
             && UserByName(old(db.authUser), body.username.value).Some?) ==>
      status == 504 && db.Snapshot() == old(db.Snapshot()) && db.Counters() == old(db.Counters())
    ensures (Present(body.username) && Present(body.password) && CallerHolds(old(db.Snapshot()), data, "admin")
             && UserByName(old(db.authUser), body.username.value).None?) ==>
      && db.authUser == old(db.authUser) + [NewUser(old(db.nextAuthUserId), cc, body, seed, now)]
      && db.nextAuthUserId == old(db.nextAuthUserId) + 1
      && (edgeAccepted ==>
            && status == 200
            && db.userMap == old(db.userMap) + [UserMap(old(db.nextUserMapId), old(db.nextAuthUserId), DefaultGroupId)]
            && db.nextUserMapId == old(db.nextUserMapId) + 1)
      && (!edgeAccepted ==> status == 500 && db.userMap == old(db.userMap) && db.nextUserMapId == old(db.nextUserMapId))
  {
    if !Present(body.username) || !Present(body.password) {
      return 400;
    }
    var allowed := CallerHolds(db.Snapshot(), data, "admin");
    if !allowed {
      status := 403;
    } else {
      status := CreateUser(db, cc, body, seed, now, edgeAccepted);
    }
  }

  /** The writes of an allowed request: the user record, then its edge to the default group. */
  method CreateUser(db: AuthDb, cc: CryptoClient, body: Body, seed: string, now: Date, edgeAccepted: bool)
    returns (status: nat)
    requires db.Valid() && Present(body.username) && Present(body.password)
    modifies db`authUser, db`nextAuthUserId, db`userMap, db`nextUserMapId
    ensures db.Valid()
    ensures UserByName(old(db.authUser), body.username.value).Some? ==>
      && status == 504
      && db.authUser == old(db.authUser) && db.nextAuthUserId == old(db.nextAuthUserId)
      && db.userMap == old(db.userMap) && db.nextUserMapId == old(db.nextUserMapId)
    ensures UserByName(old(db.authUser), body.username.value).None? ==>
      && db.authUser == old(db.authUser) + [NewUser(old(db.nextAuthUserId), cc, body, seed, now)]
      && db.nextAuthUserId == old(db.nextAuthUserId) + 1
      && (edgeAccepted ==>
            && status == 200
            && db.userMap == old(db.userMap) + [UserMap(old(db.nextUserMapId), old(db.nextAuthUserId), DefaultGroupId)]
            && db.nextUserMapId == old(db.nextUserMapId) + 1)
      && (!edgeAccepted ==> status == 500 && db.userMap == old(db.userMap) && db.nextUserMapId == old(db.nextUserMapId))
  {
    var hash := cc.getHash(seed, body.password.value);
    var uid := db.CreateAuthUser(body.username.value, hash, seed, now, false);
    if uid.Some? {
      var user := db.CreateUserMap(uid.value.e_id, DefaultGroupId, edgeAccepted);
      if user.Some? {
        status := 200;
      } else {
        status := 500;
      }
    } else {
      status := 504;
    }
  }

  /** The record the action writes: the given name, password hash(seed, password), not disabled. */
  function NewUser(id: nat, cc: CryptoClient, body: Body, seed: string, now: Date): (u: AuthUser)
    requires Present(body.username) && Present(body.password)
    ensures u.e_id == id && u.user_name == body.username.value && !u.disabled
    ensures u.seed == seed && u.password == cc.getHash(u.seed, body.password.value)
  {
    AuthUser(id, body.username.value, cc.getHash(seed, body.password.value), seed, now, false)
  }

  /**
   * A user created in the seeded store (ids from 1) can log in with the password
   * given at creation, provided its hash is nonempty, and holds 'api' but not 'admin'.
   */
  lemma CreatedUserLogsIn(cc: CryptoClient, p0: nat, m0: nat, u0: nat, um0: nat, password: string, adminSeed: string,
                          now: Date, u: nat, um: nat, body: Body, seed: string, created: Date, requestType: string)
    requires Present(body.username) && Present(body.password) && body.username.value != "admin"
    requires u != u0
    requires cc.getHash(seed, body.password.value) != ""
    ensures var t := PrefabTables(1, p0, m0, u0, um0, password, adminSeed, now);
      var t' := t.(authUser := t.authUser + [NewUser(u, cc, body, seed, created)],
                   userMap := t.userMap + [UserMap(um, u, DefaultGroupId)]);
      && AuthorizeToken(t', Some(cc), body.username.value, body.password.value, requestType)
      && !IsAllowed(t', body.username.value, "admin")
  {
    var t := PrefabTables(1, p0, m0, u0, um0, password, adminSeed, now);
    var nu := NewUser(u, cc, body, seed, created);
    var t' := t.(authUser := t.authUser + [nu], userMap := t.userMap + [UserMap(um, u, DefaultGroupId)]);
    NewUserGetsApiOnly(p0, m0, u0, um0, password, adminSeed, now, u, um, nu.user_name, nu.password, seed, created);
    assert UserByName(t'.authUser, nu.user_name) == Some(nu);
  }
}
