/**
 * End-to-end runs of the store and the actions, as the integration tests exercise
 * them: a fresh store is seeded, then a user is created, listed and deleted by the
 * seeded admin.
 */
module Scenarios {
  import opened Wrappers
  import opened Entities
  import opened Kernel
  import opened Queries
  import opened Store
  import opened AuthProvider
  import opened ApiAction
  import opened Prefab
  import CreateUserAction
  import DeleteUserAction
  import ListUserAction
  import ListUserGroupsAction

  /** A new store seeded by initPrefabDB: every table numbered from 1. */
  method Bootstrap(cc: Option<CryptoClient>, serverPassword: string, seed: string, now: Date) returns (db: AuthDb)
    ensures fresh(db) && db.Valid()
    ensures db.Snapshot() == PrefabTables(1, 1, 1, 1, 1, PrefabPassword(cc, seed, serverPassword), seed, now)
    ensures db.Counters() == [3, 3, 4, 2, 2]
  {
    db := new AuthDb();
    db.InitPrefabDB(cc, serverPassword, seed, now);
  }

  /** The seeded tables with the user alice (id 2) and her edge (id 2) to group 2 added. */
  function WithAlice(t: Tables, cc: CryptoClient, aliceSeed: string, created: Date): Tables {
    t.(authUser := t.authUser + [AuthUser(2, "alice", cc.getHash(aliceSeed, "pw1"), aliceSeed, created, false)],
       userMap := t.userMap + [UserMap(2, 2, 2)])
  }

  /** Step 1: the admin creates alice in the seeded store. */
  method CreateAlice(db: AuthDb, cc: CryptoClient, ghost pw: string, ghost seed: string, ghost now: Date,
                     aliceSeed: string, created: Date) returns (status: nat)
    requires db.Valid() && db.Counters() == [3, 3, 4, 2, 2]
    requires db.Snapshot() == PrefabTables(1, 1, 1, 1, 1, pw, seed, now)
    modifies db
    ensures db.Valid() && status == 200
    ensures db.Snapshot() == WithAlice(PrefabTables(1, 1, 1, 1, 1, pw, seed, now), cc, aliceSeed, created)
  {
    ghost var t := db.Snapshot();
    PrefabAdminAllowed(1, 1, 1, 1, 1, pw, seed, now, "admin");
    assert UserByName(t.authUser, "alice").None?;
    status := CreateUserAction.Handler(db, cc, Some(JwtToken("admin")), Body(Some("alice"), Some("pw1")), aliceSeed, created, true);
  }

  /** Step 2: listing as the admin gives two entries, alice last and not disabled. */
  lemma ListWithAlice(pw: string, seed: string, now: Date, cc: CryptoClient, aliceSeed: string, created: Date)
    ensures var r := ListUserAction.Handler(WithAlice(PrefabTables(1, 1, 1, 1, 1, pw, seed, now), cc, aliceSeed, created),
                                            Some(JwtToken("admin")), true);
      && r.status == 200 && |r.body.value| == 2
      && r.body.value[1] == ListUserAction.UserView(2, "alice", created, false)
  {
    AdminAfterNewUser(1, 1, 1, 1, 1, pw, seed, now, 2, 2, "alice", cc.getHash(aliceSeed, "pw1"), aliceSeed, created, 2, "admin");
  }

  /** Step 3: the admin deletes alice; what is left is the seeded store again. */
  method DeleteAlice(db: AuthDb, cc: CryptoClient, ghost pw: string, ghost seed: string, ghost now: Date,
                     aliceSeed: string, created: Date) returns (status: nat)
    requires db.Valid()
    requires db.Snapshot() == WithAlice(PrefabTables(1, 1, 1, 1, 1, pw, seed, now), cc, aliceSeed, created)
    modifies db
    ensures db.Valid() && status == 200
    ensures db.Snapshot() == PrefabTables(1, 1, 1, 1, 1, pw, seed, now)
  {
    ghost var t := PrefabTables(1, 1, 1, 1, 1, pw, seed, now);
    ghost var t1 := db.Snapshot();
    AdminAfterNewUser(1, 1, 1, 1, 1, pw, seed, now, 2, 2, "alice", cc.getHash(aliceSeed, "pw1"), aliceSeed, created, 2, "admin");
    assert UserByName(t1.authUser, "alice") == Some(t1.authUser[1]);
    status := DeleteUserAction.Handler(db, Some(JwtToken("admin")), Body(Some("alice"), None));
    AliceRemoved(pw, seed, now, cc, aliceSeed, created);
  }

  lemma AliceRemoved(pw: string, seed: string, now: Date, cc: CryptoClient, aliceSeed: string, created: Date)
    ensures var t := PrefabTables(1, 1, 1, 1, 1, pw, seed, now);
      var t1 := WithAlice(t, cc, aliceSeed, created);
      && UsersWithout(t1.authUser, 2) == t.authUser
      && RowsNotOfUser(t1.userMap, 2) == t.userMap
  {
    var t := PrefabTables(1, 1, 1, 1, 1, pw, seed, now);
    var t1 := WithAlice(t, cc, aliceSeed, created);
    assert t1.authUser[..1] == t.authUser;
    assert t1.userMap[..1] == t.userMap;
    assert t.authUser[..0] == [] && t.userMap[..0] == [];
    assert UsersWithout(t.authUser, 2) == [] + [t.authUser[0]];
    assert UsersWithout(t1.authUser, 2) == UsersWithout(t.authUser, 2) + [];
  }

  /** Step 4: listing as the admin again gives one entry. */
  lemma ListAfterDelete(pw: string, seed: string, now: Date)
    ensures var r := ListUserAction.Handler(PrefabTables(1, 1, 1, 1, 1, pw, seed, now), Some(JwtToken("admin")), true);
      r.status == 200 && |r.body.value| == 1
  {
    PrefabAdminAllowed(1, 1, 1, 1, 1, pw, seed, now, "admin");
  }

  /**
   * Bootstrap, create "alice" as the admin, list the users (two entries, alice last
   * and not disabled), delete "alice", list again (one entry).
   */
  method CreateListDelete(cc: CryptoClient, serverPassword: string, seed: string, now: Date,
                          aliceSeed: string, aliceCreated: Date)
    returns (created: nat, before: seq<ListUserAction.UserView>, deleted: nat, after: seq<ListUserAction.UserView>)
    ensures created == 200 && deleted == 200
    ensures |before| == 2 && before[1] == ListUserAction.UserView(2, "alice", aliceCreated, false)
    ensures |after| == 1
  {
    var admin := Some(JwtToken("admin"));
    var db := Bootstrap(Some(cc), serverPassword, seed, now);
    var pw := PrefabPassword(Some(cc), seed, serverPassword);
    created := CreateAlice(db, cc, pw, seed, now, aliceSeed, aliceCreated);
    ListWithAlice(pw, seed, now, cc, aliceSeed, aliceCreated);
    before := ListUserAction.Handler(db.Snapshot(), admin, true).body.value;
    deleted := DeleteAlice(db, cc, pw, seed, now, aliceSeed, aliceCreated);
    ListAfterDelete(pw, seed, now);
    after := ListUserAction.Handler(db.Snapshot(), admin, true).body.value;
  }

  /**
   * A user holding only 'api' (created in the seeded store, linked to group 2) is
   * refused the user list but gets exactly their own groups.
   */
  lemma ApiUserListsOwnGroupsOnly(p0: nat, m0: nat, u0: nat, um0: nat, password: string, seed: string, now: Date,
                                  u: nat, um: nat, name: string, pw: string, s: string, d: Date, listed: bool)
    requires u != u0 && name != "admin"
    ensures var t := PrefabTables(1, p0, m0, u0, um0, password, seed, now);
      var t' := t.(authUser := t.authUser + [AuthUser(u, name, pw, s, d, false)],
                   userMap := t.userMap + [UserMap(um, u, 2)]);
      && ListUserAction.Handler(t', Some(JwtToken(name)), listed).status == 403
      && ListUserGroupsAction.Handler(t', Some(JwtToken(name))) == Reply(200, Some([Group(2, "user")]))
  {
    NewUserGetsApiOnly(p0, m0, u0, um0, password, seed, now, u, um, name, pw, s, d);
    var t := PrefabTables(1, p0, m0, u0, um0, password, seed, now);
    var t' := t.(authUser := t.authUser + [AuthUser(u, name, pw, s, d, false)],
                 userMap := t.userMap + [UserMap(um, u, 2)]);
    assert UserByName(t'.authUser, name) == Some(t'.authUser[1]);
  }
}
