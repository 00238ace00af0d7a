/**
 * What the configuration seeded by initPrefabDB (src/database/AuthDb.ts) grants,
 * for any starting ids of the five tables, and what the hard-coded group id 2 of
 * the create-user action relies on.
 */
module Prefab {
  import opened Wrappers
  import opened Entities
  import opened Kernel
  import opened Queries
  import opened Store
  import opened AuthProvider

  /** The admin group grants admin and api, the user group api alone, each in edge order. */
  lemma PrefabGroupGrants(g0: nat, p0: nat, m0: nat, u0: nat, um0: nat, password: string, seed: string, now: Date)
    ensures var t := PrefabTables(g0, p0, m0, u0, um0, password, seed, now);
      && GroupPermissions(t, g0) == [Permission(p0, "admin"), Permission(p0 + 1, "api")]
      && GroupPermissions(t, g0 + 1) == [Permission(p0 + 1, "api")]
  {
    var t := PrefabTables(g0, p0, m0, u0, um0, password, seed, now);
    var e0, e1, e2 := t.groupMap[0], t.groupMap[1], t.groupMap[2];
    var admin, api := Permission(p0, "admin"), Permission(p0 + 1, "api");
    assert PermissionById(t.permission, p0) == Some(admin);
    assert PermissionById(t.permission, p0 + 1) == Some(api);
    ThreeEdges(e0, e1, e2, g0);
    assert RowsOfGroup(t.groupMap, g0) == [e0, e1];
    PermissionsOfTwo(e0, e1, t.permission, admin, api);
    ThreeEdges(e0, e1, e2, g0 + 1);
    assert RowsOfGroup(t.groupMap, g0 + 1) == [e2];
    PermissionsOfOne(e2, t.permission, api);
  }

  lemma ThreeEdges(e0: GroupMap, e1: GroupMap, e2: GroupMap, g: nat)
    ensures RowsOfGroup([e0, e1, e2], g) ==
      (if e0.group_id == g then [e0] else []) + (if e1.group_id == g then [e1] else [])
      + (if e2.group_id == g then [e2] else [])
  {
    RowsOfGroupSnoc([], e0, g);
    assert [e0] == [] + [e0];
    RowsOfGroupSnoc([e0], e1, g);
    assert [e0, e1] == [e0] + [e1];
    RowsOfGroupSnoc([e0, e1], e2, g);
    assert [e0, e1, e2] == [e0, e1] + [e2];
  }

  lemma PermissionsOfOne(e: GroupMap, ps: seq<Permission>, a: Permission)
    requires PermissionById(ps, e.permission) == Some(a)
    ensures PermissionsOf([e], ps) == [a]
  {
    PermissionsOfSnoc([], e, ps);
    assert [e] == [] + [e];
  }

  lemma PermissionsOfTwo(e0: GroupMap, e1: GroupMap, ps: seq<Permission>, a: Permission, b: Permission)
    requires PermissionById(ps, e0.permission) == Some(a) && PermissionById(ps, e1.permission) == Some(b)
    ensures PermissionsOf([e0, e1], ps) == [a, b]
  {
    PermissionsOfOne(e0, ps, a);
    PermissionsOfSnoc([e0], e1, ps);
    assert [e0, e1] == [e0] + [e1];
  }

  /** A user with one edge, to a group that exists, is in that group alone. */
  lemma OneEdge(t: Tables, row: UserMap, g: Group)
    requires t.userMap == [row] && GroupById(t.groups, row.group_id) == Some(g)
    ensures UserGroups(t, row.user_id) == [g]
  {
    RowsOfUserSnoc([], row, row.user_id);
    assert [row] == [] + [row];
    GroupsOfSnoc([], row, t.groups);
  }

  /** A group granting one permission gives exactly that permission. */
  lemma OneGroupOnePermission(t: Tables, g: Group, a: Permission)
    requires GroupPermissions(t, g.e_id) == [a]
    ensures PermissionsOfGroups(t, [g]) == [a]
  {
    PermissionsOfGroupsSnoc(t, [], g);
    assert [g] == [] + [g];
    AddAllSnoc([], [], a);
    assert [a] == [] + [a];
  }

  /** A group granting two permissions of distinct ids gives exactly those two. */
  lemma OneGroupTwoPermissions(t: Tables, g: Group, a: Permission, b: Permission)
    requires GroupPermissions(t, g.e_id) == [a, b] && a.e_id != b.e_id
    ensures PermissionsOfGroups(t, [g]) == [a, b]
  {
    PermissionsOfGroupsSnoc(t, [], g);
    assert [g] == [] + [g];
    AddAllSnoc([], [], a);
    assert [a] == [] + [a];
    AddAllSnoc([], [a], b);
    assert [a, b] == [a] + [b];
    assert !HasId([a], b.e_id);
  }

  /**
   * The seeded admin belongs to exactly the admin group and resolves to exactly the
   * two permissions admin and api (the integration test expects two).
   */
  lemma PrefabAdminResolves(g0: nat, p0: nat, m0: nat, u0: nat, um0: nat, password: string, seed: string, now: Date)
    ensures var t := PrefabTables(g0, p0, m0, u0, um0, password, seed, now);
      && UserGroups(t, u0) == [Group(g0, "admin")]
      && UserPermissions(t, u0) == [Permission(p0, "admin"), Permission(p0 + 1, "api")]
      && |UserPermissions(t, u0)| == 2
  {
    var t := PrefabTables(g0, p0, m0, u0, um0, password, seed, now);
    PrefabGroupGrants(g0, p0, m0, u0, um0, password, seed, now);
    var g := Group(g0, "admin");
    assert GroupById(t.groups, g0) == Some(g);
    OneEdge(t, t.userMap[0], g);
    OneGroupTwoPermissions(t, g, Permission(p0, "admin"), Permission(p0 + 1, "api"));
  }

  /** The seeded admin is allowed both 'admin' and 'api', and nothing else. */
  lemma PrefabAdminAllowed(g0: nat, p0: nat, m0: nat, u0: nat, um0: nat, password: string, seed: string, now: Date, p: string)
    ensures var t := PrefabTables(g0, p0, m0, u0, um0, password, seed, now);
      IsAllowed(t, "admin", p) <==> p == "admin" || p == "api"
  {
    var t := PrefabTables(g0, p0, m0, u0, um0, password, seed, now);
    PrefabAdminResolves(g0, p0, m0, u0, um0, password, seed, now);
    assert UserByName(t.authUser, "admin") == Some(t.authUser[0]);
    var ps := UserPermissions(t, u0);
    assert ps[0].permission_name == "admin" && ps[1].permission_name == "api";
  }

  /**
   * With a crypto client whose hash of (seed, SERVER_PASSWORD) is nonempty, the
   * seeded admin logs in with SERVER_PASSWORD, whatever the request type.
   */
  lemma SeededAdminLogsIn(cc: CryptoClient, serverPassword: string, seed: string, now: Date,
                          g0: nat, p0: nat, m0: nat, u0: nat, um0: nat, requestType: string)
    requires cc.getHash(seed, serverPassword) != ""
    ensures var t := PrefabTables(g0, p0, m0, u0, um0, PrefabPassword(Some(cc), seed, serverPassword), seed, now);
      AuthorizeToken(t, Some(cc), "admin", serverPassword, requestType)
  {
    var t := PrefabTables(g0, p0, m0, u0, um0, PrefabPassword(Some(cc), seed, serverPassword), seed, now);
    PrefabAdminAllowed(g0, p0, m0, u0, um0, PrefabPassword(Some(cc), seed, serverPassword), seed, now, "api");
    assert UserByName(t.authUser, "admin") == Some(t.authUser[0]);
  }

  /**
   * Group id 2 is the user group of the seed exactly when the groups table numbers
   * from 1: the assumption behind the create-user action's hard-coded group id.
   */
  lemma GroupTwoIsUserGroup(g0: nat, p0: nat, m0: nat, u0: nat, um0: nat, password: string, seed: string, now: Date)
    ensures var t := PrefabTables(g0, p0, m0, u0, um0, password, seed, now);
      GroupById(t.groups, 2) == Some(Group(2, "user")) <==> g0 == 1
  {
    var t := PrefabTables(g0, p0, m0, u0, um0, password, seed, now);
    if g0 == 1 {
      assert t.groups[1] == Group(2, "user");
    } else if g0 == 2 {
      assert GroupById(t.groups, 2) == Some(Group(2, "admin"));
    }
  }

  /**
   * A user added after the seed (ids from 1) with one edge to group 2 is in the user
   * group only and resolves to the api permission only: allowed 'api', not 'admin'.
   */
  lemma NewUserGetsApiOnly(p0: nat, m0: nat, u0: nat, um0: nat, password: string, seed: string, now: Date,
                           u: nat, um: nat, name: string, pw: string, s: string, d: Date)
    requires u != u0 && name != "admin"
    ensures var t := PrefabTables(1, p0, m0, u0, um0, password, seed, now);
      var t' := t.(authUser := t.authUser + [AuthUser(u, name, pw, s, d, false)],
                   userMap := t.userMap + [UserMap(um, u, 2)]);
      && UserGroups(t', u) == [Group(2, "user")]
      && UserPermissions(t', u) == [Permission(p0 + 1, "api")]
      && IsAllowed(t', name, "api") && !IsAllowed(t', name, "admin")
  {
    var t := PrefabTables(1, p0, m0, u0, um0, password, seed, now);
    var row := UserMap(um, u, 2);
    var t' := t.(authUser := t.authUser + [AuthUser(u, name, pw, s, d, false)],
                 userMap := t.userMap + [row]);
    PrefabGroupGrants(1, p0, m0, u0, um0, password, seed, now);
    NewUserPermissions(t, t', u, row, Permission(p0 + 1, "api"));
    SecondUserByName(t.authUser[0], AuthUser(u, name, pw, s, d, false));
    OnlyApiAllowed(t', name, Permission(p0 + 1, "api"));
  }

  lemma OnlyApiAllowed(t: Tables, name: string, api: Permission)
    requires UserByName(t.authUser, name).Some?
    requires UserPermissions(t, UserByName(t.authUser, name).value.e_id) == [api] && api.permission_name == "api"
    ensures IsAllowed(t, name, "api") && !IsAllowed(t, name, "admin")
  {
    assert api in [api];
  }

  /** A name that only the second of two users has is looked up to that user. */
  lemma SecondUserByName(first: AuthUser, second: AuthUser)
    requires first.user_name != second.user_name
    ensures UserByName([first, second], second.user_name) == Some(second)
  {
  }

  lemma NewUserPermissions(t: Tables, t': Tables, u: nat, row: UserMap, api: Permission)
    requires t.groups == [Group(1, "admin"), Group(2, "user")] && |t.userMap| == 1
    requires t.userMap[0].user_id != u && row == UserMap(row.e_id, u, 2)
    requires t'.groups == t.groups && t'.userMap == t.userMap + [row]
    requires t'.permission == t.permission && t'.groupMap == t.groupMap
    requires GroupPermissions(t, 2) == [api]
    ensures UserGroups(t', u) == [Group(2, "user")]
    ensures UserPermissions(t', u) == [api]
  {
    NewUserGroups(t, t', u, row);
    OneGroupOnePermission(t', Group(2, "user"), api);
  }

  lemma NewUserGroups(t: Tables, t': Tables, u: nat, row: UserMap)
    requires t.groups == [Group(1, "admin"), Group(2, "user")] && |t.userMap| == 1
    requires t.userMap[0].user_id != u && row == UserMap(row.e_id, u, 2)
    requires t'.groups == t.groups && t'.userMap == t.userMap + [row]
    ensures UserGroups(t', u) == [Group(2, "user")]
  {
    var first := t.userMap[0];
    assert t'.userMap == [] + [first] + [row];
    RowsOfUserSnoc([], first, u);
    RowsOfUserSnoc([] + [first], row, u);
    assert RowsOfUser(t'.userMap, u) == [] + [row];
    GroupsOfSnoc([], row, t.groups);
    assert GroupById(t.groups, 2) == Some(Group(2, "user"));
  }

  /** Adding another user and that user's edge leaves the seeded admin's permissions as they were. */
  lemma AdminAfterNewUser(g0: nat, p0: nat, m0: nat, u0: nat, um0: nat, password: string, seed: string, now: Date,
                          u: nat, um: nat, name: string, pw: string, s: string, d: Date, groupId: nat, p: string)
    requires u != u0 && name != "admin"
    ensures var t := PrefabTables(g0, p0, m0, u0, um0, password, seed, now);
      var t' := t.(authUser := t.authUser + [AuthUser(u, name, pw, s, d, false)],
                   userMap := t.userMap + [UserMap(um, u, groupId)]);
      IsAllowed(t', "admin", p) <==> p == "admin" || p == "api"
  {
    var t := PrefabTables(g0, p0, m0, u0, um0, password, seed, now);
    var row := UserMap(um, u, groupId);
    var t' := t.(authUser := t.authUser + [AuthUser(u, name, pw, s, d, false)], userMap := t.userMap + [row]);
    RowsOfUserSnoc(t.userMap, row, u0);
    assert UserGroups(t', u0) == UserGroups(t, u0);
    PermissionsOfGroupsFrame(t, t', UserGroups(t, u0));
    assert UserByName(t'.authUser, "admin") == Some(t.authUser[0]);
    PrefabAdminAllowed(g0, p0, m0, u0, um0, password, seed, now, p);
    assert UserByName(t.authUser, "admin") == Some(t.authUser[0]);
  }
}
