/**
 * The write side of src/database/AuthDb.ts: the in-memory store as an object with one
 * sequence per table and, per table, the id it will assign next (createObject numbers
 * the records of each table 1, 2, 3, ... and never reuses an id); the record writes
 * the core performs; the seeding routine initPrefabDB; and the resolvers written as
 * the loops the source runs, each proved equal to its function in Queries.
 */
module Store {
  import opened Wrappers
  import opened Entities
  import opened Kernel
  import opened Queries

  // ---------------------------------------------------------------------------
  // Table invariants and deletions

  /** AuthUser ids increase with insertion and stay below the next id; user names are unique. */
  predicate UsersWellFormed(users: seq<AuthUser>, nextId: nat) {
    && (forall i, j | 0 <= i < j < |users| :: users[i].e_id < users[j].e_id)
    && (forall i | 0 <= i < |users| :: users[i].e_id < nextId)
    && (forall i, j | 0 <= i < j < |users| :: users[i].user_name != users[j].user_name)
  }

  predicate IdsIncreasing(rows: seq<UserMap>) {
    forall i, j | 0 <= i < j < |rows| :: rows[i].e_id < rows[j].e_id
  }

  /** UserMap ids increase with insertion and stay below the next id. */
  predicate RowsWellFormed(rows: seq<UserMap>, nextId: nat) {
    IdsIncreasing(rows) && forall i | 0 <= i < |rows| :: rows[i].e_id < nextId
  }

  /** `authUser.delete(id)`: the table without the record of that id. */
  function UsersWithout(users: seq<AuthUser>, id: nat): (r: seq<AuthUser>)
    ensures forall u :: u in r <==> u in users && u.e_id != id
  {
    if users == [] then []
    else
      var last := users[|users| - 1];
      UsersWithout(users[..|users| - 1], id) + (if last.e_id == id then [] else [last])
  }

  /** The UserMap table after `userMap.delete(id)` for every id in `ids`. */
  function RowsWithout(rows: seq<UserMap>, ids: set<nat>): (r: seq<UserMap>)
    ensures forall m :: m in r <==> m in rows && m.e_id !in ids
  {
    if rows == [] then []
    else
      var last := rows[|rows| - 1];
      RowsWithout(rows[..|rows| - 1], ids) + (if last.e_id in ids then [] else [last])
  }

  function RowIds(rows: seq<UserMap>): set<nat> {
    set m | m in rows :: m.e_id
  }

  lemma {:induction false} UsersWithoutWellFormed(users: seq<AuthUser>, id: nat, nextId: nat)
    requires UsersWellFormed(users, nextId)
    ensures UsersWellFormed(UsersWithout(users, id), nextId)
    decreases |users|
  {
    if users != [] {
      var init, last := users[..|users| - 1], users[|users| - 1];
      assert UsersWellFormed(init, nextId);
      UsersWithoutWellFormed(init, id, nextId);
      var r' := UsersWithout(init, id);
      if last.e_id != id {
        forall k | 0 <= k < |r'|
          ensures r'[k].e_id < last.e_id && r'[k].user_name != last.user_name
        {
          assert r'[k] in init;
          EarlierUser(users, nextId, r'[k]);
        }
        UsersSnocWellFormed(r', last, nextId);
      }
    }
  }

  /** A user stored before the last one has a smaller id and another name. */
  lemma EarlierUser(users: seq<AuthUser>, nextId: nat, u: AuthUser)
    requires UsersWellFormed(users, nextId) && |users| > 0 && u in users[..|users| - 1]
    ensures u.e_id < users[|users| - 1].e_id && u.user_name != users[|users| - 1].user_name
  {
    var j :| 0 <= j < |users| - 1 && users[..|users| - 1][j] == u;
    assert users[j] == u;
  }

  /** Appending a user with a larger id and a new name keeps the table well formed. */
  lemma UsersSnocWellFormed(r: seq<AuthUser>, last: AuthUser, nextId: nat)
    requires UsersWellFormed(r, nextId) && last.e_id < nextId
    requires forall k | 0 <= k < |r| :: r[k].e_id < last.e_id && r[k].user_name != last.user_name
    ensures UsersWellFormed(r + [last], nextId)
  {
    var s := r + [last];
    forall i, j | 0 <= i < j < |s| ensures s[i].e_id < s[j].e_id && s[i].user_name != s[j].user_name {
      assert s[i] == r[i];
    }
  }

  lemma {:induction false} RowsWithoutWellFormed(rows: seq<UserMap>, ids: set<nat>, nextId: nat)
    requires RowsWellFormed(rows, nextId)
    ensures RowsWellFormed(RowsWithout(rows, ids), nextId)
    decreases |rows|
  {
    if rows != [] {
      var init, last := rows[..|rows| - 1], rows[|rows| - 1];
      RowsWithoutWellFormed(init, ids, nextId);
      var r' := RowsWithout(init, ids);
      if last.e_id !in ids {
        forall k | 0 <= k < |r'| ensures r'[k].e_id < last.e_id {
          assert r'[k] in r';
          var j :| 0 <= j < |init| && init[j] == r'[k];
          assert rows[j] == init[j];
        }
      }
    }
  }

  /** Deleting no id changes nothing. */
  lemma {:induction false} RowsWithoutNothing(rows: seq<UserMap>)
    ensures RowsWithout(rows, {}) == rows
    decreases |rows|
  {
    if rows != [] {
      RowsWithoutNothing(rows[..|rows| - 1]);
    }
  }

  /** Deleting one more id is deleting the union. */
  lemma {:induction false} RowsWithoutStep(rows: seq<UserMap>, ids: set<nat>, id: nat)
    ensures RowsWithout(RowsWithout(rows, ids), {id}) == RowsWithout(rows, ids + {id})
    decreases |rows|
  {
    if rows != [] {
      var init, last := rows[..|rows| - 1], rows[|rows| - 1];
      RowsWithoutStep(init, ids, id);
      var once := RowsWithout(rows, ids);
      var once' := RowsWithout(init, ids);
      if last.e_id in ids {
        assert once == once';
      } else {
        assert once == once' + [last];
        assert once[..|once| - 1] == once';
        assert once[|once| - 1] == last;
      }
    }
  }

  /** Only whether the rows' own ids are in the set matters. */
  lemma {:induction false} RowsWithoutAgree(rows: seq<UserMap>, a: set<nat>, b: set<nat>)
    requires forall m | m in rows :: m.e_id in a <==> m.e_id in b
    ensures RowsWithout(rows, a) == RowsWithout(rows, b)
    decreases |rows|
  {
    if rows != [] {
      RowsWithoutAgree(rows[..|rows| - 1], a, b);
      assert rows[|rows| - 1] in rows;
    }
  }

  /**
   * With unique ids, deleting by id every row the user_id query returned removes
   * exactly the rows of that user, keeping the others in order.
   */
  lemma {:induction false} DeleteSelectedRows(rows: seq<UserMap>, userId: nat)
    requires IdsIncreasing(rows)
    ensures RowsWithout(rows, RowIds(RowsOfUser(rows, userId))) == RowsNotOfUser(rows, userId)
    decreases |rows|
  {
    if rows != [] {
      var init, last := rows[..|rows| - 1], rows[|rows| - 1];
      DeleteSelectedRows(init, userId);
      var s := RowIds(RowsOfUser(rows, userId));
      var s' := RowIds(RowsOfUser(init, userId));
      forall m | m in init ensures m.e_id < last.e_id {
        var j :| 0 <= j < |init| && init[j] == m;
        assert rows[j] == m;
      }
      assert last.e_id !in s';
      assert last.e_id in s <==> SelectsUser(last, userId);
      forall m | m in init ensures m.e_id in s <==> m.e_id in s' {
        if m.e_id in s {
          var w :| w in RowsOfUser(rows, userId) && w.e_id == m.e_id;
          assert w != last;
        }
      }
      RowsWithoutAgree(init, s, s');
    }
  }

  /** With unique user names, a stored user is what a lookup of their name returns. */
  lemma UniqueNameLookup(users: seq<AuthUser>, nextId: nat, u: AuthUser)
    requires UsersWellFormed(users, nextId) && u in users
    ensures UserByName(users, u.user_name) == Some(u)
  {
    var w := UserByName(users, u.user_name).value;
    var i :| 0 <= i < |users| && users[i] == u;
    var j :| 0 <= j < |users| && users[j] == w;
    if i < j {
      assert users[i].user_name != users[j].user_name;
    } else if j < i {
      assert users[j].user_name != users[i].user_name;
    }
  }

  /** Deleting a user by id leaves the lookup of every other user's name as it was. */
  lemma OtherUsersKept(users: seq<AuthUser>, nextId: nat, id: nat, name: string)
    requires UsersWellFormed(users, nextId)
    requires UserByName(users, name).None? || UserByName(users, name).value.e_id != id
    ensures UserByName(UsersWithout(users, id), name) == UserByName(users, name)
  {
    UsersWithoutWellFormed(users, id, nextId);
    if UserByName(users, name).Some? {
      UniqueNameLookup(UsersWithout(users, id), nextId, UserByName(users, name).value);
    }
  }

  /** Deleting the user a name resolves to leaves no user of that name. */
  lemma DeletedNameGone(users: seq<AuthUser>, nextId: nat, name: string)
    requires UsersWellFormed(users, nextId) && UserByName(users, name).Some?
    ensures UserByName(UsersWithout(users, UserByName(users, name).value.e_id), name).None?
  {
    var target := UserByName(users, name).value;
    forall w | w in UsersWithout(users, target.e_id) ensures w.user_name != name {
      if w.user_name == name {
        UniqueNameLookup(users, nextId, w);
      }
    }
  }

  // ---------------------------------------------------------------------------
  // The seeded configuration

  /** The admin password initPrefabDB stores: hash(seed, SERVER_PASSWORD), or '' without a crypto client. */
  function PrefabPassword(cc: Option<CryptoClient>, seed: string, serverPassword: string): string {
    if cc.Some? then cc.value.getHash(seed, serverPassword) else ""
  }

  /**
   * The tables initPrefabDB leaves in an empty store whose tables number from
   * g0, p0, m0 (groups, permissions, group edges), u0 (users) and um0 (user edges).
   */
  function PrefabTables(g0: nat, p0: nat, m0: nat, u0: nat, um0: nat, password: string, seed: string, now: Date): Tables {
    Tables(
      [Group(g0, "admin"), Group(g0 + 1, "user")],
      [Permission(p0, "admin"), Permission(p0 + 1, "api")],
      [GroupMap(m0, g0, p0), GroupMap(m0 + 1, g0, p0 + 1), GroupMap(m0 + 2, g0 + 1, p0 + 1)],
      [AuthUser(u0, "admin", password, seed, now, false)],
      [UserMap(um0, u0, g0)])
  }

  class AuthDb {
    var groups: seq<Group>
    var permission: seq<Permission>
    var groupMap: seq<GroupMap>
    var authUser: seq<AuthUser>
    var userMap: seq<UserMap>
    var nextGroupId: nat
    var nextPermissionId: nat
    var nextGroupMapId: nat
    var nextAuthUserId: nat
    var nextUserMapId: nat

    ghost predicate Valid()
      reads this
    {
      UsersWellFormed(authUser, nextAuthUserId) && RowsWellFormed(userMap, nextUserMapId)
    }

    function Snapshot(): Tables
      reads this
    {
      Tables(groups, permission, groupMap, authUser, userMap)
    }

    /** The next id of each table, in the order of the tables. */
    function Counters(): seq<nat>
      reads this
    {
      [nextGroupId, nextPermissionId, nextGroupMapId, nextAuthUserId, nextUserMapId]
    }

    /** A new, empty store; every table numbers its records from 1. */
    constructor ()
      ensures Valid()
      ensures Snapshot() == Tables([], [], [], [], [])
      ensures nextGroupId == 1 && nextPermissionId == 1 && nextGroupMapId == 1
      ensures nextAuthUserId == 1 && nextUserMapId == 1
    {
      groups, permission, groupMap, authUser, userMap := [], [], [], [], [];
      nextGroupId, nextPermissionId, nextGroupMapId, nextAuthUserId, nextUserMapId := 1, 1, 1, 1, 1;
    }

    // -------------------------------------------------------------------------
    // Record writes (createObject / delete)

    method CreateGroup(group_name: string) returns (g: Group)
      requires Valid()
      modifies this`groups, this`nextGroupId
      ensures Valid()
      ensures g == Group(old(nextGroupId), group_name)
      ensures groups == old(groups) + [g] && nextGroupId == old(nextGroupId) + 1
    {
      g := Group(nextGroupId, group_name);
      groups := groups + [g];
      nextGroupId := nextGroupId + 1;
    }

    method CreatePermission(permission_name: string) returns (p: Permission)
      requires Valid()
      modifies this`permission, this`nextPermissionId
      ensures Valid()
      ensures p == Permission(old(nextPermissionId), permission_name)
      ensures permission == old(permission) + [p] && nextPermissionId == old(nextPermissionId) + 1
    {
      p := Permission(nextPermissionId, permission_name);
      permission := permission + [p];
      nextPermissionId := nextPermissionId + 1;
    }

    method CreateGroupMap(group_id: nat, permission_id: nat) returns (m: GroupMap)
      requires Valid()
      modifies this`groupMap, this`nextGroupMapId
      ensures Valid()
      ensures m == GroupMap(old(nextGroupMapId), group_id, permission_id)
      ensures groupMap == old(groupMap) + [m] && nextGroupMapId == old(nextGroupMapId) + 1
    {
      m := GroupMap(nextGroupMapId, group_id, permission_id);
      groupMap := groupMap + [m];
      nextGroupMapId := nextGroupMapId + 1;
    }

    /**
     * `authUser.createObject(...)`: refused (null) when the unique column user_name
     * already holds that name; otherwise appended under the next id.
     */
    method CreateAuthUser(user_name: string, password: string, seed: string, created: Date, disabled: bool)
      returns (r: Option<AuthUser>)
      requires Valid()
      modifies this`authUser, this`nextAuthUserId
      ensures Valid()
      ensures UserByName(old(authUser), user_name).Some? ==>
        r.None? && authUser == old(authUser) && nextAuthUserId == old(nextAuthUserId)
      ensures UserByName(old(authUser), user_name).None? ==>
        && r == Some(AuthUser(old(nextAuthUserId), user_name, password, seed, created, disabled))
        && authUser == old(authUser) + [r.value]
        && nextAuthUserId == old(nextAuthUserId) + 1
    {
      if UserByName(authUser, user_name).Some? {
        return None;
      }
      var u := AuthUser(nextAuthUserId, user_name, password, seed, created, disabled);
      assert forall i | 0 <= i < |authUser| :: authUser[i].user_name != user_name by {
        forall i | 0 <= i < |authUser| ensures authUser[i].user_name != user_name {
          assert authUser[i] in authUser;
        }
      }
      authUser := authUser + [u];
      nextAuthUserId := nextAuthUserId + 1;
      r := Some(u);
    }

    /**
     * `userMap.createObject(...)`: appended under the next id when the backing store
     * accepts the write (`accepted`, an outcome the model does not see), otherwise null.
     */
    method CreateUserMap(user_id: nat, group_id: nat, accepted: bool) returns (r: Option<UserMap>)
      requires Valid()
      modifies this`userMap, this`nextUserMapId
      ensures Valid()
      ensures !accepted ==> r.None? && userMap == old(userMap) && nextUserMapId == old(nextUserMapId)
      ensures accepted ==>
        && r == Some(UserMap(old(nextUserMapId), user_id, group_id))
        && userMap == old(userMap) + [r.value]
        && nextUserMapId == old(nextUserMapId) + 1
    {
      if !accepted {
        return None;
      }
      var m := UserMap(nextUserMapId, user_id, group_id);
      userMap := userMap + [m];
      nextUserMapId := nextUserMapId + 1;
      r := Some(m);
    }

    method DeleteUserMap(id: nat)
      requires Valid()
      modifies this`userMap
      ensures Valid()
      ensures userMap == RowsWithout(old(userMap), {id})
    {
      RowsWithoutWellFormed(userMap, {id}, nextUserMapId);
      userMap := RowsWithout(userMap, {id});
    }

    method DeleteAuthUser(id: nat)
      requires Valid()
      modifies this`authUser
      ensures Valid()
      ensures authUser == UsersWithout(old(authUser), id)
    {
      UsersWithoutWellFormed(authUser, id, nextAuthUserId);
      authUser := UsersWithout(authUser, id);
    }

    // -------------------------------------------------------------------------
    // initPrefabDB

    /**
     * Seeds an empty store, strictly in this order: groups admin and user,
     * permissions admin and api, the edges admin->admin, admin->api, user->api,
     * the user admin (password hash(seed, SERVER_PASSWORD)) and its edge to the
     * admin group. Each step takes its ids from the records the previous steps made.
     */
    method InitPrefabDB(cc: Option<CryptoClient>, serverPassword: string, seed: string, now: Date)
      requires Valid()
      requires Snapshot() == Tables([], [], [], [], [])
      modifies this
      ensures Valid()
      ensures Snapshot() == PrefabTables(
        old(nextGroupId), old(nextPermissionId), old(nextGroupMapId), old(nextAuthUserId), old(nextUserMapId),
        PrefabPassword(cc, seed, serverPassword), seed, now)
      ensures nextGroupId == old(nextGroupId) + 2 && nextPermissionId == old(nextPermissionId) + 2
      ensures nextGroupMapId == old(nextGroupMapId) + 3
      ensures nextAuthUserId == old(nextAuthUserId) + 1 && nextUserMapId == old(nextUserMapId) + 1
    {
      var hash := if cc.Some? then cc.value.getHash(seed, serverPassword) else "";
      var adminGroup := SeedAccessRules();
      SeedAdmin(hash, seed, now, adminGroup.e_id);
    }

    /** The last part of the seed: the user admin, then its edge to the admin group. */
    method SeedAdmin(hash: string, seed: string, now: Date, adminGroupId: nat)
      requires Valid() && authUser == [] && userMap == []
      modifies this`authUser, this`nextAuthUserId, this`userMap, this`nextUserMapId
      ensures Valid()
      ensures authUser == [AuthUser(old(nextAuthUserId), "admin", hash, seed, now, false)]
      ensures userMap == [UserMap(old(nextUserMapId), old(nextAuthUserId), adminGroupId)]
      ensures nextAuthUserId == old(nextAuthUserId) + 1 && nextUserMapId == old(nextUserMapId) + 1
    {
      var adminUser := CreateAuthUser("admin", hash, seed, now, false);
      var _ := CreateUserMap(adminUser.value.e_id, adminGroupId, true);
    }

    /**
     * The group, permission and group-edge part of the seed; returns the admin group,
     * which the admin user's edge names.
     */
    method SeedAccessRules() returns (adminGroup: Group)
      requires Valid()
      modifies this`groups, this`nextGroupId, this`permission, this`nextPermissionId,
        this`groupMap, this`nextGroupMapId
      ensures Valid()
      ensures var want := PrefabTables(
          old(nextGroupId), old(nextPermissionId), old(nextGroupMapId), 0, 0, "", "", Date(0));
        && groups == old(groups) + want.groups
        && permission == old(permission) + want.permission
        && groupMap == old(groupMap) + want.groupMap
      ensures adminGroup == Group(old(nextGroupId), "admin")
      ensures nextGroupId == old(nextGroupId) + 2 && nextPermissionId == old(nextPermissionId) + 2
      ensures nextGroupMapId == old(nextGroupMapId) + 3
    {
      var createdGroups := AddGroups();
      var createdPermissions := AddPermissions();
      MapGroups(createdGroups, createdPermissions);
      adminGroup := createdGroups[0];
    }

    /** The first seeding step: groups admin and user, collected in creation order. */
    method AddGroups() returns (created: seq<Group>)
      requires Valid()
      modifies this`groups, this`nextGroupId
      ensures Valid()
      ensures created == [Group(old(nextGroupId), "admin"), Group(old(nextGroupId) + 1, "user")]
      ensures groups == old(groups) + created && nextGroupId == old(nextGroupId) + 2
    {
      created := [];
      var names := ["admin", "user"];
      var i := 0;
      while i < |names|
        invariant 0 <= i <= |names|
        invariant Valid()
        invariant |created| == i
        invariant forall k | 0 <= k < i :: created[k] == Group(old(nextGroupId) + k, names[k])
        invariant groups == old(groups) + created && nextGroupId == old(nextGroupId) + i
      {
        var g := CreateGroup(names[i]);
        created := created + [g];
        i := i + 1;
      }
    }

    /** The second seeding step: permissions admin and api, collected in creation order. */
    method AddPermissions() returns (created: seq<Permission>)
      requires Valid()
      modifies this`permission, this`nextPermissionId
      ensures Valid()
      ensures created == [Permission(old(nextPermissionId), "admin"), Permission(old(nextPermissionId) + 1, "api")]
      ensures permission == old(permission) + created && nextPermissionId == old(nextPermissionId) + 2
    {
      created := [];
      var names := ["admin", "api"];
      var i := 0;
      while i < |names|
        invariant 0 <= i <= |names|
        invariant Valid()
        invariant |created| == i
        invariant forall k | 0 <= k < i :: created[k] == Permission(old(nextPermissionId) + k, names[k])
        invariant permission == old(permission) + created && nextPermissionId == old(nextPermissionId) + i
      {
        var p := CreatePermission(names[i]);
        created := created + [p];
        i := i + 1;
      }
    }

    /** The third seeding step: edges admin->admin, admin->api and user->api. */
    method MapGroups(g: seq<Group>, p: seq<Permission>)
      requires Valid()
      requires |g| == 2 && |p| == 2
      modifies this`groupMap, this`nextGroupMapId
      ensures Valid()
      ensures groupMap == old(groupMap) + [
        GroupMap(old(nextGroupMapId), g[0].e_id, p[0].e_id),
        GroupMap(old(nextGroupMapId) + 1, g[0].e_id, p[1].e_id),
        GroupMap(old(nextGroupMapId) + 2, g[1].e_id, p[1].e_id)]
      ensures nextGroupMapId == old(nextGroupMapId) + 3
    {
      var edges := [(g[0].e_id, p[0].e_id), (g[0].e_id, p[1].e_id), (g[1].e_id, p[1].e_id)];
      var i := 0;
      while i < |edges|
        invariant 0 <= i <= |edges|
        invariant Valid()
        invariant groupMap == old(groupMap) + seq(i, k requires 0 <= k < i => GroupMap(old(nextGroupMapId) + k, edges[k].0, edges[k].1))
        invariant nextGroupMapId == old(nextGroupMapId) + i
      {
        var _ := CreateGroupMap(edges[i].0, edges[i].1);
        i := i + 1;
      }
    }

    // -------------------------------------------------------------------------
    // The resolvers as the loops the source runs; none of them writes the store.

    /** getUserGroups: query the user's rows, then look each group up, skipping misses. */
    method GetUserGroups(userId: nat) returns (out: seq<Group>)
      ensures out == UserGroups(Snapshot(), userId)
    {
      var rows := RowsOfUser(userMap, userId);
      out := [];
      var i := 0;
      while i < |rows|
        invariant 0 <= i <= |rows|
        invariant out == GroupsOf(rows[..i], groups)
      {
        var group := GroupById(groups, rows[i].group_id);
        if group.Some? {
          out := out + [group.value];
        }
        assert rows[..i + 1][..i] == rows[..i];
        i := i + 1;
      }
      assert rows[..i] == rows;
    }

    /** getGroupPermissions: query the group's edges, look each permission up, drop the nulls. */
    method GetGroupPermissions(groupId: nat) returns (out: seq<Permission>)
      ensures out == GroupPermissions(Snapshot(), groupId)
    {
      var maps := RowsOfGroup(groupMap, groupId);
      out := [];
      var i := 0;
      while i < |maps|
        invariant 0 <= i <= |maps|
        invariant out == PermissionsOf(maps[..i], permission)
      {
        var found := PermissionById(permission, maps[i].permission);
        if found.Some? {
          out := out + [found.value];
        }
        assert maps[..i + 1][..i] == maps[..i];
        i := i + 1;
      }
      assert maps[..i] == maps;
    }

    /** getUserPermissionsById: add every permission of every group of the user to a set. */
    method GetUserPermissionsById(userId: nat) returns (out: seq<Permission>)
      ensures out == UserPermissions(Snapshot(), userId)
    {
      var premSet: seq<Permission> := [];
      var userGroups := GetUserGroups(userId);
      var i := 0;
      while i < |userGroups|
        invariant 0 <= i <= |userGroups|
        invariant premSet == PermissionsOfGroups(Snapshot(), userGroups[..i])
      {
        var perms := GetGroupPermissions(userGroups[i].e_id);
        premSet := AddEach(premSet, perms);
        assert userGroups[..i + 1][..i] == userGroups[..i];
        i := i + 1;
      }
      assert userGroups[..i] == userGroups;
      out := premSet;
    }

    /** `forEach((perm) => premSet.add(perm))`: one group's permissions added in order. */
    method AddEach(premSet: seq<Permission>, perms: seq<Permission>) returns (r: seq<Permission>)
      ensures r == AddAll(premSet, perms)
    {
      r := premSet;
      var j := 0;
      while j < |perms|
        invariant 0 <= j <= |perms|
        invariant r == AddAll(premSet, perms[..j])
      {
        r := AddUnique(r, perms[j]);
        assert perms[..j + 1][..j] == perms[..j];
        j := j + 1;
      }
      assert perms[..j] == perms;
    }
  }
}
