/**
 * The read side of src/database/AuthDb.ts: the record lookups the store offers
 * (getObjById, findObj, getObjList with an equality filter) and the three resolvers
 * getUserGroups, getGroupPermissions and getUserPermissionsById, as functions of a
 * snapshot of the tables. None of them changes the store.
 */
module Queries {
  import opened Wrappers
  import opened Entities

  // ---------------------------------------------------------------------------
  // Store lookups

  /** `groups.getObjById(id)`: the group with that id, or null. */
  function GroupById(groups: seq<Group>, id: nat): (r: Option<Group>)
    ensures r.Some? ==> r.value in groups && r.value.e_id == id
    ensures r.None? <==> forall g | g in groups :: g.e_id != id
  {
    if groups == [] then None
    else if groups[0].e_id == id then Some(groups[0])
    else GroupById(groups[1..], id)
  }

  /** `permission.getObjById(id)`: the permission with that id, or null. */
  function PermissionById(permissions: seq<Permission>, id: nat): (r: Option<Permission>)
    ensures r.Some? ==> r.value in permissions && r.value.e_id == id
    ensures r.None? <==> forall p | p in permissions :: p.e_id != id
  {
    if permissions == [] then None
    else if permissions[0].e_id == id then Some(permissions[0])
    else PermissionById(permissions[1..], id)
  }

  /** getUserByName / `authUser.findObj({ user_name })`: the first user of that name, or null. */
  function UserByName(users: seq<AuthUser>, name: string): (r: Option<AuthUser>)
    ensures r.Some? ==> r.value in users && r.value.user_name == name
    ensures r.None? <==> forall u | u in users :: u.user_name != name
  {
    if users == [] then None
    else if users[0].user_name == name then Some(users[0])
    else UserByName(users[1..], name)
  }

  /** The equality filter `{ user_id: userId }` on a UserMap row. */
  predicate SelectsUser(row: UserMap, userId: nat) {
    row.user_id == userId
  }

  /** `userMap.getObjList({ search: { user_id } })`: the rows of one user, in row order. */
  function RowsOfUser(rows: seq<UserMap>, userId: nat): (r: seq<UserMap>)
    ensures forall m :: m in r <==> m in rows && SelectsUser(m, userId)
    ensures |r| <= |rows|
  {
    if rows == [] then []
    else
      var last := rows[|rows| - 1];
      RowsOfUser(rows[..|rows| - 1], userId) + (if SelectsUser(last, userId) then [last] else [])
  }

  /** The rows a delete of every row of `userId` leaves behind, in row order. */
  function RowsNotOfUser(rows: seq<UserMap>, userId: nat): (r: seq<UserMap>)
    ensures forall m :: m in r <==> m in rows && !SelectsUser(m, userId)
    ensures |r| <= |rows|
  {
    if rows == [] then []
    else
      var last := rows[|rows| - 1];
      RowsNotOfUser(rows[..|rows| - 1], userId) + (if SelectsUser(last, userId) then [] else [last])
  }

  /** `groupMap.getObjList({ search: { group_id } })`: the edges of one group, in row order. */
  function RowsOfGroup(rows: seq<GroupMap>, groupId: nat): (r: seq<GroupMap>)
    ensures forall m :: m in r <==> m in rows && m.group_id == groupId
    ensures |r| <= |rows|
  {
    if rows == [] then []
    else
      var last := rows[|rows| - 1];
      RowsOfGroup(rows[..|rows| - 1], groupId) + (if last.group_id == groupId then [last] else [])
  }

  // ---------------------------------------------------------------------------
  // Each resolver consumes its rows in order: one more row adds at most one entry at the end

  lemma RowsOfUserSnoc(rows: seq<UserMap>, last: UserMap, userId: nat)
    ensures RowsOfUser(rows + [last], userId) == RowsOfUser(rows, userId) + (if SelectsUser(last, userId) then [last] else [])
  {
    assert (rows + [last])[..|rows|] == rows;
  }

  lemma RowsOfGroupSnoc(rows: seq<GroupMap>, last: GroupMap, groupId: nat)
    ensures RowsOfGroup(rows + [last], groupId) == RowsOfGroup(rows, groupId) + (if last.group_id == groupId then [last] else [])
  {
    assert (rows + [last])[..|rows|] == rows;
  }

  // ---------------------------------------------------------------------------
  // getUserGroups

  /** The groups the rows point to, in row order; a row whose group is missing is skipped. */
  function GroupsOf(rows: seq<UserMap>, groups: seq<Group>): (r: seq<Group>)
    ensures |r| <= |rows|
    ensures forall g | g in r :: g in groups
  {
    if rows == [] then []
    else
      var found := GroupById(groups, rows[|rows| - 1].group_id);
      GroupsOf(rows[..|rows| - 1], groups) + (if found.Some? then [found.value] else [])
  }

  lemma GroupsOfSnoc(rows: seq<UserMap>, last: UserMap, groups: seq<Group>)
    ensures GroupsOf(rows + [last], groups) == GroupsOf(rows, groups) +
      (if GroupById(groups, last.group_id).Some? then [GroupById(groups, last.group_id).value] else [])
  {
    assert (rows + [last])[..|rows|] == rows;
  }

  /** getUserGroups(userId). */
  function UserGroups(t: Tables, userId: nat): (r: seq<Group>)
    ensures |r| <= |RowsOfUser(t.userMap, userId)|
    ensures forall g | g in r :: g in t.groups
  {
    GroupsOf(RowsOfUser(t.userMap, userId), t.groups)
  }

  lemma {:induction false} GroupsOfMembers(rows: seq<UserMap>, groups: seq<Group>, g: Group)
    ensures g in GroupsOf(rows, groups) <==>
      exists m :: m in rows && GroupById(groups, m.group_id) == Some(g)
    decreases |rows|
  {
    if rows != [] {
      var init, last := rows[..|rows| - 1], rows[|rows| - 1];
      GroupsOfMembers(init, groups, g);
      assert rows == init + [last];
    }
  }

  /** Resolution follows rows in order: resolving two blocks of rows concatenates the results. */
  lemma {:induction false} GroupsOfAppend(a: seq<UserMap>, b: seq<UserMap>, groups: seq<Group>)
    ensures GroupsOf(a + b, groups) == GroupsOf(a, groups) + GroupsOf(b, groups)
    decreases |b|
  {
    if b == [] {
      assert a + b == a;
    } else {
      var b', last := b[..|b| - 1], b[|b| - 1];
      GroupsOfAppend(a, b', groups);
      assert (a + b)[..|a + b| - 1] == a + b';
      assert (a + b)[|a + b| - 1] == last;
    }
  }

  /**
   * A group is in getUserGroups(userId) exactly when some UserMap row of that user
   * names it; rows naming a missing group contribute nothing and raise no error.
   */
  lemma UserGroupsMembers(t: Tables, userId: nat, g: Group)
    ensures g in UserGroups(t, userId) <==>
      exists m :: m in t.userMap && m.user_id == userId && GroupById(t.groups, m.group_id) == Some(g)
  {
    GroupsOfMembers(RowsOfUser(t.userMap, userId), t.groups, g);
  }

  // ---------------------------------------------------------------------------
  // getGroupPermissions

  /** The permissions the edges point to, in row order; an edge whose permission is missing is dropped. */
  function PermissionsOf(rows: seq<GroupMap>, permissions: seq<Permission>): (r: seq<Permission>)
    ensures |r| <= |rows|
    ensures forall p | p in r :: p in permissions
  {
    if rows == [] then []
    else
      var found := PermissionById(permissions, rows[|rows| - 1].permission);
      PermissionsOf(rows[..|rows| - 1], permissions) + (if found.Some? then [found.value] else [])
  }

  lemma PermissionsOfSnoc(rows: seq<GroupMap>, last: GroupMap, permissions: seq<Permission>)
    ensures PermissionsOf(rows + [last], permissions) == PermissionsOf(rows, permissions) +
      (if PermissionById(permissions, last.permission).Some? then [PermissionById(permissions, last.permission).value] else [])
  {
    assert (rows + [last])[..|rows|] == rows;
  }

  /** getGroupPermissions(groupId). */
  function GroupPermissions(t: Tables, groupId: nat): (r: seq<Permission>)
    ensures |r| <= |RowsOfGroup(t.groupMap, groupId)|
    ensures forall p | p in r :: p in t.permission
  {
    PermissionsOf(RowsOfGroup(t.groupMap, groupId), t.permission)
  }

  lemma {:induction false} PermissionsOfMembers(rows: seq<GroupMap>, permissions: seq<Permission>, p: Permission)
    ensures p in PermissionsOf(rows, permissions) <==>
      exists m :: m in rows && PermissionById(permissions, m.permission) == Some(p)
    decreases |rows|
  {
    if rows != [] {
      var init, last := rows[..|rows| - 1], rows[|rows| - 1];
      PermissionsOfMembers(init, permissions, p);
      assert rows == init + [last];
    }
  }

  /**
   * A permission is in getGroupPermissions(groupId) exactly when some GroupMap row of
   * that group names it; edges naming a missing permission are dropped.
   */
  lemma GroupPermissionsMembers(t: Tables, groupId: nat, p: Permission)
    ensures p in GroupPermissions(t, groupId) <==>
      exists m :: m in t.groupMap && m.group_id == groupId && PermissionById(t.permission, m.permission) == Some(p)
  {
    PermissionsOfMembers(RowsOfGroup(t.groupMap, groupId), t.permission, p);
  }

  // ---------------------------------------------------------------------------
  // getUserPermissionsById

  /** A permission as the store hands it out: the record its id resolves to. */
  predicate Resolved(permissions: seq<Permission>, p: Permission) {
    PermissionById(permissions, p.e_id) == Some(p)
  }

  predicate HasId(acc: seq<Permission>, id: nat) {
    exists q :: q in acc && q.e_id == id
  }

  /** `premSet.add(perm)`: a set of records, identity being the record id; insertion order is kept. */
  function AddUnique(acc: seq<Permission>, p: Permission): (r: seq<Permission>)
    ensures acc <= r && |r| <= |acc| + 1
    ensures HasId(r, p.e_id)
    ensures forall x | x in r :: x in acc || x == p
  {
    if HasId(acc, p.e_id) then acc
    else
      assert p in acc + [p];
      acc + [p]
  }

  /** Add each of `ps`, in order. */
  function AddAll(acc: seq<Permission>, ps: seq<Permission>): (r: seq<Permission>)
    ensures acc <= r && |r| <= |acc| + |ps|
    ensures forall x | x in r :: x in acc || x in ps
  {
    if ps == [] then acc else AddUnique(AddAll(acc, ps[..|ps| - 1]), ps[|ps| - 1])
  }

  lemma AddAllSnoc(acc: seq<Permission>, ps: seq<Permission>, p: Permission)
    ensures AddAll(acc, ps + [p]) == AddUnique(AddAll(acc, ps), p)
  {
    assert (ps + [p])[..|ps|] == ps;
  }

  /** The set built from the permissions of `gs`, group after group. */
  function PermissionsOfGroups(t: Tables, gs: seq<Group>): (r: seq<Permission>)
    ensures forall p | p in r :: p in t.permission
  {
    if gs == [] then []
    else AddAll(PermissionsOfGroups(t, gs[..|gs| - 1]), GroupPermissions(t, gs[|gs| - 1].e_id))
  }

  lemma PermissionsOfGroupsSnoc(t: Tables, gs: seq<Group>, g: Group)
    ensures PermissionsOfGroups(t, gs + [g]) == AddAll(PermissionsOfGroups(t, gs), GroupPermissions(t, g.e_id))
  {
    assert (gs + [g])[..|gs|] == gs;
  }

  /** Only the GroupMap and Permission tables matter to the permissions of a list of groups. */
  lemma {:induction false} PermissionsOfGroupsFrame(t: Tables, t': Tables, gs: seq<Group>)
    requires t'.groupMap == t.groupMap && t'.permission == t.permission
    ensures PermissionsOfGroups(t', gs) == PermissionsOfGroups(t, gs)
    decreases |gs|
  {
    if gs != [] {
      PermissionsOfGroupsFrame(t, t', gs[..|gs| - 1]);
      assert GroupPermissions(t', gs[|gs| - 1].e_id) == GroupPermissions(t, gs[|gs| - 1].e_id);
    }
  }

  /** getUserPermissionsById(userId): `Array.from(premSet)`. */
  function UserPermissions(t: Tables, userId: nat): (r: seq<Permission>)
    ensures forall p | p in r :: p in t.permission
    ensures UserGroups(t, userId) == [] ==> r == []
  {
    PermissionsOfGroups(t, UserGroups(t, userId))
  }

  /** No two entries share an id (so no entry occurs twice). */
  predicate DistinctIds(ps: seq<Permission>) {
    forall i, j | 0 <= i < j < |ps| :: ps[i].e_id != ps[j].e_id
  }

  lemma {:induction false} AddAllDistinct(acc: seq<Permission>, ps: seq<Permission>)
    requires DistinctIds(acc)
    ensures DistinctIds(AddAll(acc, ps))
    decreases |ps|
  {
    if ps != [] {
      var before := AddAll(acc, ps[..|ps| - 1]);
      AddAllDistinct(acc, ps[..|ps| - 1]);
      var p := ps[|ps| - 1];
      if !HasId(before, p.e_id) {
        forall i | 0 <= i < |before| ensures before[i].e_id != p.e_id {
          assert before[i] in before;
        }
      }
    }
  }

  lemma {:induction false} AddAllMembers(permissions: seq<Permission>, acc: seq<Permission>, ps: seq<Permission>, x: Permission)
    requires forall q | q in acc :: Resolved(permissions, q)
    requires forall q | q in ps :: Resolved(permissions, q)
    ensures x in AddAll(acc, ps) <==> x in acc || x in ps
    ensures forall q | q in AddAll(acc, ps) :: Resolved(permissions, q)
    decreases |ps|
  {
    if ps != [] {
      var init, p := ps[..|ps| - 1], ps[|ps| - 1];
      assert ps == init + [p];
      AddAllMembers(permissions, acc, init, x);
      var before := AddAll(acc, init);
      forall q | q in AddAll(acc, ps) ensures Resolved(permissions, q) {
        AddAllMembers(permissions, acc, init, q);
      }
      if HasId(before, p.e_id) {
        // the record already there with p's id is p itself: both are what the id resolves to
        var q :| q in before && q.e_id == p.e_id;
        AddAllMembers(permissions, acc, init, q);
        assert p in ps && Resolved(permissions, p) && Resolved(permissions, q);
      }
    }
  }

  lemma ResolvedGroupPermissions(t: Tables, groupId: nat)
    ensures forall p | p in GroupPermissions(t, groupId) :: Resolved(t.permission, p)
  {
    forall p | p in GroupPermissions(t, groupId) ensures Resolved(t.permission, p) {
      GroupPermissionsMembers(t, groupId, p);
    }
  }

  lemma {:induction false} PermissionsOfGroupsProps(t: Tables, gs: seq<Group>)
    ensures DistinctIds(PermissionsOfGroups(t, gs))
    ensures forall q | q in PermissionsOfGroups(t, gs) :: Resolved(t.permission, q)
    ensures forall p :: p in PermissionsOfGroups(t, gs) <==>
      exists g :: g in gs && p in GroupPermissions(t, g.e_id)
    decreases |gs|
  {
    if gs != [] {
      var init, g := gs[..|gs| - 1], gs[|gs| - 1];
      assert gs == init + [g];
      PermissionsOfGroupsProps(t, init);
      var before := PermissionsOfGroups(t, init);
      var ps := GroupPermissions(t, g.e_id);
      ResolvedGroupPermissions(t, g.e_id);
      AddAllDistinct(before, ps);
      forall p ensures p in AddAll(before, ps) <==> p in before || p in ps {
        AddAllMembers(t.permission, before, ps, p);
      }
      AddAllMembers(t.permission, before, ps, Permission(0, ""));
    }
  }

  /** getUserPermissionsById never lists the same permission twice. */
  lemma UserPermissionsDistinct(t: Tables, userId: nat)
    ensures DistinctIds(UserPermissions(t, userId))
    ensures forall i, j | 0 <= i < j < |UserPermissions(t, userId)| ::
      UserPermissions(t, userId)[i] != UserPermissions(t, userId)[j]
  {
    PermissionsOfGroupsProps(t, UserGroups(t, userId));
  }

  /**
   * getUserPermissionsById is the union, over the user's groups, of each group's
   * permissions: a permission is listed exactly when one of the user's groups grants it.
   */
  lemma UserPermissionsIsUnion(t: Tables, userId: nat, p: Permission)
    ensures p in UserPermissions(t, userId) <==>
      exists g :: g in UserGroups(t, userId) && p in GroupPermissions(t, g.e_id)
  {
    PermissionsOfGroupsProps(t, UserGroups(t, userId));
  }

  /**
   * After every row of `userId` is deleted, that user selects no row and every other
   * user selects exactly the rows they selected before.
   */
  lemma {:induction false} RowsOfUserAfterDelete(rows: seq<UserMap>, userId: nat, other: nat)
    ensures RowsOfUser(RowsNotOfUser(rows, userId), other) == if other == userId then [] else RowsOfUser(rows, other)
    decreases |rows|
  {
    if rows != [] {
      var init, last := rows[..|rows| - 1], rows[|rows| - 1];
      RowsOfUserAfterDelete(init, userId, other);
      var kept := RowsNotOfUser(init, userId);
      if SelectsUser(last, userId) {
        assert RowsNotOfUser(rows, userId) == kept + [];
        assert kept + [] == kept;
      } else {
        assert RowsNotOfUser(rows, userId) == kept + [last];
        RowsOfUserSnoc(kept, last, other);
      }
    }
  }

  /** A user id with no UserMap row (a nonexistent id included) has no groups and no permissions. */
  lemma NoRowsNothingResolved(t: Tables, userId: nat)
    requires forall m | m in t.userMap :: m.user_id != userId
    ensures UserGroups(t, userId) == []
    ensures UserPermissions(t, userId) == []
  {
    NoRowSelected(t.userMap, userId);
  }

  lemma {:induction false} NoRowSelected(rows: seq<UserMap>, userId: nat)
    requires forall m | m in rows :: m.user_id != userId
    ensures RowsOfUser(rows, userId) == []
    decreases |rows|
  {
    if rows != [] {
      NoRowSelected(rows[..|rows| - 1], userId);
      assert rows[|rows| - 1] in rows;
    }
  }
}
