/**
 * src/action/DeleteUserAction.ts (POST /user/delete): check the body and the caller,
 * refuse the name "admin", look the user up, delete the user's UserMap rows one by
 * one, then the user record.
 */
module DeleteUserAction {
  import opened Wrappers
  import opened Entities
  import opened Kernel
  import opened Queries
  import opened Store
  import opened AuthProvider
  import opened ApiAction

  /** The user name no caller can delete. */
  const ProtectedName: string := "admin"

  /**
   * The handler. Statuses: 400 for a missing or empty username, 403 for a caller not
   * allowed 'admin' or for the name "admin", 500 for an unknown name, and 200 after
   * removing the target's UserMap rows (the rows selected by user_id) and then the
   * target's record. Groups, permissions and group edges are never touched, and no
   * id is consumed.
   */
  method Handler(db: AuthDb, data: Option<JwtToken>, body: Body) returns (status: nat)
    requires db.Valid()
    modifies db`userMap, db`authUser
    ensures db.Valid()
    ensures db.groups == old(db.groups) && db.permission == old(db.permission) && db.groupMap == old(db.groupMap)
    ensures db.Counters() == old(db.Counters())
    ensures !Present(body.username) ==> status == 400 && db.Snapshot() == old(db.Snapshot())
    ensures (Present(body.username) && (!CallerHolds(old(db.Snapshot()), data, "admin") || body.username.value == ProtectedName)) ==>
      status == 403 && db.Snapshot() == old(db.Snapshot())
    ensures (Present(body.username) && CallerHolds(old(db.Snapshot()), data, "admin") && body.username.value != ProtectedName
             && UserByName(old(db.authUser), body.username.value).None?) ==>
      status == 500 && db.Snapshot() == old(db.Snapshot())
    ensures (Present(body.username) && CallerHolds(old(db.Snapshot()), data, "admin") && body.username.value != ProtectedName
             && UserByName(old(db.authUser), body.username.value).Some?) ==>
      var target := UserByName(old(db.authUser), body.username.value).value;
      && status == 200
      && db.userMap == RowsNotOfUser(old(db.userMap), target.e_id)
      && db.authUser == UsersWithout(old(db.authUser), target.e_id)
  {
    if !Present(body.username) {
      return 400;
    }
    var userName := body.username.value;
    var allowed := CallerHolds(db.Snapshot(), data, "admin") && userName != ProtectedName;
    var authUser := UserByName(db.authUser, userName);
    if !allowed {
      status := 403;
    } else if authUser.None? {
      status := 500;
    } else {
      DeleteUser(db, authUser.value.e_id);
      status := 200;
    }
  }

  /** The success path: the user's UserMap rows first, then the user record. */
  method DeleteUser(db: AuthDb, userId: nat)
    requires db.Valid()
    modifies db`userMap, db`authUser
    ensures db.Valid()
    ensures db.userMap == RowsNotOfUser(old(db.userMap), userId)
    ensures db.authUser == UsersWithout(old(db.authUser), userId)
  {
    DeleteEdges(db, userId);
    db.DeleteAuthUser(userId);
  }

  /**
   * `getObjList({ user_id })`, then `userMap.delete(acc.e_id)` for each row returned:
   * afterwards exactly the rows of that user are gone, the others stay in order.
   */
  method DeleteEdges(db: AuthDb, userId: nat)
    requires db.Valid()
    modifies db`userMap
    ensures db.Valid()
    ensures db.userMap == RowsNotOfUser(old(db.userMap), userId)
  {
    var groupAccess := RowsOfUser(db.userMap, userId);
    RowsWithoutNothing(db.userMap);
    assert RowIds(groupAccess[..0]) == {};
    var i := 0;
    while i < |groupAccess|
      invariant 0 <= i <= |groupAccess|
      invariant db.Valid()
      invariant db.userMap == RowsWithout(old(db.userMap), RowIds(groupAccess[..i]))
    {
      RowIdsStep(groupAccess, i);
      RowsWithoutStep(old(db.userMap), RowIds(groupAccess[..i]), groupAccess[i].e_id);
      db.DeleteUserMap(groupAccess[i].e_id);
      i := i + 1;
    }
    assert groupAccess[..i] == groupAccess;
    DeleteSelectedRows(old(db.userMap), userId);
  }

  lemma RowIdsStep(rows: seq<UserMap>, i: nat)
    requires i < |rows|
    ensures RowIds(rows[..i + 1]) == RowIds(rows[..i]) + {rows[i].e_id}
  {
    assert rows[..i + 1] == rows[..i] + [rows[i]];
  }

  /** The tables a successful delete of `target` leaves. */
  function AfterDelete(t: Tables, target: AuthUser): Tables {
    t.(authUser := UsersWithout(t.authUser, target.e_id), userMap := RowsNotOfUser(t.userMap, target.e_id))
  }

  /**
   * After a successful delete, the name no longer resolves, and the deleted id has
   * no groups and no permissions.
   */
  lemma DeletedUserResolvesToNothing(t: Tables, nextId: nat, name: string)
    requires UsersWellFormed(t.authUser, nextId) && UserByName(t.authUser, name).Some?
    ensures var target := UserByName(t.authUser, name).value;
      && UserByName(AfterDelete(t, target).authUser, name).None?
      && UserGroups(AfterDelete(t, target), target.e_id) == []
      && UserPermissions(AfterDelete(t, target), target.e_id) == []
  {
    var target := UserByName(t.authUser, name).value;
    DeletedNameGone(t.authUser, nextId, name);
    RowsOfUserAfterDelete(t.userMap, target.e_id, target.e_id);
  }

  /**
   * Every other user keeps their record lookup, their groups, their permissions and
   * so every isAllowed answer.
   */
  lemma OtherUsersUnaffected(t: Tables, nextId: nat, name: string, other: string, p: string)
    requires UsersWellFormed(t.authUser, nextId) && UserByName(t.authUser, name).Some?
    requires other != name
    ensures var target := UserByName(t.authUser, name).value;
      && UserByName(AfterDelete(t, target).authUser, other) == UserByName(t.authUser, other)
      && IsAllowed(AfterDelete(t, target), other, p) == IsAllowed(t, other, p)
  {
    var target := UserByName(t.authUser, name).value;
    var t' := AfterDelete(t, target);
    if UserByName(t.authUser, other).Some? {
      var u := UserByName(t.authUser, other).value;
      OtherIdUnaffected(t, target, u.e_id);
    }
    OtherUsersKept(t.authUser, nextId, target.e_id, other);
  }

  /** A user id other than the deleted one keeps its groups and permissions. */
  lemma OtherIdUnaffected(t: Tables, target: AuthUser, userId: nat)
    requires userId != target.e_id
    ensures UserGroups(AfterDelete(t, target), userId) == UserGroups(t, userId)
    ensures UserPermissions(AfterDelete(t, target), userId) == UserPermissions(t, userId)
  {
    RowsOfUserAfterDelete(t.userMap, target.e_id, userId);
    PermissionsOfGroupsFrame(t, AfterDelete(t, target), UserGroups(t, userId));
  }
}
