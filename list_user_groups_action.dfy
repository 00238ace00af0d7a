/**
 * src/action/ListUserGroupsAction.ts (GET /user/groups): a caller allowed 'api' gets
 * the groups of the user named in their own token. The store is only read.
 */
module ListUserGroupsAction {
  import opened Wrappers
  import opened Entities
  import opened Kernel
  import opened Queries
  import opened Store
  import opened AuthProvider
  import opened ApiAction
  import opened Prefab

  /**
   * The handler: 200 with getUserGroups of the token's user exactly when the caller
   * is allowed 'api'; 403 otherwise. A caller allowed 'api' always has a user record,
   * so the source's separate no-user path ends in 403 as well.
   */
  function Handler(t: Tables, data: Option<JwtToken>): (r: Reply<seq<Group>>)
    ensures r.status == 200 <==> CallerHolds(t, data, "api")
    ensures r.status != 200 ==> r.status == 403 && r.body.None?
    ensures r.status == 200 ==>
      && UserByName(t.authUser, data.value.username).Some?
      && r.body == Some(UserGroups(t, UserByName(t.authUser, data.value.username).value.e_id))
  {
    if CallerHolds(t, data, "api") && UserByName(t.authUser, data.value.username).Some? then
      Reply(200, Some(UserGroups(t, UserByName(t.authUser, data.value.username).value.e_id)))
    else Reply(403, None)
  }

  /** The seeded admin sees exactly one group, admin. */
  lemma SeededAdminSeesOneGroup(g0: nat, p0: nat, m0: nat, u0: nat, um0: nat, password: string, seed: string, now: Date)
    ensures var t := PrefabTables(g0, p0, m0, u0, um0, password, seed, now);
      && Handler(t, Some(JwtToken("admin"))) == Reply(200, Some([Group(g0, "admin")]))
      && |Handler(t, Some(JwtToken("admin"))).body.value| == 1
  {
    var t := PrefabTables(g0, p0, m0, u0, um0, password, seed, now);
    PrefabAdminAllowed(g0, p0, m0, u0, um0, password, seed, now, "api");
    PrefabAdminResolves(g0, p0, m0, u0, um0, password, seed, now);
    assert UserByName(t.authUser, "admin") == Some(t.authUser[0]);
  }
}
