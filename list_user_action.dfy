/**
 * src/action/ListUserAction.ts (GET /user/list): for a caller allowed 'admin', every
 * stored user projected to the fields that are safe to send. The store is only read.
 */
module ListUserAction {
  import opened Wrappers
  import opened Entities
  import opened Kernel
  import opened Queries
  import opened AuthProvider
  import opened ApiAction

  /** The entry sent for a user: no password, no seed. */
  datatype UserView = UserView(e_id: nat, user_name: string, created: Date, disabled: bool)

  function View(u: AuthUser): UserView {
    UserView(u.e_id, u.user_name, u.created, u.disabled)
  }

  /** `list.map(...)`: one entry per user, in store order. */
  function Views(users: seq<AuthUser>): (r: seq<UserView>)
    ensures |r| == |users|
    ensures forall i | 0 <= i < |users| :: r[i] == View(users[i])
  {
    if users == [] then [] else Views(users[..|users| - 1]) + [View(users[|users| - 1])]
  }

  /**
   * The handler. `listed` is whether `AUW?.getObjList()` produced a list (the
   * AuthUser wrapper is registered). 403 unless the caller is allowed 'admin', then
   * 500 without a list, else 200 with one view per stored user.
   */
  function Handler(t: Tables, data: Option<JwtToken>, listed: bool): (r: Reply<seq<UserView>>)
    ensures r.status == 403 <==> !CallerHolds(t, data, "admin")
    ensures r.status == 500 <==> CallerHolds(t, data, "admin") && !listed
    ensures r.status == 200 <==> CallerHolds(t, data, "admin") && listed
    ensures r.status != 200 ==> r.body.None?
    ensures r.status == 200 ==>
      && r.body.Some? && |r.body.value| == |t.authUser|
      && forall i | 0 <= i < |t.authUser| ::
           r.body.value[i] == UserView(t.authUser[i].e_id, t.authUser[i].user_name, t.authUser[i].created, t.authUser[i].disabled)
  {
    if CallerHolds(t, data, "admin") then
      if !listed then Reply(500, None)
      else Reply(200, Some(Views(t.authUser)))
    else Reply(403, None)
  }

  /** Two user tables that differ at most in passwords and seeds. */
  predicate SameVisible(a: seq<AuthUser>, b: seq<AuthUser>) {
    |a| == |b| && forall i | 0 <= i < |a| :: View(a[i]) == View(b[i])
  }

  lemma {:induction false} LookupIgnoresSecrets(a: seq<AuthUser>, b: seq<AuthUser>, name: string)
    requires SameVisible(a, b)
    ensures UserByName(a, name).None? <==> UserByName(b, name).None?
    ensures UserByName(a, name).Some? ==> UserByName(a, name).value.e_id == UserByName(b, name).value.e_id
    decreases |a|
  {
    if a != [] {
      assert View(a[0]) == View(b[0]);
      assert SameVisible(a[1..], b[1..]) by {
        forall i | 0 <= i < |a| - 1 ensures View(a[1..][i]) == View(b[1..][i]) {
          assert View(a[i + 1]) == View(b[i + 1]);
        }
      }
      LookupIgnoresSecrets(a[1..], b[1..], name);
    }
  }

  /**
   * Passwords and seeds never reach the reply: replacing them, and nothing else, in
   * every stored user leaves the reply of the handler exactly as it was.
   */
  lemma ReplyHidesSecrets(t: Tables, users: seq<AuthUser>, data: Option<JwtToken>, listed: bool)
    requires SameVisible(t.authUser, users)
    ensures Handler(t.(authUser := users), data, listed) == Handler(t, data, listed)
  {
    var t' := t.(authUser := users);
    if data.Some? {
      LookupIgnoresSecrets(t.authUser, users, data.value.username);
      if UserByName(t.authUser, data.value.username).Some? {
        var id := UserByName(t.authUser, data.value.username).value.e_id;
        PermissionsOfGroupsFrame(t, t', UserGroups(t, id));
        assert UserPermissions(t', id) == UserPermissions(t, id);
      }
    }
    assert CallerHolds(t', data, "admin") == CallerHolds(t, data, "admin");
    assert Views(users) == Views(t.authUser);
  }
}
