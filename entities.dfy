/**
 * The five record kinds of the authentication database (the files under src/database/entity),
 * with the schema's own column names. `e_id` is the id the store assigns on creation.
 */
module Entities {

  /** The `created` timestamp; the model never inspects it. */
  datatype Date = Date(epochMillis: int)

  /** AuthUser: `user_name` is a unique column; `password` is hash(seed, plaintext). */
  datatype AuthUser = AuthUser(
    e_id: nat,
    user_name: string,
    password: string,
    seed: string,
    created: Date,
    disabled: bool)

  datatype Group = Group(e_id: nat, group_name: string)

  datatype Permission = Permission(e_id: nat, permission_name: string)

  /** Edge group -> permission; `permission` holds the permission's id. */
  datatype GroupMap = GroupMap(e_id: nat, group_id: nat, permission: nat)

  /** Edge user -> group. */
  datatype UserMap = UserMap(e_id: nat, user_id: nat, group_id: nat)

  /** The content of the store: one sequence per table, in insertion order. */
  datatype Tables = Tables(
    groups: seq<Group>,
    permission: seq<Permission>,
    groupMap: seq<GroupMap>,
    authUser: seq<AuthUser>,
    userMap: seq<UserMap>)
}
