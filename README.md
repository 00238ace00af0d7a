# bundle-simple-auth: the access-control core in Dafny

This project models the role-based access control of GrandlineX's
`bundle-simple-auth` module and proves properties of the model.

**The store.** An in-memory store has five tables:
- users (`AuthUser`)
- groups
- permissions
- group → permission edges (`GroupMap`)
- user → group edges (`UserMap`)

**Resolvers.** These read the store and never write it:
- `getUserGroups`
- `getGroupPermissions`
- `getUserPermissionsById`
- `getUserByName`

**Seeding.** `initPrefabDB` fills an empty store with:
- the groups `admin` and `user`;
- the permissions `admin` and `api`;
- the edges admin→admin, admin→api and user→api;
- the user `admin`, with its edge to the admin group.

**The authentication provider.** It finds the bearer credential:
- first in the `Authorization` header;
- then in the `glxauth` query parameter;
- then in the `glxauth` cookie.

It answers `isAllowed`, `authorizeToken` and `validateAcces`.

**The four account actions:**
- create user
- delete user
- list users
- list the caller's own groups

Modules, one per file:

| file | module | models |
|---|---|---|
| `entities.dfy` | `Entities` | the five record kinds, and `Tables` (the content of the store) |
| `queries.dfy` | `Queries` | the lookups and the three resolvers, as functions of `Tables` |
| `store.dfy` | `Store` | class `AuthDb`: one `seq` field and one id counter per table; the writes; `initPrefabDB`; the resolvers as loops proved equal to the functions |
| `strings.dfy` | `Strings` | `split`, `trim` and `startsWith` as the credential parse uses them |
| `auth_provider.dfy` | `AuthProvider` | credential extraction and the permission decisions |
| `prefab.dfy` | `Prefab` | what the seeded configuration grants |
| `api_action.dfy` and the four `*_action.dfy` | `ApiAction`, `CreateUserAction`, `DeleteUserAction`, `ListUserAction`, `ListUserGroupsAction` | the handlers |
| `scenarios.dfy` | `Scenarios` | bootstrap, create, list and delete, chained |
| `kernel.dfy`, `wrappers.dfy` | `Kernel`, `Wrappers` | the crypto client as two functions; `Option` |

**How each part is modelled:**
- **Writes change state.** `initPrefabDB` and the store writes are methods of the class `AuthDb`. The create and delete actions are module-level methods that take an `AuthDb` and change it through those writes. Each method states the exact new content of every table it touches. Each also keeps the store invariant `Valid()`:
  - user ids increase and stay below the next id;
  - user names are unique;
  - `UserMap` ids increase.
- **The readers are pure functions.** The resolvers, the authentication provider and the two list actions are functions of a snapshot of the tables.
- **The resolver loops.** The three `AuthDb` resolver methods keep the source's loops. Each is proved equal to its function.
- **Numbering.** Every table numbers its records 1, 2, 3, … independently. The integration test relies on this: it asks for group 1 and user 1 and expects the seeded admin group and user.

## Behaviour worth noting

- **Default group.** The code links the new user to group id `2` without a lookup (`src/action/CreateUserAction.ts:84-89`). The model does the same. `Prefab.GroupTwoIsUserGroup` proves that id 2 is the seeded "user" group exactly when groups are numbered from 1.
- **Failed user write.** When the user record is not written, the action answers 504 (`src/action/CreateUserAction.ts:95-97`). A failed edge write answers 500 (`src/action/CreateUserAction.ts:93`).
- **Scheme keyword.** The header's scheme word is not checked (`src/auth/AuthProvider.ts:43-45`): the token is the second space-separated field of any `Authorization` header. `AuthProvider.SchemeNotChecked` proves this.
- **Empty header.** An empty header yields the empty token, not "no token".
- **Cookie parse.** The cookie parse is looser than section 4.2.1 of RFC 6265, where cookie pairs are separated by `"; "`. After the split on `;` the crumbs are not trimmed. So a `glxauth=` crumb that follows another crumb and a space is not found. `AuthProvider.CookieAfterSpaceMissed` proves this for `a=b; glxauth=<token>`.
- **Duplicate permissions.** The code removes them with a JavaScript `Set` of records, which compares identity. The model compares records by id. The decisions compare by name, so they do not depend on this choice.
- **Delete filter.** Delete-user asks the store for `getObjList({ user_id })` (`src/action/DeleteUserAction.ts:75-77`). The resolvers ask for `getObjList({ search: { user_id } })` (`src/database/AuthDb.ts:119-121`). The model gives both the intended meaning: the rows whose `user_id` is the target's id. The predicate `Queries.SelectsUser` states this assumption. `DeleteUserAction.OtherUsersUnaffected` is proved under it.

## Model

| member | source | states |
|---|---|---|
| Queries.GroupById | src/database/AuthDb.ts:123 | `groups.getObjById`: a result is a stored group with that id; null exactly when no group has that id |
| Queries.PermissionById | src/database/AuthDb.ts:100 | `permission.getObjById`: a result is a stored permission with that id; null exactly when none has that id |
| Queries.UserByName | src/database/AuthDb.ts:131-134 | getUserByName: a result is a stored user of that name; null exactly when no user has that name |
| Queries.RowsOfUser | src/database/AuthDb.ts:119-121 | the user_id filter keeps exactly the rows of that user, in table order, and never more rows than the table has; `RowsOfUserSnoc` gives its step on one more row |
| Queries.RowsNotOfUser | src/action/DeleteUserAction.ts:75-81 | what deleting a user's rows leaves: exactly the rows of other users |
| Queries.RowsOfGroup | src/database/AuthDb.ts:97 | the group_id filter keeps exactly the edges of that group, in table order; `RowsOfGroupSnoc` gives its step on one more edge |
| Queries.GroupsOf | src/database/AuthDb.ts:122-127 | the loop of getUserGroups: at most one group per row, and only stored groups; `GroupsOfSnoc` gives its step, where an edge whose group exists adds that group at the end and a dangling edge adds nothing |
| Queries.UserGroups | src/database/AuthDb.ts:116-129 | getUserGroups(u): at most one group per UserMap row of u, and only stored groups |
| Queries.PermissionsOf | src/database/AuthDb.ts:99-102 | the loop and null filter of getGroupPermissions: at most one permission per edge, and only stored permissions; `PermissionsOfSnoc` gives its step, where an unresolved id is dropped |
| Queries.GroupPermissions | src/database/AuthDb.ts:96-103 | getGroupPermissions(g): at most one permission per edge of g, and only stored permissions |
| Queries.GroupsOfMembers | src/database/AuthDb.ts:122-127 | a group is listed exactly when some row's group_id resolves to it |
| Queries.GroupsOfAppend | src/database/AuthDb.ts:122-127 | resolution keeps row order: resolving two blocks of rows gives the two results concatenated |
| Queries.UserGroupsMembers | src/database/AuthDb.ts:116-129 | getUserGroups(u) lists exactly the groups named by u's UserMap rows; a dangling edge is dropped without error |
| Queries.PermissionsOfMembers | src/database/AuthDb.ts:99-102 | a permission is listed exactly when some edge's permission id resolves to it |
| Queries.GroupPermissionsMembers | src/database/AuthDb.ts:96-103 | getGroupPermissions(g) lists exactly the permissions named by g's edges; an unresolved id is dropped |
| Queries.AddUnique | src/database/AuthDb.ts:110 | `premSet.add(perm)`: the set only grows, by at most the one record, and afterwards holds a record of that id |
| Queries.AddAll | src/database/AuthDb.ts:109-111 | adding a group's permissions one by one: the set only grows, by at most one record per permission, and gains nothing else; `AddAllSnoc` gives its step |
| Queries.PermissionsOfGroups | src/database/AuthDb.ts:107-113 | the outer loop over the groups: the set holds only stored permissions; `PermissionsOfGroupsSnoc` gives its step over one more group |
| Queries.UserPermissions | src/database/AuthDb.ts:105-114 | getUserPermissionsById(u): only stored permissions, and none for a user without groups |
| Queries.PermissionsOfGroupsFrame | src/database/AuthDb.ts:96-114 | only the GroupMap and Permission tables decide the permissions of a list of groups |
| Queries.AddAllDistinct | src/database/AuthDb.ts:106-113 | adding to a set of distinct ids keeps the ids distinct |
| Queries.AddAllMembers | src/database/AuthDb.ts:106-113 | after adding `ps` to `acc`, a record is present exactly when it was in `acc` or in `ps`, for records as the store resolves them |
| Queries.ResolvedGroupPermissions | src/database/AuthDb.ts:96-103 | every permission getGroupPermissions returns is the record its id resolves to |
| Queries.PermissionsOfGroupsProps | src/database/AuthDb.ts:105-114 | the permission set of a list of groups has distinct ids and is exactly the union of the groups' permissions |
| Queries.UserPermissionsDistinct | src/database/AuthDb.ts:105-114 | getUserPermissionsById lists no id, hence no permission, twice |
| Queries.UserPermissionsIsUnion | src/database/AuthDb.ts:105-114 | a permission is in getUserPermissionsById(u) exactly when one of getUserGroups(u) grants it |
| Queries.RowsOfUserAfterDelete | src/action/DeleteUserAction.ts:75-81 | after a user's rows are deleted, that user selects no row and every other user selects the same rows as before |
| Queries.NoRowsNothingResolved | src/database/AuthDb.ts:105-129 | a user id with no UserMap row, including an unknown id, has no groups and no permissions, and this is not an error |
| Queries.NoRowSelected | src/database/AuthDb.ts:119-121 | with no row of that user, the filter returns nothing |
| Store.UsersWithout | src/action/DeleteUserAction.ts:83 | `authUser.delete(id)` keeps exactly the users with another id |
| Store.RowsWithout | src/action/DeleteUserAction.ts:79-81 | `userMap.delete` of a set of ids keeps exactly the rows whose id is not in the set |
| Store.UsersWithoutWellFormed | src/action/DeleteUserAction.ts:83 | deleting a user keeps ids increasing and names unique |
| Store.RowsWithoutWellFormed | src/action/DeleteUserAction.ts:79-81 | deleting rows keeps ids increasing and below the next id |
| Store.RowsWithoutNothing | src/action/DeleteUserAction.ts:79-81 | deleting no id changes nothing |
| Store.RowsWithoutStep | src/action/DeleteUserAction.ts:79-81 | deleting ids one at a time is deleting them all at once |
| Store.RowsWithoutAgree | src/action/DeleteUserAction.ts:79-81 | only the ids that occur in the table matter to a deletion |
| Store.DeleteSelectedRows | src/action/DeleteUserAction.ts:75-81 | deleting by id every row the user_id query returned removes exactly that user's rows, keeping the others in order |
| Store.UniqueNameLookup | src/database/entity/AuthUser.ts:8-12 | with the unique user_name column, a stored user is what a lookup of their name returns |
| Store.OtherUsersKept | src/action/DeleteUserAction.ts:83 | deleting a user by id leaves the lookup of every other name unchanged |
| Store.DeletedNameGone | src/action/DeleteUserAction.ts:67-83 | once the user a name resolves to is deleted, the name no longer resolves |
| Store.AuthDb.constructor | src/database/AuthDb.ts:25-33 | a new store has five empty tables, each numbering from 1 |
| Store.AuthDb.CreateGroup | src/database/AuthDb.ts:48 | `groups.createObject` appends the group under the next id and returns it |
| Store.AuthDb.CreatePermission | src/database/AuthDb.ts:57 | `permission.createObject` appends under the next id |
| Store.AuthDb.CreateGroupMap | src/database/AuthDb.ts:76 | `groupMap.createObject` appends under the next id |
| Store.AuthDb.CreateAuthUser | src/action/CreateUserAction.ts:75-82 | `authUser.createObject` returns null and changes nothing when the name is taken; otherwise it appends the user under the next id |
| Store.AuthDb.CreateUserMap | src/action/CreateUserAction.ts:84-89 | `userMap.createObject` appends the edge under the next id when the store accepts it; otherwise it returns null and changes nothing |
| Store.AuthDb.DeleteUserMap | src/action/DeleteUserAction.ts:80 | removes the row with that id and keeps the invariant |
| Store.AuthDb.DeleteAuthUser | src/action/DeleteUserAction.ts:83 | removes the user with that id and keeps the invariant |
| Store.AuthDb.InitPrefabDB | src/database/AuthDb.ts:35-94 | an empty store ends with exactly the seeded tables: groups admin and user, permissions admin and api, edges admin→admin, admin→api and user→api, user admin (not disabled, password hash(seed, SERVER_PASSWORD)) and its edge to the admin group. The ids come from the previous steps, and every counter advances by the number of records written |
| Store.AuthDb.SeedAccessRules | src/database/AuthDb.ts:42-77 | the group, permission and edge loops append exactly the seeded groups, permissions and group edges under consecutive ids, and return the admin group that the admin's edge names |
| Store.AuthDb.SeedAdmin | src/database/AuthDb.ts:79-93 | in a store without users or user edges, the user admin (hash, seed, creation time, not disabled) is created under the next id and linked to the admin group under the next edge id |
| Store.AuthDb.AddGroups | src/database/AuthDb.ts:42-49 | the group loop creates admin, then user, under consecutive ids, and returns them in that order |
| Store.AuthDb.AddPermissions | src/database/AuthDb.ts:51-58 | the permission loop creates admin, then api, under consecutive ids |
| Store.AuthDb.MapGroups | src/database/AuthDb.ts:60-77 | the edge loop creates admin→admin, admin→api and user→api, in that order |
| Store.AuthDb.GetUserGroups | src/database/AuthDb.ts:116-129 | the getUserGroups loop computes `Queries.UserGroups` of the current tables |
| Store.AuthDb.GetGroupPermissions | src/database/AuthDb.ts:96-103 | the getGroupPermissions loop computes `Queries.GroupPermissions` |
| Store.AuthDb.GetUserPermissionsById | src/database/AuthDb.ts:105-114 | the nested premSet loop computes `Queries.UserPermissions` |
| Store.AuthDb.AddEach | src/database/AuthDb.ts:109-111 | the inner `forEach` loop computes `Queries.AddAll`: the set after adding one group's permissions in order |
| Strings.IndexOf | src/auth/AuthProvider.ts:45 | the position of the first occurrence of a character |
| Strings.Split | src/auth/AuthProvider.ts:45 | `split(sep)`: at least one piece; no piece contains sep; more than one piece exactly when sep occurs; the first piece is the text before the first sep |
| Strings.JoinSplit | src/auth/AuthProvider.ts:50 | splitting loses nothing: joining the pieces gives the string back |
| Strings.SplitJoin | src/auth/AuthProvider.ts:50 | any sep-free pieces are what splitting their join gives |
| Strings.SplitPair | src/auth/AuthProvider.ts:52 | `a + sep + b`, with a and b free of sep, splits into exactly a and b |
| Strings.TrimStart | src/auth/AuthProvider.ts:49 | removes exactly the leading whitespace |
| Strings.TrimEnd | src/auth/AuthProvider.ts:49 | removes exactly the trailing whitespace |
| Strings.Trim | src/auth/AuthProvider.ts:49 | `trim()`: the result has no whitespace at either end, and a string without such whitespace is unchanged |
| Strings.TrimIsInfix | src/auth/AuthProvider.ts:49 | trim removes only whitespace, and only at the two ends |
| AuthProvider.HeaderToken | src/auth/AuthProvider.ts:43-45 | an empty header gives the token ""; a header without a space gives no token; otherwise the token is the space-free word after the first space |
| AuthProvider.SchemeNotChecked | src/auth/AuthProvider.ts:45 | `<any word> <token>` gives `token`: the Bearer keyword is never checked |
| AuthProvider.FindCrumb | src/auth/AuthProvider.ts:51 | `find(startsWith('glxauth='))`: the first crumb with that prefix, or none when no crumb has it |
| AuthProvider.CookieToken | src/auth/AuthProvider.ts:48-53 | a token exists exactly when some crumb of the trimmed cookie starts with `glxauth=`; it then contains no '=' and is the text after `glxauth=` in the first such crumb, running to the next '=' or the end of that crumb |
| AuthProvider.CrumbValue | src/auth/AuthProvider.ts:52 | a `glxauth=` crumb has a second '=' field, and that field is the text after the prefix, up to the next '=' or the end of the crumb |
| AuthProvider.CookieOfTestShape | tests/auth.test.ts:138-151 | the cookie the tests send, `glxauth=<token>;`, yields exactly `<token>` |
| AuthProvider.CookieAfterSpaceMissed | src/auth/AuthProvider.ts:49-51 | `a=b; glxauth=<token>` yields no token, because crumbs are not trimmed after the split (`NeitherCrumbMatches`: neither `a=b` nor a crumb that starts with a space starts with `glxauth=`) |
| AuthProvider.ExtractToken | src/auth/AuthProvider.ts:42-53 | precedence: a present Authorization header alone decides, even when it yields nothing; otherwise the query parameter; otherwise the cookie; otherwise no token |
| AuthProvider.HeaderOverridesRest | src/auth/AuthProvider.ts:43-47 | with an Authorization header, the query parameter and the cookie do not matter |
| AuthProvider.BearerTokenValidation | src/auth/AuthProvider.ts:40-63 | null without a token or without a crypto client; otherwise exactly the verifier's result on the token |
| AuthProvider.HasPermissionNamed | src/auth/AuthProvider.ts:74-76 | true exactly when some listed permission has that name |
| AuthProvider.IsAllowed | src/auth/AuthProvider.ts:65-81 | false for an unknown name; otherwise true exactly when one of the user's resolved permissions has that name |
| AuthProvider.IsAllowedIffGranted | src/auth/AuthProvider.ts:65-81 | isAllowed holds exactly when the user exists and one of their groups has an edge to a permission of that name |
| AuthProvider.AuthorizeToken | src/auth/AuthProvider.ts:14-34 | true exactly when the user exists, a crypto client is present, hash(seed, token) is nonempty and equals the stored password, and the user is allowed 'api' |
| AuthProvider.AuthorizeIgnoresRequestType | src/auth/AuthProvider.ts:14-34 | the request type never changes the answer |
| AuthProvider.ValidateAccess | src/auth/AuthProvider.ts:36-38 | validateAcces holds exactly when the token's user exists and has a permission named by the request type |
| AuthProvider.CallerHolds | src/action/CreateUserAction.ts:66-68 | the guard every action opens with, `if (data)` then `permissonValidation(data, p)`: it holds exactly when there is a verified token, its user exists, and one of that user's groups has an edge to a permission named p |
| Prefab.PrefabGroupGrants | src/database/AuthDb.ts:60-77 | after seeding, the admin group grants exactly [admin, api] and the user group exactly [api] |
| Prefab.PrefabAdminResolves | tests/auth.test.ts:175-180 | the seeded admin's groups are exactly [admin], and its permissions are exactly [admin, api] (two) |
| Prefab.PrefabAdminAllowed | src/database/AuthDb.ts:79-93 | the seeded admin is allowed exactly 'admin' and 'api' |
| Prefab.SeededAdminLogsIn | src/auth/AuthProvider.ts:14-34 | with a nonempty hash, authorizeToken('admin', SERVER_PASSWORD) holds after seeding |
| Prefab.NewUserGetsApiOnly | src/action/CreateUserAction.ts:75-89 | after seeding from 1, a user with one edge to group 2 is in the user group only, has only api, and is allowed 'api' but not 'admin' (`GroupTwoIsUserGroup`: id 2 is the seeded user group exactly when groups number from 1) |
| Prefab.NewUserPermissions | src/action/CreateUserAction.ts:84-89 | the new user's groups are [user] and its permissions are what that group grants |
| Prefab.AdminAfterNewUser | src/action/CreateUserAction.ts:75-89 | adding another user and that user's edge leaves the admin allowed exactly 'admin' and 'api' |
| CreateUserAction.Handler | src/action/CreateUserAction.ts:54-102 | missing or empty field: 400, no write; caller not allowed 'admin': 403, no write; name taken: 504, no write; otherwise the user (name, hash(seed, password), seed, not disabled) is appended, then either the edge to group 2 is appended (200) or the user stays without an edge (500); groups, permissions, group edges and their id counters never change |
| CreateUserAction.CreateUser | src/action/CreateUserAction.ts:70-97 | the writes of an allowed request: 504 and no change when the name is taken; otherwise the new user under the next id, then the edge to group 2 (200) or no edge (500) |
| CreateUserAction.NewUser | src/action/CreateUserAction.ts:75-82 | the record written: the given name under the given id, not disabled, with a password that is hash(its own seed, the given password), which is what authorizeToken later checks |
| ApiAction.Present | src/action/CreateUserAction.ts:62 | a body field passes `!req.body.x` exactly when it is present and nonempty |
| CreateUserAction.CreatedUserLogsIn | src/action/CreateUserAction.ts:70-89 | in the seeded store, a created user can log in with the password given at creation (nonempty hash) and is not allowed 'admin' |
| DeleteUserAction.Handler | src/action/DeleteUserAction.ts:50-90 | missing username: 400; caller not allowed 'admin' or name "admin": 403; unknown name: 500; in these cases nothing changes. Otherwise 200 with exactly the target's UserMap rows and then the target removed; nothing else changes and no id is consumed |
| DeleteUserAction.DeleteUser | src/action/DeleteUserAction.ts:75-83 | the edges of the user go first, then the user record |
| DeleteUserAction.DeleteEdges | src/action/DeleteUserAction.ts:75-81 | the row-by-row delete loop removes exactly the user's UserMap rows |
| DeleteUserAction.DeletedUserResolvesToNothing | src/action/DeleteUserAction.ts:75-83 | after a delete, the name no longer resolves and the deleted id has no groups and no permissions |
| DeleteUserAction.OtherUsersUnaffected | src/action/DeleteUserAction.ts:75-83 | every other user keeps their lookup and every isAllowed answer |
| DeleteUserAction.OtherIdUnaffected | src/action/DeleteUserAction.ts:75-81 | every other user id keeps its groups and its permissions |
| ListUserAction.Views | src/action/ListUserAction.ts:73-80 | one view per user, in store order, each the user's safe fields |
| ListUserAction.Handler | src/action/ListUserAction.ts:50-86 | 403 exactly when the caller is not allowed 'admin'; 500 exactly when allowed but no list exists; otherwise 200 with one entry per stored user, in order, with e_id, user_name, created and disabled |
| ListUserAction.LookupIgnoresSecrets | src/action/ListUserAction.ts:58-60 | lookups by name do not depend on passwords or seeds |
| ListUserAction.ReplyHidesSecrets | src/action/ListUserAction.ts:73-80 | changing only passwords and seeds leaves the reply identical: they never reach it |
| ListUserGroupsAction.Handler | src/action/ListUserGroupsAction.ts:49-74 | 200 exactly when the caller is allowed 'api', and then the body is getUserGroups of the user named in the token; otherwise 403 with no body |
| ListUserGroupsAction.SeededAdminSeesOneGroup | tests/auth.test.ts:153-167 | the seeded admin gets exactly one group, admin |
| Scenarios.Bootstrap | src/database/AuthDb.ts:35-94 | a new seeded store holds the seeded tables numbered from 1 |
| Scenarios.CreateAlice | src/action/CreateUserAction.ts:54-102 | the admin creating alice in the seeded store gets 200 and adds alice (id 2) and her edge to group 2 |
| Scenarios.ListWithAlice | tests/auth.test.ts:109-124 | the list then has two entries, the last being alice, not disabled |
| Scenarios.DeleteAlice | src/action/DeleteUserAction.ts:50-90 | the admin deleting alice gets 200, and the seeded tables are back |
| Scenarios.AliceRemoved | src/action/DeleteUserAction.ts:75-83 | deleting id 2 from the tables with alice leaves the seeded users and rows |
| Scenarios.ListAfterDelete | src/action/ListUserAction.ts:50-86 | the list of the seeded store has one entry |
| Scenarios.CreateListDelete | tests/auth.test.ts:72-124 | bootstrap, create, list (2 entries, alice last), delete, list (1 entry), each step answering 200 |
| Scenarios.ApiUserListsOwnGroupsOnly | src/action/ListUserGroupsAction.ts:57-68 | a user holding only 'api' is refused the user list (403) and gets exactly their own group list (200) |

## Left out

- HTTP framing is left out: Express requests and responses, headers, content types and response texts. Each handler is a status code plus a store change or a reply body.
- Body and query values are strings or absent. A `glxauth` query parameter given as an array, and non-string body fields, are not modelled.
- `async`/`await` and `Promise.all` are modelled as sequential execution. Concurrent interleavings of requests are left out.
- The `warn` log of `isAllowed` is dropped, because it has no effect on the result.
- The crypto client's `getHash`, `jwtVerifyAccessToken` and `generateSeed` are caller-chosen functions or parameters. The creation time `new Date()` is a parameter. The actions' `getCryptoClient() as CryptoClient` cast is taken to succeed; a missing client there, which throws in the source, is not modelled.
- `cc.permissonValidation(data, p)` lives in a library that is not part of this model. It is modelled as `isAllowed(data.username, p)`, the provider hook `validateAcces` reaches.
- Store internals:
  - each table's id counter starts at 1;
  - the unique constraint is enforced only on `user_name`;
  - the seeding writes and the group, permission and group-edge writes always succeed;
  - whether a UserMap write succeeds is a parameter;
  - the entity wrappers looked up by `getEntityWrapper` are taken to exist, so the `AUW?.`/`UMW?.` undefined branches of create-user are not modelled, while list-user's 500 branch is a parameter (`listed`).
- Store.AuthDb.InitPrefabDB: requires an empty store, as at module start. Seeding a store that already holds records is not modelled.
- The entity decorators (`@Column`, `@Entity`) and the `prop?.x || default` constructors are left out. `src/AuthModule.ts` (wiring) and `src/lib/DBTypes.ts` are not part of this model.
- The delete filter `getObjList({ user_id })` is given the intended meaning, `user_id == target`. A store library that ignored the unwrapped key, and so returned every row, is not modelled.
- ListUserGroupsAction.Handler: the source's two 403 paths are one branch. A caller allowed 'api' always has a user record in the same store, so its no-user path only ever answers 403.
