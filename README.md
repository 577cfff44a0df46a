# Ncp.CleanDDD core, modelled in Dafny

Ncp.CleanDDD is an admin back-office template: a domain layer of aggregates (users with
their roles and organisation unit, roles with their permissions, a tree of organisation
units), command handlers that validate a request, load an aggregate and change it, query
services over the stored rows, an Excel batch import of users, the seeding of a fresh
database, the permission-definition catalogue, a desktop client's API and authentication
services, and a web front end's router guard.

This project models that core and proves properties of the model:

- `UserAggregate`, `RoleAggregate`, `OrganizationUnitAggregate` are classes whose methods
  update their fields in place, as the aggregates do. `Reconciliation` holds the keyed
  reconciliation that `User.UpdateRoles` and `Role.UpdateRolePermissions` both perform
  (remove what the target lacks, append what is new), with its loops proved against a
  specification function.
- `UserCommands`, `RoleCommands`, `OrganizationUnitCommands`, `OrderCommands` model the
  command handlers and their validators: every validation failure, every not-found and
  every duplicate-key failure is a `Reply` value (`Invalid` with the validator messages,
  `Failed` with the exception message, `Done` with the result).
- `UserQuery`, `OrganizationUnitQuery`, `OrganizationUnitTree`, `LogQuery`, `Enumerable`
  model the query services over the stored rows, including the tree the organisation
  query builds and the SQL text and parameters the log query sends. Names, e-mail
  addresses and `LIKE` filters are compared under the database's collation, a parameter
  (`Text.Collation`), since the server's default collation ignores case and accents.
- `BatchImport` models the upload gate, the row reader, the per-row validation and the
  user creation of the Excel import, with the sheet index the first pass starts at as a
  parameter (the index the endpoint uses and the corrected one, see Findings); `SeedDatabase` the seeding of roles, the unit chain
  and the two users; `PermissionDefinitions` the permission catalogue.
- `ApiClient`, `Authentication`, `RouterGuard` model the desktop client's request helper,
  its login state and permission checks, and the front end's navigation guard.
- `Wrappers`, `Text`, `Calendar` hold the option and result types, the string helpers
  (trim, split, join, decimal text) and the calendar arithmetic the age computation uses.

The store, the clock, password hashing, JSON (de)serialisation, URI escaping and the
database driver are not modelled as such: what they return is a parameter of the
operation that uses it.

## Model

| member | source | states |
|---|---|---|
| UserAggregate.UserRole.constructor | src/Ncp.CleanDDD.Domain/AggregatesModel/UserAggregate/UserRole.cs:18-22 | a held role carries the given role id and name and is not yet attached to a user |
| UserAggregate.UserRole.UpdateRoleInfo | src/Ncp.CleanDDD.Domain/AggregatesModel/UserAggregate/UserRole.cs:24-27 | the role's name becomes the new name; the id and owner are untouched (frame) |
| UserAggregate.CalculateAgeYears | src/Ncp.CleanDDD.Domain/AggregatesModel/UserAggregate/User.cs:126-138 | the age is the year difference, less one exactly when the birthday's month and day are still ahead of today's |
| UserAggregate.CalculateAgeNonNegative | src/Ncp.CleanDDD.Domain/AggregatesModel/UserAggregate/User.cs:126-138 | anyone born no later than today has an age of at least zero |
| UserAggregate.FirstRoleIndex | src/Ncp.CleanDDD.Domain/AggregatesModel/UserAggregate/User.cs:154 | `FirstOrDefault` by role id: none exactly when no held role has the id, otherwise the index of a role with that id |
| UserAggregate.User.constructor | src/Ncp.CleanDDD.Domain/AggregatesModel/UserAggregate/User.cs:69-86 | every profile field is stored as given, the age is computed from the birth date, the roles are held in the given order, the user is active, not deleted, with no unit, no tokens and no last login |
| UserAggregate.User.SoftDelete | src/Ncp.CleanDDD.Domain/AggregatesModel/UserAggregate/User.cs:90-93 | the user is marked deleted and nothing else changes; the deletion time keeps its old value |
| UserAggregate.User.PasswordReset | src/Ncp.CleanDDD.Domain/AggregatesModel/UserAggregate/User.cs:95-98 | only the password hash changes, to the given one |
| UserAggregate.User.SetUserRefreshToken | src/Ncp.CleanDDD.Domain/AggregatesModel/UserAggregate/User.cs:100-104 | exactly one token is appended to the stored tokens |
| UserAggregate.User.UpdateLastLoginTime | src/Ncp.CleanDDD.Domain/AggregatesModel/UserAggregate/User.cs:106-110 | the last login time and the update time are set, nothing else changes |
| UserAggregate.User.AssignOrganizationUnit | src/Ncp.CleanDDD.Domain/AggregatesModel/UserAggregate/User.cs:114-122 | a missing unit fails with "组织架构不能为空" and changes nothing; otherwise the single unit assignment is replaced |
| UserAggregate.User.UpdateUserInfo | src/Ncp.CleanDDD.Domain/AggregatesModel/UserAggregate/User.cs:140-150 | the seven profile fields are overwritten and the age is recomputed from the new birth date; roles, password and flags are untouched |
| UserAggregate.User.UpdateRoleInfo | src/Ncp.CleanDDD.Domain/AggregatesModel/UserAggregate/User.cs:152-156 | the first held role with the id is renamed, every other held role keeps its name; with no such role nothing changes |
| UserAggregate.User.UpdatePassword | src/Ncp.CleanDDD.Domain/AggregatesModel/UserAggregate/User.cs:158-167 | an empty hash changes nothing; any other hash is stored and the update time refreshed |
| UserAggregate.User.UpdateRoles | src/Ncp.CleanDDD.Domain/AggregatesModel/UserAggregate/User.cs:171-188 | a repeated role id in either list fails (`ToDictionary`) without change; otherwise the held roles become the reconciled list, whose ids are exactly the assigned ids, each once, keeping every held role whose id is still assigned and adding only assigned roles |
| UserAggregate.User.RemoveRoles | src/Ncp.CleanDDD.Domain/AggregatesModel/UserAggregate/User.cs:176-180 | the removal loop leaves exactly the held roles whose id is kept, in their order |
| UserAggregate.User.AddRoles | src/Ncp.CleanDDD.Domain/AggregatesModel/UserAggregate/User.cs:182-187 | the addition loop appends exactly the target roles whose id was not held, in target order |
| Reconciliation.Keep | src/Ncp.CleanDDD.Domain/AggregatesModel/UserAggregate/User.cs:176-180 | the elements kept are elements of the list whose key is wanted, and every such element is kept |
| Reconciliation.Drop | src/Ncp.CleanDDD.Domain/AggregatesModel/UserAggregate/User.cs:182-187 | the elements added are target elements whose key was not held, and every such element is added |
| Reconciliation.RemoveFirst | src/Ncp.CleanDDD.Domain/AggregatesModel/UserAggregate/User.cs:179 | `List.Remove`: one element shorter when the element is present, unchanged when it is absent, never a new element |
| Reconciliation.RemoveFirstAt | src/Ncp.CleanDDD.Domain/AggregatesModel/UserAggregate/User.cs:179 | removing an element that occurs first after a prefix without it takes out exactly that occurrence |
| Reconciliation.RemovalStep | src/Ncp.CleanDDD.Domain/AggregatesModel/UserAggregate/User.cs:177-180 | one pass of the removal loop turns the list after `i` steps into the list after `i + 1` steps |
| Reconciliation.KeysOfKeep | src/Ncp.CleanDDD.Domain/AggregatesModel/UserAggregate/User.cs:176 | the keys left after removal are the held keys that the target also has |
| Reconciliation.KeysOfDrop | src/Ncp.CleanDDD.Domain/AggregatesModel/UserAggregate/User.cs:182 | the keys added are the target keys that were not held |
| Reconciliation.ReconciledKeys | src/Ncp.CleanDDD.Domain/AggregatesModel/UserAggregate/User.cs:171-188 | after reconciliation the collection holds exactly the target's keys |
| Reconciliation.ReconciledMembers | src/Ncp.CleanDDD.Domain/AggregatesModel/UserAggregate/User.cs:171-188 | an element is in the result exactly when it is a held element whose key the target has, or a target element whose key was not held |
| Reconciliation.ReconciledDistinct | src/Ncp.CleanDDD.Domain/AggregatesModel/UserAggregate/User.cs:171-188 | reconciling two lists with distinct keys gives a list with distinct keys |
| Reconciliation.ReconciledIdempotent | src/Ncp.CleanDDD.Domain/AggregatesModel/UserAggregate/User.cs:171-188 | reconciling twice against the same target changes nothing the second time |
| Reconciliation.ReconciledSameKeys | src/Ncp.CleanDDD.Domain/AggregatesModel/UserAggregate/User.cs:171-188 | reconciling against a target with the same keys leaves the collection as it was |
| RoleAggregate.AnyWithCode | src/Ncp.CleanDDD.Domain/AggregatesModel/RoleAggregate/Role.cs:102 | `Any` by permission code: true exactly when some permission has the code |
| RoleAggregate.Role.constructor | src/Ncp.CleanDDD.Domain/AggregatesModel/RoleAggregate/Role.cs:39-46 | name, description and a copy of the permissions are stored; the role is active and not deleted and has raised no event |
| RoleAggregate.Role.UpdateRoleInfo | src/Ncp.CleanDDD.Domain/AggregatesModel/RoleAggregate/Role.cs:48-53 | name and description are replaced and exactly one role-info-changed event is recorded |
| RoleAggregate.Role.UpdateRolePermissions | src/Ncp.CleanDDD.Domain/AggregatesModel/RoleAggregate/Role.cs:55-73 | a repeated code in either list fails without change; otherwise the permissions become the reconciled list by code and exactly one permission-changed event is recorded |
| RoleAggregate.Role.RemovePermissions | src/Ncp.CleanDDD.Domain/AggregatesModel/RoleAggregate/Role.cs:60-64 | the removal loop leaves exactly the held permissions whose code is kept |
| RoleAggregate.Role.AddPermissions | src/Ncp.CleanDDD.Domain/AggregatesModel/RoleAggregate/Role.cs:66-70 | the addition loop appends exactly the requested permissions whose code was not held |
| RoleAggregate.Role.Deactivate | src/Ncp.CleanDDD.Domain/AggregatesModel/RoleAggregate/Role.cs:75-83 | an inactive role fails with "角色已经被停用"; an active one becomes inactive; either way it ends inactive |
| RoleAggregate.Role.Activate | src/Ncp.CleanDDD.Domain/AggregatesModel/RoleAggregate/Role.cs:85-93 | an active role fails with "角色已经是激活状态"; an inactive one becomes active |
| RoleAggregate.Role.SoftDelete | src/Ncp.CleanDDD.Domain/AggregatesModel/RoleAggregate/Role.cs:95-98 | the role is marked deleted and nothing else changes |
| RoleAggregate.Role.HasPermission | src/Ncp.CleanDDD.Domain/AggregatesModel/RoleAggregate/Role.cs:100-103 | true exactly when the code is among the role's permission codes |
| RoleAggregate.ReconciledPermissionCodes | src/Ncp.CleanDDD.Domain/AggregatesModel/RoleAggregate/Role.cs:55-73 | after a successful update the role holds a code exactly when the requested list does |
| OrganizationUnitAggregate.OrganizationUnit.constructor | src/Ncp.CleanDDD.Domain/AggregatesModel/OrganizationUnitAggregate/OrganizationUnit.cs:69-77 | the four info fields are stored, the unit is active, not deleted, without deletion time, children or events |
| OrganizationUnitAggregate.OrganizationUnit.UpdateInfo | src/Ncp.CleanDDD.Domain/AggregatesModel/OrganizationUnitAggregate/OrganizationUnit.cs:82-91 | exactly the four info fields and the update time change, and one info-changed event is recorded |
| OrganizationUnitAggregate.OrganizationUnit.Activate | src/Ncp.CleanDDD.Domain/AggregatesModel/OrganizationUnitAggregate/OrganizationUnit.cs:96-105 | an active unit fails with "组织架构已经是激活状态" and is unchanged; otherwise it becomes active with a fresh update time |
| OrganizationUnitAggregate.OrganizationUnit.Deactivate | src/Ncp.CleanDDD.Domain/AggregatesModel/OrganizationUnitAggregate/OrganizationUnit.cs:110-119 | an inactive unit fails with "组织架构已经被停用" and is unchanged; otherwise it becomes inactive with a fresh update time |
| OrganizationUnitAggregate.OrganizationUnit.Delete | src/Ncp.CleanDDD.Domain/AggregatesModel/OrganizationUnitAggregate/OrganizationUnit.cs:124-134 | a deleted unit fails with "组织架构已经被删除"; otherwise it is deleted with the deletion and update times set; it ends deleted either way |
| OrganizationUnitAggregate.OrganizationUnit.AddChild | src/Ncp.CleanDDD.Domain/AggregatesModel/OrganizationUnitAggregate/OrganizationUnit.cs:139-147 | a missing child fails; otherwise the child is appended, and the tree stays acyclic when the child does not contain the parent |
| OrganizationUnitAggregate.OrganizationUnit.RemoveChild | src/Ncp.CleanDDD.Domain/AggregatesModel/OrganizationUnitAggregate/OrganizationUnit.cs:152-160 | a missing child fails; otherwise its first occurrence is removed; the tree stays acyclic |
| OrganizationUnitAggregate.OrganizationUnit.Descendants | src/Ncp.CleanDDD.Domain/AggregatesModel/OrganizationUnitAggregate/OrganizationUnit.cs:165-174 | every unit below this one lies in the unit's footprint and is not the unit itself |
| OrganizationUnitAggregate.OrganizationUnit.DescendantsOfFirst | src/Ncp.CleanDDD.Domain/AggregatesModel/OrganizationUnitAggregate/OrganizationUnit.cs:165-174 | the first children, each followed by its descendants, all below this unit and none of them this unit |
| OrganizationUnitAggregate.OrganizationUnit.GetAllChildren | src/Ncp.CleanDDD.Domain/AggregatesModel/OrganizationUnitAggregate/OrganizationUnit.cs:165-174 | the recursive walk returns the pre-order list of all descendants: each child followed by its own descendants |
| OrganizationUnitAggregate.OrganizationUnit.GetPath | src/Ncp.CleanDDD.Domain/AggregatesModel/OrganizationUnitAggregate/OrganizationUnit.cs:179-182 | the path is the unit's own name, without its ancestors |
| UserCommands.ValidateDeleteUser | src/Ncp.CleanDDD.Web/Application/Commands/UserCommands/DeleteUserCommand.cs:10-16 | the delete command is refused exactly when its user id is missing |
| UserCommands.DeleteUser | src/Ncp.CleanDDD.Web/Application/Commands/UserCommands/DeleteUserCommand.cs:18-36 | a missing id is invalid, an unknown user fails with "用户不存在", a user named "admin" in any letter case fails with "不能删除管理员用户" and is untouched; any other user is marked deleted and nothing else changes |
| UserCommands.ValidateUpdateUser | src/Ncp.CleanDDD.Web/Application/Commands/UserCommands/UpdateUserCommand.cs:12-22 | the update command is refused exactly when the name is empty or blank |
| UserCommands.UpdateUser | src/Ncp.CleanDDD.Web/Application/Commands/UserCommands/UpdateUserCommand.cs:24-44 | an unknown user fails with its id in the message; otherwise the profile is overwritten, the age recomputed from the birth date, the hash replaced unless empty, and the unit assignment replaced by one for the command's unit; the user's id is returned |
| UserCommands.ValidatePasswordReset | src/Ncp.CleanDDD.Web/Application/Commands/UserCommands/PasswordResetCommand.cs:12-19 | refused exactly when the id is missing or the password blank, each rule giving its own message |
| UserCommands.PasswordReset | src/Ncp.CleanDDD.Web/Application/Commands/UserCommands/PasswordResetCommand.cs:21-29 | an unknown user fails with its id; otherwise only the hash changes, to the given password, and the user's id is returned |
| UserCommands.ValidateUpdateUserLoginTime | src/Ncp.CleanDDD.Web/Application/Commands/UserCommands/UpdateUserLoginTimeCommand.cs:11-18 | refused exactly when the id is missing or the login time is the default time, each rule giving its own message |
| UserCommands.UpdateUserLoginTime | src/Ncp.CleanDDD.Web/Application/Commands/UserCommands/UpdateUserLoginTimeCommand.cs:20-36 | an unknown user fails; otherwise the login time and update time are set and exactly one refresh token is appended |
| UserCommands.UpdateUserRoleInfo | src/Ncp.CleanDDD.Web/Application/Commands/UserCommands/UpdateUserRoleInfoCommand.cs:11-20 | an unknown user fails with "未找到用户，AdminUserId = …"; otherwise the first held role with the id is renamed and every other role keeps its name |
| UserCommands.ValidateUpdateUserRoles | src/Ncp.CleanDDD.Web/Application/Commands/UserCommands/UpdateUserRolesCommand.cs:12-18 | refused exactly when the user id is missing |
| UserCommands.AssignedRoleIds | src/Ncp.CleanDDD.Web/Application/Commands/UserCommands/UpdateUserRolesCommand.cs:30-33 | an id is assigned exactly when some assignment carries it |
| UserCommands.NewUserRoles | src/Ncp.CleanDDD.Web/Application/Commands/UserCommands/UpdateUserRolesCommand.cs:28-33 | the loop builds one new, unattached role per assignment, in order, with the assignment's id and name |
| UserCommands.AssignmentKeys | src/Ncp.CleanDDD.Web/Application/Commands/UserCommands/UpdateUserRolesCommand.cs:28-35 | the built roles carry exactly the assigned ids, and distinct ones exactly when the assignments' ids are distinct |
| UserCommands.UpdateUserRoles | src/Ncp.CleanDDD.Web/Application/Commands/UserCommands/UpdateUserRolesCommand.cs:20-37 | a missing id is invalid, an unknown user fails; a repeated role id fails without change; otherwise the user holds exactly the assigned ids, once each, keeps the held roles still assigned and gains new roles only from the assignments |
| UserCommands.AssignRoles | src/Ncp.CleanDDD.Web/Application/Commands/UserCommands/UpdateUserRolesCommand.cs:28-35 | for a found user: the duplicate-key failure leaves the roles as they were; success gives exactly the assigned ids, once each, old roles kept, new ones fresh and taken from the assignments |
| RoleCommands.PermissionsFromCodes | src/Ncp.CleanDDD.Web/Application/Commands/RoleCommands/UpdateRoleInfoCommand.cs:28 | one permission per requested code, in order, carrying that code |
| RoleCommands.PermissionsFromCodesKeys | src/Ncp.CleanDDD.Web/Application/Commands/RoleCommands/UpdateRoleInfoCommand.cs:28-29 | the requested permissions carry exactly the requested codes, and distinct ones exactly when no code is repeated |
| RoleCommands.ValidateUpdateRoleInfo | src/Ncp.CleanDDD.Web/Application/Commands/RoleCommands/UpdateRoleInfoCommand.cs:10-17 | refused exactly when the role id is missing or the name blank, each rule giving its own message |
| RoleCommands.UpdateRoleInfo | src/Ncp.CleanDDD.Web/Application/Commands/RoleCommands/UpdateRoleInfoCommand.cs:19-31 | a role that is missing or soft-deleted fails with its id; otherwise name and description are replaced, then a repeated code fails, else the permissions are reconciled with the requested codes |
| RoleCommands.UpdatedRoleCodes | src/Ncp.CleanDDD.Web/Application/Commands/RoleCommands/UpdateRoleInfoCommand.cs:28-29 | after a successful update the role holds a code exactly when the command lists it |
| OrganizationUnitCommands.ValidateCreate | src/Ncp.CleanDDD.Web/Application/Commands/OrganizationUnitCommands/CreateOrganizationUnitCommand.cs:11-25 | accepted exactly when the name is not blank, the description has at most 200 characters, no unit that is not deleted has the name under the database collation, and the parent is 0 or a visible unit; a taken name is reported with its message |
| OrganizationUnitCommands.CreateOrganizationUnit | src/Ncp.CleanDDD.Web/Application/Commands/OrganizationUnitCommands/CreateOrganizationUnitCommand.cs:27-40 | the name check runs under the database collation; a refused command stores nothing; otherwise exactly one new active unit with the command's fields is added under the new id, which is returned, and every stored unit stays as it was |
| OrganizationUnitCommands.ValidateUpdate | src/Ncp.CleanDDD.Web/Application/Commands/OrganizationUnitCommands/UpdateOrganizationUnitCommand.cs:11-25 | accepted exactly when the id is present, the name not blank, the description short enough, the parent 0 or visible, and the parent is not the unit itself |
| OrganizationUnitCommands.UpdateAcceptsAnyOtherParent | src/Ncp.CleanDDD.Web/Application/Commands/OrganizationUnitCommands/UpdateOrganizationUnitCommand.cs:18-23 | any existing unit other than the unit itself is accepted as its parent, a descendant included: the rules do not prevent cycles |
| OrganizationUnitCommands.UpdateOrganizationUnit | src/Ncp.CleanDDD.Web/Application/Commands/OrganizationUnitCommands/UpdateOrganizationUnitCommand.cs:27-40 | a refused command changes nothing; a missing or deleted unit fails with its id; otherwise exactly the four info fields and the update time change |
| OrganizationUnitCommands.DeleteOrganizationUnit | src/Ncp.CleanDDD.Web/Application/Commands/OrganizationUnitCommands/DeleteOrganizationUnitCommand.cs:10-33 | a missing id is invalid, a missing or deleted unit fails; otherwise the unit, root or not, is deleted with its times set; afterwards it is never visible |
| OrganizationUnitCommands.ValidateAssign | src/Ncp.CleanDDD.Web/Application/Commands/OrganizationUnitCommands/AssignUserOrganizationUnitCommand.cs:14-28 | accepted exactly when the user id is present and known, the unit id is present and visible, and the unit name is not blank |
| OrganizationUnitCommands.AssignUserOrganizationUnit | src/Ncp.CleanDDD.Web/Application/Commands/OrganizationUnitCommands/AssignUserOrganizationUnitCommand.cs:30-47 | a refused command changes nothing; otherwise the user's single assignment becomes one for the requested unit, its name and the user's id |
| OrganizationUnitCommands.ValidateRemove | src/Ncp.CleanDDD.Web/Application/Commands/OrganizationUnitCommands/RemoveUserOrganizationUnitCommand.cs:12-20 | accepted exactly when the user id is present and known |
| OrganizationUnitCommands.RemoveUserOrganizationUnit | src/Ncp.CleanDDD.Web/Application/Commands/OrganizationUnitCommands/RemoveUserOrganizationUnitCommand.cs:22-30 | the handler only looks the user up: a valid command succeeds and changes nothing |
| OrderCommands.Messages | src/Ncp.CleanDDD.Web/Application/Commands/CreateOrderCommand.cs:15-16 | one message per broken rule |
| OrderCommands.ValidateCreateOrder | src/Ncp.CleanDDD.Web/Application/Commands/CreateOrderCommand.cs:11-18 | accepted exactly when the name is not blank, at most 10 characters long, and the price is within 18 to 60; each broken rule is reported, with the length or price it saw |
| OrderCommands.CountNotValidated | src/Ncp.CleanDDD.Web/Application/Commands/CreateOrderCommand.cs:11-18 | the count is never validated: changing it never changes the errors |
| OrderCommands.CreateOrder | src/Ncp.CleanDDD.Web/Application/Commands/CreateOrderCommand.cs:20-30 | a refused command stores nothing and reports the messages; otherwise one order with the name and count (the price is not stored) is added under the new id, which is returned |
| OrderCommands.DeliverGoods | src/Ncp.CleanDDD.Web/Application/Commands/DeliverGoodsCommand.cs:10-19 | exactly one record, for the command's order, is added under a new id, and every stored record stays as it was |
| OrderCommands.OnOrderCreated | src/Ncp.CleanDDD.Web/Application/DomainEventHandlers/OrderCreatedDomainEventHandler.cs:10-13 | an order-created event adds exactly one delivery record, for that order |
| UserQuery.DoesUserExist | src/Ncp.CleanDDD.Web/Application/Queries/UserQuery.cs:71-75 | true exactly when some user row has a name equal to it under the database collation |
| UserQuery.DoesUserIdExist | src/Ncp.CleanDDD.Web/Application/Queries/UserQuery.cs:80-84 | true exactly when some user row has the id |
| UserQuery.DoesEmailExist | src/Ncp.CleanDDD.Web/Application/Queries/UserQuery.cs:86-90 | true exactly when some user row has an e-mail address equal to it under the database collation |
| UserQuery.WhereIfKeyword | src/Ncp.CleanDDD.Web/Application/Queries/UserQuery.cs:149-152 | a missing or blank keyword keeps every user; otherwise exactly the users whose name or e-mail contains it under the database collation remain |
| UserQuery.WhereIfStatus | src/Ncp.CleanDDD.Web/Application/Queries/UserQuery.cs:154-157 | a missing status keeps every user; otherwise exactly the users with that status remain |
| UserQuery.WhereIfOrganizationUnit | src/Ncp.CleanDDD.Web/Application/Queries/UserQuery.cs:159-162 | a missing unit keeps every user; otherwise exactly the users assigned to that unit remain, so unassigned users drop out |
| UserQuery.GetAllUsersSpec | src/Ncp.CleanDDD.Web/Application/Queries/UserQuery.cs:145-179 | the list holds exactly the users matching every supplied filter (keyword matched under the database collation), ordered by descending id |
| UserQuery.TokenOwners | src/Ncp.CleanDDD.Web/Application/Queries/UserQuery.cs:59-66 | an id is listed exactly when that user holds the token; the list is empty exactly when nobody holds it |
| UserQuery.Occurrences | src/Ncp.CleanDDD.Web/Application/Queries/UserQuery.cs:64 | a token is counted at least once exactly when it is in the list |
| UserQuery.GetUserIdByRefreshToken | src/Ncp.CleanDDD.Web/Application/Queries/UserQuery.cs:59-68 | the invalid-token error exactly when no user holds the token; success exactly when the token was issued once, and then the id is its holder's |
| UserQuery.SoleHolder | src/Ncp.CleanDDD.Web/Application/Queries/UserQuery.cs:59-68 | a token issued once to one user resolves to that user's id |
| UserQuery.IdsOf | src/Ncp.CleanDDD.Web/Application/Queries/UserQuery.cs:116 | one id per user, position by position |
| UserQuery.GetUserIdsByRoleId | src/Ncp.CleanDDD.Web/Application/Queries/UserQuery.cs:111-117 | an id is returned exactly when that user holds the role |
| OrganizationUnitQuery.Visible | src/Ncp.CleanDDD.Web/Application/Queries/OrganizationUnitQuery.cs:60 | the soft-delete filter keeps exactly the units not marked deleted |
| OrganizationUnitQuery.ExistsWithName | src/Ncp.CleanDDD.Web/Application/Queries/OrganizationUnitQuery.cs:38-42 | true exactly when some unit that is not deleted has a name equal to it under the database collation |
| OrganizationUnitQuery.ExistsWithId | src/Ncp.CleanDDD.Web/Application/Queries/OrganizationUnitQuery.cs:44-48 | true exactly when some unit that is not deleted has the id |
| OrganizationUnitQuery.WhereIfName | src/Ncp.CleanDDD.Web/Application/Queries/OrganizationUnitQuery.cs:61 | a missing or blank name keeps every unit; otherwise exactly the units whose name contains it under the database collation remain |
| OrganizationUnitQuery.WhereIfDescription | src/Ncp.CleanDDD.Web/Application/Queries/OrganizationUnitQuery.cs:62 | a missing or blank description keeps every unit; otherwise exactly the units whose description contains it under the database collation remain |
| OrganizationUnitQuery.WhereIfActive | src/Ncp.CleanDDD.Web/Application/Queries/OrganizationUnitQuery.cs:63 | a missing flag keeps every unit; otherwise exactly the units with that activity remain |
| OrganizationUnitQuery.WhereIfParent | src/Ncp.CleanDDD.Web/Application/Queries/OrganizationUnitQuery.cs:64 | a missing parent keeps every unit; otherwise exactly the units under that parent remain |
| OrganizationUnitQuery.GetAllOrganizationUnitsSpec | src/Ncp.CleanDDD.Web/Application/Queries/OrganizationUnitQuery.cs:58-68 | the list holds exactly the units that are not deleted and match every supplied filter (name and description matched under the database collation), ordered by sort order |
| OrganizationUnitTree.Roots | src/Ncp.CleanDDD.Web/Application/Queries/OrganizationUnitQuery.cs:79 | the top unit of each tree, one per tree, in order |
| OrganizationUnitTree.ChildrenOf | src/Ncp.CleanDDD.Web/Application/Queries/OrganizationUnitQuery.cs:125-127 | a unit is a candidate exactly when it belongs to the table and names the id as parent; the candidates are in sort order and none occurs more often than in the table |
| OrganizationUnitTree.DistinctRowsDistinctIds | src/Ncp.CleanDDD.Web/Application/Queries/OrganizationUnitQuery.cs:92 | once the ids are unique keys, two different units never share an id |
| OrganizationUnitTree.ChildExtendsChain | src/Ncp.CleanDDD.Web/Application/Queries/OrganizationUnitQuery.cs:125-134 | a child of the deepest unit of an ancestor chain extends the chain, so the recursion never revisits a unit |
| OrganizationUnitTree.BuildTreeDto | src/Ncp.CleanDDD.Web/Application/Queries/OrganizationUnitQuery.cs:117-145 | the tree's top is the unit; every unit in it comes from the table; every node's children are exactly the units naming it as parent that pass the activity filter, in sort order |
| OrganizationUnitTree.BuildChildren | src/Ncp.CleanDDD.Web/Application/Queries/OrganizationUnitQuery.cs:129-135 | the trees built are, in order, the candidates that pass the activity filter, each built out completely |
| OrganizationUnitTree.PrependTree | src/Ncp.CleanDDD.Web/Application/Queries/OrganizationUnitQuery.cs:129-135 | the facts the child loop keeps carry over to one more child tree |
| OrganizationUnitTree.RootsMembers | src/Ncp.CleanDDD.Web/Application/Queries/OrganizationUnitQuery.cs:79 | a unit is a top unit exactly when some tree of the forest starts with it |
| OrganizationUnitTree.BuildTreeStructure | src/Ncp.CleanDDD.Web/Application/Queries/OrganizationUnitQuery.cs:88-108 | a duplicate id fails (as the dictionary does); otherwise the roots are, counted with multiplicity, exactly the displayed roots of the table (parent 0, passing the activity filter), so one tree per displayed root; each tree is well built; the trees are in sort order; and no two units of the whole forest share an id, so no unit appears twice |
| OrganizationUnitTree.CollectRoots | src/Ncp.CleanDDD.Web/Application/Queries/OrganizationUnitQuery.cs:95-105 | the roots are the displayed roots of the table in table order, each built out; the trees hold no unit twice, together, and every unit lies below its own root |
| OrganizationUnitTree.CollectStep | src/Ncp.CleanDDD.Web/Application/Queries/OrganizationUnitQuery.cs:97-104 | one turn of the loop: a row starts a tree exactly when it is a displayed root, and the loop's facts carry over to the next row |
| OrganizationUnitTree.AppendSeparate | src/Ncp.CleanDDD.Web/Application/Queries/OrganizationUnitQuery.cs:103 | adding a tree whose units lie below its own new root keeps the forest free of repeated units |
| OrganizationUnitTree.ChainUnique | src/Ncp.CleanDDD.Web/Application/Queries/OrganizationUnitQuery.cs:92 | with unique, non-zero ids two ancestor chains that end in the same unit are the same chain |
| OrganizationUnitTree.Apart | src/Ncp.CleanDDD.Web/Application/Queries/OrganizationUnitQuery.cs:125-134 | a unit below one child of a unit is below no other child |
| OrganizationUnitTree.TreeUnique | src/Ncp.CleanDDD.Web/Application/Queries/OrganizationUnitQuery.cs:117-145 | a tree built by `BuildTreeDto` holds no unit twice, and every unit in it lies below the chain that led to its top |
| OrganizationUnitTree.ForestUnique | src/Ncp.CleanDDD.Web/Application/Queries/OrganizationUnitQuery.cs:129-135 | the trees the child loop builds from distinct candidates hold no unit twice, together; every unit lies below one of the candidates |
| OrganizationUnitTree.SortKeepsUnits | src/Ncp.CleanDDD.Web/Application/Queries/OrganizationUnitQuery.cs:107 | ordering a forest keeps its units and its roots, each as often as before |
| OrganizationUnitTree.SortedDistinct | src/Ncp.CleanDDD.Web/Application/Queries/OrganizationUnitQuery.cs:107 | the ordered forest keeps its roots and has no two units with one id |
| OrganizationUnitTree.SortedForest | src/Ncp.CleanDDD.Web/Application/Queries/OrganizationUnitQuery.cs:107 | ordering the roots keeps the same trees and puts them in sort order |
| OrganizationUnitTree.BuiltRootWellBuilt | src/Ncp.CleanDDD.Web/Application/Queries/OrganizationUnitQuery.cs:103 | the tree built for a displayed root is well built |
| OrganizationUnitTree.ConvertToTreeDto | src/Ncp.CleanDDD.Web/Application/Queries/OrganizationUnitQuery.cs:152-169 | the DTO has the unit's id and sort order, one child per child, children in sort order |
| OrganizationUnitTree.ConvertEach | src/Ncp.CleanDDD.Web/Application/Queries/OrganizationUnitQuery.cs:154-157 | each child becomes its own DTO, position by position, keeping its sort order |
| OrganizationUnitTree.ChildrenSorted | src/Ncp.CleanDDD.Web/Application/Queries/OrganizationUnitQuery.cs:125-127 | the children a built tree holds are already in sort order |
| OrganizationUnitTree.ConvertMirrorsBuiltTree | src/Ncp.CleanDDD.Web/Application/Queries/OrganizationUnitQuery.cs:152-169 | on a built tree the second ordering changes nothing: the DTO mirrors the tree node for node |
| OrganizationUnitTree.ConvertForest | src/Ncp.CleanDDD.Web/Application/Queries/OrganizationUnitQuery.cs:79 | one DTO per tree, in order |
| OrganizationUnitTree.GetOrganizationUnitTree | src/Ncp.CleanDDD.Web/Application/Queries/OrganizationUnitQuery.cs:70-80 | fails exactly on a duplicate id among units that are not deleted; otherwise the DTOs are in sort order, every displayed root appears, and they mirror a forest whose every node has exactly its displayed children, whose roots are exactly the displayed roots (one tree each) and in which no two units share an id |
| OrganizationUnitTree.ConvertedForestSorted | src/Ncp.CleanDDD.Web/Application/Queries/OrganizationUnitQuery.cs:79 | converting a sorted forest gives sorted DTOs |
| OrganizationUnitTree.ConvertedForestCovers | src/Ncp.CleanDDD.Web/Application/Queries/OrganizationUnitQuery.cs:79 | every displayed root has a DTO with its id |
| OrganizationUnitTree.ConvertedForestMirrors | src/Ncp.CleanDDD.Web/Application/Queries/OrganizationUnitQuery.cs:79 | the DTOs mirror the built forest tree by tree |
| OrganizationUnitTree.ConvertedTree | src/Ncp.CleanDDD.Web/Application/Queries/OrganizationUnitQuery.cs:79 | each tree of a displayed forest converts to a DTO mirroring it, its root is displayed and it is well built |
| Enumerable.Where | src/Ncp.CleanDDD.Web/Application/Queries/UserQuery.cs:114 | the result keeps, in order, exactly the elements satisfying the predicate |
| Enumerable.WhereMembers | src/Ncp.CleanDDD.Web/Application/Queries/OrganizationUnitQuery.cs:126 | an element is kept exactly when it is in the input and satisfies the predicate |
| Enumerable.WhereSorted | src/Ncp.CleanDDD.Web/Application/Queries/OrganizationUnitQuery.cs:126-127 | filtering an ordered list keeps it ordered |
| Enumerable.Insert | src/Ncp.CleanDDD.Web/Application/Queries/OrganizationUnitQuery.cs:65 | inserting adds exactly the one element |
| Enumerable.SortBy | src/Ncp.CleanDDD.Web/Application/Queries/OrganizationUnitQuery.cs:65 | ordering is a permutation of its input |
| Enumerable.InsertSorted | src/Ncp.CleanDDD.Web/Application/Queries/OrganizationUnitQuery.cs:65 | inserting into an ordered list keeps it ordered |
| Enumerable.SortBySorted | src/Ncp.CleanDDD.Web/Application/Queries/UserQuery.cs:165 | the result of ordering is in key order |
| Enumerable.SortBySortedIdentity | src/Ncp.CleanDDD.Web/Application/Queries/OrganizationUnitQuery.cs:155 | ordering a list already in key order leaves it unchanged |
| Enumerable.SortByMembers | src/Ncp.CleanDDD.Web/Application/Queries/OrganizationUnitQuery.cs:107 | ordering keeps exactly the elements of the input |
| LogQuery.Add | src/Ncp.CleanDDD.Web/Application/Queries/LogQuery.cs:49-71 | each filter appends its criterion and its parameter together, after the ones already present, keeping every parameter the one its criterion binds |
| LogQuery.PresentCriteria | src/Ncp.CleanDDD.Web/Application/Queries/LogQuery.cs:46-71 | at most four criteria in the query's order: the level or keyword exactly when it is not empty, the start or end time exactly when it is given |
| LogQuery.BuildConditions | src/Ncp.CleanDDD.Web/Application/Queries/LogQuery.cs:46-71 | the criteria are exactly the present filters in the query's order, each with the parameter it binds: a level or keyword exactly when it is not empty, a start or end time exactly when it is given |
| LogQuery.Conditions | src/Ncp.CleanDDD.Web/Application/Queries/LogQuery.cs:46 | one condition text per criterion |
| LogQuery.WhereClause | src/Ncp.CleanDDD.Web/Application/Queries/LogQuery.cs:73 | empty exactly when there are no conditions; otherwise `WHERE ` followed by the conditions joined with ` AND ` |
| LogQuery.Offset | src/Ncp.CleanDDD.Web/Application/Queries/LogQuery.cs:86 | the page offset is the product of page index and page size in 32-bit arithmetic: the true product when it fits, otherwise its wrapped value |
| LogQuery.GetLogs | src/Ncp.CleanDDD.Web/Application/Queries/LogQuery.cs:32-116 | a count outside the 32-bit range fails with the conversion's overflow message, and only when the count was asked for; otherwise the total is the count only when it was asked for and the page holds the rows read; both commands carry the WHERE clause of the present filters (the count command only when asked); the page command binds the filter parameters, then the page size and the 32-bit offset, and no filter parameter takes a paging name |
| BatchImport.DotSuffix | src/Ncp.CleanDDD.Web/Endpoints/UserEndpoints/BatchImportUsersEndpoint.cs:73 | the text from the last period of the last path segment to the end, or nothing |
| BatchImport.Extension | src/Ncp.CleanDDD.Web/Endpoints/UserEndpoints/BatchImportUsersEndpoint.cs:73 | the extension is empty or a period followed by at least one character, a suffix of the name holding no further period and no separator |
| BatchImport.FileGate | src/Ncp.CleanDDD.Web/Endpoints/UserEndpoints/BatchImportUsersEndpoint.cs:67-83 | the upload passes exactly when a file is present, non-empty, at most 10 MB and named .xlsx or .xls (in any case); otherwise the first failed check's message |
| BatchImport.ExcelExtensionIff | src/Ncp.CleanDDD.Web/Endpoints/UserEndpoints/BatchImportUsersEndpoint.cs:73-77 | the extension check accepts exactly the names whose lower-cased form ends in ".xlsx" or ".xls" |
| BatchImport.ToLowerSuffix | src/Ncp.CleanDDD.Web/Endpoints/UserEndpoints/BatchImportUsersEndpoint.cs:73 | lower-casing a name and then taking its tail is the same as the reverse |
| BatchImport.LowerTail | src/Ncp.CleanDDD.Web/Endpoints/UserEndpoints/BatchImportUsersEndpoint.cs:73 | a name ending in ".xlsx" or ".xls" (in any case) has that extension, lower-cased |
| BatchImport.ExtensionOfTail | src/Ncp.CleanDDD.Web/Endpoints/UserEndpoints/BatchImportUsersEndpoint.cs:73 | a tail made of a period and characters that are neither periods nor separators is the extension |
| BatchImport.DotSuffixOfTail | src/Ncp.CleanDDD.Web/Endpoints/UserEndpoints/BatchImportUsersEndpoint.cs:73 | the same tail is the last dotted suffix |
| BatchImport.IsEmptyRow | src/Ncp.CleanDDD.Web/Endpoints/UserEndpoints/BatchImportUsersEndpoint.cs:332-343 | a row is empty exactly when it is absent or every one of its eight cells is blank |
| BatchImport.ReadRows | src/Ncp.CleanDDD.Web/Endpoints/UserEndpoints/BatchImportUsersEndpoint.cs:126-142 | the first pass keeps one sheet index per data row it keeps |
| BatchImport.ReadRowsIndexed | src/Ncp.CleanDDD.Web/Endpoints/UserEndpoints/BatchImportUsersEndpoint.cs:126-142 | every kept row is a data row of the range, kept with its own cells, in increasing sheet order |
| BatchImport.ReadRowsComplete | src/Ncp.CleanDDD.Web/Endpoints/UserEndpoints/BatchImportUsersEndpoint.cs:126-142 | no data row of the range is missed |
| BatchImport.ReadRowsFailed | src/Ncp.CleanDDD.Web/Endpoints/UserEndpoints/BatchImportUsersEndpoint.cs:137-141 | an unreadable row is reported under its sheet index plus one |
| BatchImport.ReadSheet | src/Ncp.CleanDDD.Web/Endpoints/UserEndpoints/BatchImportUsersEndpoint.cs:126-142 | the loop computes the first pass |
| BatchImport.BasicErrors | src/Ncp.CleanDDD.Web/Endpoints/UserEndpoints/BatchImportUsersEndpoint.cs:210-238 | no message exactly when id type, id number, user name, real name, gender and birth date are present, the gender is 男 or 女 and the birth date parses |
| BatchImport.ValidateRow | src/Ncp.CleanDDD.Web/Endpoints/UserEndpoints/BatchImportUsersEndpoint.cs:240-268 | a row failing a basic check gets only those messages; a row passes exactly when it passes them all, no stored name equals its name under the database collation and, when it has an e-mail address, no stored address equals it under the collation |
| BatchImport.ValidateAll | src/Ncp.CleanDDD.Web/Endpoints/UserEndpoints/BatchImportUsersEndpoint.cs:202-291 | one list of messages per data row, in row order |
| BatchImport.CommandFor | src/Ncp.CleanDDD.Web/Endpoints/UserEndpoints/BatchImportUsersEndpoint.cs:403-420 | the create command is active, carries the default password's hash, the row's name, e-mail and parsed birth date, and the import's unit |
| BatchImport.CreateUser | src/Ncp.CleanDDD.Web/Endpoints/UserEndpoints/BatchImportUsersEndpoint.cs:394-423 | an unparsable birth date fails with its own message; otherwise the outcome is that of sending the row's command after the commands of the import that already created users |
| BatchImport.ValidRowParses | src/Ncp.CleanDDD.Web/Endpoints/UserEndpoints/BatchImportUsersEndpoint.cs:397-399 | a row that passed validation always reaches the sending of its command |
| BatchImport.CreateStep | src/Ncp.CleanDDD.Web/Endpoints/UserEndpoints/BatchImportUsersEndpoint.cs:150-173 | each data row is counted once, either created (its command joining the created ones) or reported under its row number; earlier reports and creations are kept |
| BatchImport.CreateRows | src/Ncp.CleanDDD.Web/Endpoints/UserEndpoints/BatchImportUsersEndpoint.cs:150-173 | after n data rows, the created ones plus the reported ones number n |
| BatchImport.CreateRowsFailed | src/Ncp.CleanDDD.Web/Endpoints/UserEndpoints/BatchImportUsersEndpoint.cs:153 | each reported row is numbered after the sheet index of a data row |
| BatchImport.CreatedFromValidRows | src/Ncp.CleanDDD.Web/Endpoints/UserEndpoints/BatchImportUsersEndpoint.cs:150-173 | every command that created a user is the command of a data row whose validation found nothing |
| BatchImport.CreateOne | src/Ncp.CleanDDD.Web/Endpoints/UserEndpoints/BatchImportUsersEndpoint.cs:152-172 | the loop body performs one step of the second pass |
| BatchImport.CreateUsers | src/Ncp.CleanDDD.Web/Endpoints/UserEndpoints/BatchImportUsersEndpoint.cs:150-173 | the loop computes the second pass |
| BatchImport.ProcessExcelFile | src/Ncp.CleanDDD.Web/Endpoints/UserEndpoints/BatchImportUsersEndpoint.cs:96-182 | a sheet with no row after the header fails with "no data rows"; otherwise the import result of reading from the given start index (index 2 as written, index 1 corrected) |
| BatchImport.ImportTally | src/Ncp.CleanDDD.Web/Endpoints/UserEndpoints/BatchImportUsersEndpoint.cs:176-181 | whatever the start index, the total counts the data rows read; the fail count is the number of reported rows, which are the unreadable rows plus the data rows not created |
| BatchImport.ImportRowNumbers | src/Ncp.CleanDDD.Web/Endpoints/UserEndpoints/BatchImportUsersEndpoint.cs:140-153 | every reported row number lies between the start index plus one and the sheet's row count |
| BatchImport.NumberedWithinAppend | src/Ncp.CleanDDD.Web/Endpoints/UserEndpoints/BatchImportUsersEndpoint.cs:140 | joining two lists of reports keeps their numbers in range |
| BatchImport.BatchImportUsers | src/Ncp.CleanDDD.Web/Endpoints/UserEndpoints/BatchImportUsersEndpoint.cs:65-94 | a failed gate reports its message; an import with no data rows reports "import failed" followed by that message; otherwise the import result for the given start index (index 2 as written, index 1 corrected) |
| BatchImport.AsWrittenSkipsFirstDataRow | src/Ncp.CleanDDD.Web/Endpoints/UserEndpoints/BatchImportUsersEndpoint.cs:119-126 | starting at sheet index 2, a sheet of a header and one user imports nobody and reports nothing (all counts zero), while starting at index 1 reads the user and counts it |
| BatchImport.EveryDataRowRead | src/Ncp.CleanDDD.Web/Endpoints/UserEndpoints/BatchImportUsersEndpoint.cs:119-126 | starting after the header, a row is read exactly when it holds data |
| ApiClient.CreateErrorResponse | Ncp.CleanDDD.Avalonia/Services/ApiService.cs:381-390 | a failed call answers with success false, code -1, no data and the given message |
| ApiClient.HandleResponse | Ncp.CleanDDD.Avalonia/Services/ApiService.cs:367-379 | the body is read exactly when the status is 2xx and it deserialises, and it is then that body; anything else is an error |
| ApiClient.Call | Ncp.CleanDDD.Avalonia/Services/ApiService.cs:49-62 | a call that throws, answers with a non-2xx status, or answers 2xx with a body that cannot be read yields the error response with the call's message; otherwise the server's envelope |
| ApiClient.CallSuccess | Ncp.CleanDDD.Avalonia/Services/ApiService.cs:332-347 | a call reports success only when the server answered 2xx with an envelope saying success |
| ApiClient.QueryParams | Ncp.CleanDDD.Avalonia/Services/ApiService.cs:394-404 | at most one name=value pair per property (see QueryParamsArePairs) |
| ApiClient.QueryParamsArePairs | Ncp.CleanDDD.Avalonia/Services/ApiService.cs:394-404 | the pairs are exactly name=escaped value of each non-null property, one each, in property order |
| ApiClient.BuildQueryString | Ncp.CleanDDD.Avalonia/Services/ApiService.cs:392-407 | the pairs of the non-null properties, in order, joined with '&' after a '?', or nothing when there are none |
| ApiClient.QueryParamsEmpty | Ncp.CleanDDD.Avalonia/Services/ApiService.cs:406 | there are no pairs exactly when every property is null |
| ApiClient.TokenProvider.constructor | Ncp.CleanDDD.Avalonia/Services/TokenProvider.cs:8 | a new provider holds the empty token |
| ApiClient.TokenProvider.SetToken | Ncp.CleanDDD.Avalonia/Services/TokenProvider.cs:14-17 | the token becomes the given one, a null token the empty string |
| ApiClient.ApiService.constructor | Ncp.CleanDDD.Avalonia/Services/ApiService.cs:23-33 | the service keeps the given token provider |
| ApiClient.ApiService.SetAuthToken | Ncp.CleanDDD.Avalonia/Services/ApiService.cs:39-45 | the concrete provider's token becomes the given one; any other provider is left alone |
| Authentication.TrimIsTrimmedSlice | Ncp.CleanDDD.Avalonia/Services/AuthService.cs:56 | trimming leaves no surrounding white space and adds no character |
| Authentication.ParsePermissions | Ncp.CleanDDD.Avalonia/Services/AuthService.cs:53-58 | one code per non-empty ','-separated entry, each trimmed and free of ',' |
| Authentication.SegmentBeforeSeparator | Ncp.CleanDDD.Avalonia/Services/AuthService.cs:55 | the text before the first separator is the first entry |
| Authentication.SplitJoin | Ncp.CleanDDD.Avalonia/Services/AuthService.cs:55 | splitting codes joined with ',' gives the non-empty codes back |
| Authentication.TrimmedUnchanged | Ncp.CleanDDD.Avalonia/Services/AuthService.cs:56 | trimming a code without surrounding white space leaves it as it is |
| Authentication.ParseJoinedPermissions | Ncp.CleanDDD.Avalonia/Services/AuthService.cs:53-58 | parsing plain codes joined with ',' gives exactly those codes, in order |
| Authentication.JsonPermissionsText | src/Ncp.CleanDDD.Web/Endpoints/UserEndpoints/LoginEndpoint.cs:106 | the serialised permissions are a bracketed JSON array |
| Authentication.AsWrittenJsonPermissions | Ncp.CleanDDD.Avalonia/Services/AuthService.cs:53-58 | the JSON text of a single code parses to one entry, the whole text, so the code is not held |
| Authentication.AuthService.constructor | Ncp.CleanDDD.Avalonia/Services/AuthService.cs:20-26 | a new session has no user and no permissions |
| Authentication.AuthService.Login | Ncp.CleanDDD.Avalonia/Services/AuthService.cs:39-75 | the login succeeds exactly when the answer is a success with data; the user is then the answer's, the token is handed to the provider and a non-empty permission string replaces the permissions; a failed login changes nothing |
| Authentication.AuthService.Logout | Ncp.CleanDDD.Avalonia/Services/AuthService.cs:77-100 | whatever the server answers, the session ends: no user, no permissions, an empty token |
| Authentication.AuthService.HasPermission | Ncp.CleanDDD.Avalonia/Services/AuthService.cs:102-108 | true exactly when a user is logged in and holds the code |
| Authentication.AuthService.HasAllPermissions | Ncp.CleanDDD.Avalonia/Services/AuthService.cs:110-116 | true exactly when a user is logged in, the request is non-empty and every code is held |
| Authentication.AuthService.HasAnyPermission | Ncp.CleanDDD.Avalonia/Services/AuthService.cs:118-124 | true exactly when a user is logged in and some requested code is held |
| Authentication.ListContains | Ncp.CleanDDD.Avalonia/Services/AuthService.cs:107 | true exactly when the code is in the list |
| Authentication.AllContained | Ncp.CleanDDD.Avalonia/Services/AuthService.cs:115 | true exactly when every requested code is held |
| Authentication.AnyContained | Ncp.CleanDDD.Avalonia/Services/AuthService.cs:123 | true exactly when some requested code is held |
| Authentication.AllImpliesAny | Ncp.CleanDDD.Avalonia/Services/AuthService.cs:110-124 | holding all of a request implies holding any of it; for a single code the two agree |
| Authentication.LoginGrantsJoinedCodes | Ncp.CleanDDD.Avalonia/Services/AuthService.cs:53-58 | after a login carrying ','-joined plain codes, a code is held exactly when it is one of them |
| RouterGuard.BeforeEach | frontend/src/router/index.ts:48-88 | an authenticated user is sent home from the login and register pages; an anonymous visitor of a protected page goes to login; a user lacking a page's permissions goes to the first authorised menu, or is logged out and sent to login when there is none; everything else proceeds |
| RouterGuard.LogoutOnlyWithoutMenus | frontend/src/router/index.ts:71-84 | the guard logs out exactly when an authenticated user lacks a protected page's permissions and has no menu |
| RouterGuard.LoginRedirectSettles | frontend/src/router/index.ts:53-68 | a redirect to the login page is followed by entering it without a further redirect |
| PermissionDefinitions.PermissionRegistry.constructor | src/Ncp.CleanDDD.Web/AppPermissions/PermissionDefinitionContext.cs:15-46 | the registry starts with the one group SystemAccess holding the user, role, monitoring, organisation-unit and all-API permission trees, in definition order |
| PermissionDefinitions.PermissionRegistry.AddGroup | src/Ncp.CleanDDD.Web/AppPermissions/PermissionDefinitionContext.cs:54-64 | a null or blank name and a name already registered are refused and change nothing; otherwise an empty group is registered under the name, last in order, and returned |
| PermissionDefinitions.PermissionRegistry.PermissionGroups | src/Ncp.CleanDDD.Web/AppPermissions/PermissionDefinitionContext.cs:69 | one group per registered name, each the group registered under its name |
| PermissionDefinitions.IndexOf | src/Ncp.CleanDDD.Web/AppPermissions/PermissionDefinitionContext.cs:69 | the position of a registered name |
| PermissionDefinitions.DistinctCardinality | src/Ncp.CleanDDD.Web/AppPermissions/PermissionDefinitionContext.cs:69 | a list of distinct names has as many entries as the set of names |
| SeedDatabase.AdminCodes | src/Ncp.CleanDDD.Web/Utils/SeedDatabaseExtension.cs:18-42 | the admin role is seeded with eighteen codes, the last being all-API access |
| SeedDatabase.UserCodes | src/Ncp.CleanDDD.Web/Utils/SeedDatabaseExtension.cs:44-49 | the ordinary role is seeded with three codes |
| SeedDatabase.AdminGrants | src/Ncp.CleanDDD.Web/Utils/SeedDatabaseExtension.cs:18-42 | one grant per admin code, in order |
| SeedDatabase.UserGrants | src/Ncp.CleanDDD.Web/Utils/SeedDatabaseExtension.cs:44-49 | one grant per ordinary-role code, in order |
| SeedDatabase.AdminPermissions | src/Ncp.CleanDDD.Web/Utils/SeedDatabaseExtension.cs:18-42 | eighteen permissions, all-API access among them |
| SeedDatabase.UserPermissions | src/Ncp.CleanDDD.Web/Utils/SeedDatabaseExtension.cs:44-49 | three permissions: viewing and editing users among them |
| SeedDatabase.SeededCodesAreDefined | src/Ncp.CleanDDD.Web/Utils/SeedDatabaseExtension.cs:18-42 | every code the admin role is seeded with is defined in the permission tree |
| SeedDatabase.UserCodesAreAdminCodes | src/Ncp.CleanDDD.Web/Utils/SeedDatabaseExtension.cs:44-49 | the ordinary role's codes are all admin codes |
| SeedDatabase.FirstRoleNamed | src/Ncp.CleanDDD.Web/Utils/SeedDatabaseExtension.cs:87 | a role is found exactly when some visible role has the name, and it is such a role |
| SeedDatabase.FirstUnitNamed | src/Ncp.CleanDDD.Web/Utils/SeedDatabaseExtension.cs:69 | a unit is found exactly when some visible unit has the name, and it is such a unit |
| SeedDatabase.FirstUnitNamedAppend | src/Ncp.CleanDDD.Web/Utils/SeedDatabaseExtension.cs:69-77 | units saved after the first match do not change what the lookup finds |
| SeedDatabase.FirstRoleNamedAppend | src/Ncp.CleanDDD.Web/Utils/SeedDatabaseExtension.cs:87 | roles saved after the first match do not change what the lookup finds |
| SeedDatabase.FirstUnitNamedAfterNone | src/Ncp.CleanDDD.Web/Utils/SeedDatabaseExtension.cs:62-77 | with no visible unit before them, the lookup finds the first of the newly saved units with the name |
| SeedDatabase.NewUserRow | src/Ncp.CleanDDD.Web/Utils/SeedDatabaseExtension.cs:88-101 | the seeded user is active, holds the one role and is assigned to the unit |
| SeedDatabase.Database.SeedRoles | src/Ncp.CleanDDD.Web/Utils/SeedDatabaseExtension.cs:16-57 | with no visible role, the admin and ordinary roles are added with their permissions under two new ids; otherwise nothing changes |
| SeedDatabase.Database.SeedUnits | src/Ncp.CleanDDD.Web/Utils/SeedDatabaseExtension.cs:62-79 | with no visible unit, the chain 大组 ← 小组 ← 个人 is added, each unit under the one before; otherwise nothing changes |
| SeedDatabase.Database.SeedUser | src/Ncp.CleanDDD.Web/Utils/SeedDatabaseExtension.cs:83-104 | an existing user of the name leaves everything unchanged; a missing root unit or role fails and adds nothing; otherwise exactly the new user is appended under a new id |
| SeedDatabase.Database.SeedUsers | src/Ncp.CleanDDD.Web/Utils/SeedDatabaseExtension.cs:83-127 | on success both admin and test exist; when both existed nothing changes |
| SeedDatabase.Database.Seed | src/Ncp.CleanDDD.Web/Utils/SeedDatabaseExtension.cs:10-135 | on success the database is seeded; seeding a seeded database changes nothing; the roles and units are there whatever the user steps did |
| Text.ToLower | src/Ncp.CleanDDD.Web/Endpoints/UserEndpoints/BatchImportUsersEndpoint.cs:73 | lower-casing keeps the length and maps each character on its own |
| Text.Segment | Ncp.CleanDDD.Avalonia/Services/AuthService.cs:55 | the first segment is a prefix free of the separator, followed by the separator unless it is the whole text |
| Text.SplitNonEmpty | Ncp.CleanDDD.Avalonia/Services/AuthService.cs:55 | every entry is non-empty and free of the separator |
| Text.NaturalTextValue | src/Ncp.CleanDDD.Web/Application/Commands/UserCommands/UpdateUserRolesCommand.cs:26 | the decimal text of an id in a not-found message denotes that id |
| Calendar.AddYears | src/Ncp.CleanDDD.Domain/AggregatesModel/UserAggregate/User.cs:133 | adding years keeps the date valid and the month, moves the year, and keeps the day except 29 February going to 28 in a common year |
| Calendar.DaysInMonth | src/Ncp.CleanDDD.Domain/AggregatesModel/UserAggregate/User.cs:133 | a month has 28 to 31 days, February 29 exactly in leap years |

## Left out

- Storage, the unit of work and the transaction machinery (MediatR pipeline behaviours, the CAP event bus, distributed locks) are not modelled: a repository is a map from id to aggregate object, and a handler's changes are the changes to those objects.
- Domain events are recorded in a ghost sequence on the aggregate; their dispatch to handlers is modelled only for the order-created event (`OrderCommands.OnOrderCreated`).
- UserCommands.UpdateUserLoginTime: the clearing of the user's permission cache is left out, because it is an in-memory cache side effect and changes no stored state.
- UserCommands.UpdateUserRoleInfo and RoleCommands.UpdateRoleInfo: the roll-back of a partly applied change when a later step throws is the unit of work's, which is not modelled; the model reports the failure and keeps the in-memory changes made before it.
- RolePermission.cs, Order.cs, AppPermissionGroup.cs and the permission-code class are not part of this model: a role permission is its code with the name and description it is created with, an order stores its name and count, and a permission group is its name and permission list.
- UserQuery.GetAllUsersSpec and OrganizationUnitQuery.GetAllOrganizationUnitsSpec: paging (`ToPagedDataAsync`) and the projection to DTOs are left out; the lemmas state the filtered, ordered list before paging.
- UserQuery's other lookups (user by id, users by ids, login information, the permission cache) are not modelled, as no named operation depends on them.
- LogQuery.GetLogs: the MySQL execution and the reading of rows are left out; the count the server answers and the rows it returns are parameters, and the model states the SQL text of both commands and the parameters of the page command. `GetLogsByCorrelationIdAsync` is not modelled.
- OrganizationUnitTree.BuildTreeDto: the source clears and refills each unit's `Children` list in place; the model builds the tree as a value, so the aliasing of a unit object is not captured; `OrganizationUnitTree.BuildTreeStructure` states that with unique ids no unit is reached twice, so no unit object is shared between two places of the forest.
- OrganizationUnitTree.BuildTreeStructure and OrganizationUnitTree.GetOrganizationUnitTree: unit ids are required to be non-zero, because they are database keys and 0 is the root marker; the dictionary is assumed to enumerate in insertion order.
- Text.ToLower: only the letters A to Z are lower-cased; non-ASCII and culture-specific case mappings are left out. It models both the invariant `ToLowerInvariant` of the file extension check and the culture-sensitive `ToLower()` of the administrator guard in `DeleteUserCommand.cs`.
- UserCommands.DeleteUser: the guard lower-cases the name with the current culture; the model lower-cases A to Z only, so names whose lower-case form differs under another culture or outside ASCII ("İ" under a Turkish culture, "ＡＤＭＩＮ") are not captured.
- BatchImport.Extension: '/' is the only path separator; the Windows separators `Path.GetExtension` also recognises are left out.
- BatchImport.ValidateRow: the "数据库验证失败" message produced when a duplicate lookup throws is left out, as the lookups are total functions here.
- BatchImport.ReadRows: the data object attached to a row whose reading failed is left out; the failed row keeps its number and message.
- BatchImport.CreateUser: the outcome of sending a create command is a parameter of the commands that already created users in the same import and of the command itself; the store behind it is not modelled. The role lookup for the assigned roles is left out and the command carries no roles.
- BatchImport: reading the workbook and the cell formatting (dates, numbers, booleans, formulas) are left out; a sheet row arrives as its trimmed cell texts.
- ApiClient: JSON (de)serialisation, URI escaping and the HTTP transport are parameters; the status-name text of an HTTP error is replaced by the status code's decimal text.
- ApiClient.BuildQueryString: the reflection over a query object's public properties is modelled as a list of property names and optional value texts.
- Authentication: the property-changed notifications and logging are left out.
- RouterGuard.BeforeEach: the permission store and the list of authorised menus are inputs of the guard.
- PermissionDefinitions: display names of permissions are derived from their codes as listed; the permission-item class's own members are not modelled.
- SeedDatabase.Database.Seed: password hashing and the clock are parameters (the hashes and the birth date); the seeded user's organisation assignment carries the unit id and name but not the user id the source copies in before the user has one.
- UserAggregate: the birth date and "today" are parameters; the age computation assumes valid calendar dates.
- Text.Collation: a collation is modelled as a key function on whole strings (equal keys, or key containment for `LIKE`); the weight-level rules of MySQL's `utf8mb4_0900_ai_ci` (contractions, ignorable characters) are not modelled.
- SeedDatabase.Database.Seed: the name lookups of the seed (`Any(u => u.Name == ...)`, `First(r => r.Name == ...)`) compare names exactly; the database collation they run under is left out, which matters only if the table holds a name differing from a seeded one by case or accent.
- UserQuery.GetUserIdByRefreshToken: the token is compared exactly; the database collation of that comparison is left out (issued tokens are not expected to differ only by case).
- Reconciliation.DuplicateKey: the `ArgumentException` message of `ToDictionary` also names the repeated key (" Key: ..."); the model keeps only the fixed part, because the keys are of several types (ids, GUIDs, permission codes) and their text is not modelled.
- RoleCommands.UpdateRoleInfo: a role id is a GUID in the source and an integer here, so the "role not found" message carries the id's decimal text rather than its GUID text.
- OrderCommands.CreateOrder: the log entry written after the order is stored (`logger.LogInformation`) is left out, as it changes no stored state.
- Validator messages count a string's length in UTF-16 code units in the source; the model counts characters.

## Findings

| source | as written | input that shows it | evidently intended | confidence | as-written member | corrected member |
|---|---|---|---|---|---|---|
| src/Ncp.CleanDDD.Web/Endpoints/UserEndpoints/BatchImportUsersEndpoint.cs:119-126 | the first pass starts at sheet row index 2, although row 0 is the header and the guard only requires more than one row | a sheet holding the header and one user row: the guard lets it through and the import reads no row, so nobody is imported | start at index 1, the row after the header, as the inline comment says | not executed | BatchImport.AsWrittenSkipsFirstDataRow | BatchImport.EveryDataRowRead |
| Ncp.CleanDDD.Avalonia/Services/AuthService.cs:53-58 | the desktop client splits the login's permission string at ',', but the login endpoint fills it with the JSON array of the codes (src/Ncp.CleanDDD.Web/Endpoints/UserEndpoints/LoginEndpoint.cs:106) | a login granting only UserView sends `["UserView"]`; the client holds that whole text as its one permission, so HasPermission("UserView") is false | the string carries the codes joined with ',' (or the client parses JSON), so the client holds exactly the granted codes | not executed | Authentication.AsWrittenJsonPermissions | Authentication.ParseJoinedPermissions |
