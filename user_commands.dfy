/** The user commands, each sent as the pipeline sends it: the validator's rules first (every
    failing rule contributes its message, and the handler does not run), then the handler. The
    repository is a map from user id to the loaded aggregate; users have no soft-delete filter,
    so a user marked deleted is still found. */
module UserCommands {
  import opened Wrappers
  import opened Calendar
  import opened Text
  import opened Reconciliation
  import opened UserAggregate

  /** FluentValidation's default message for `NotEmpty` on the `UserId` property. */
  const UserIdNotEmpty := "'User Id' must not be empty."
  const UserIdRequired := "用户ID不能为空"
  const UserIdRequiredLower := "userid不能为空"
  const PasswordRequired := "密码不能为空"
  const NameRequired := "用户名不能为空"
  const LoginTimeRequired := "登录时间不能为空"
  const UserMissing := "用户不存在"
  const CannotDeleteAdmin := "不能删除管理员用户"
  /** `default(DateTimeOffset)`, which `NotEmpty` refuses. */
  const DefaultTime: Time := 0

  function UserNotFound(idName: string, id: UserId): string {
    "未找到用户，" + idName + " = " + DecimalText(id)
  }

  function UserMissingWithId(id: UserId): string {
    "用户不存在，UserId=" + DecimalText(id)
  }

  /** The aggregate the command loads, as a frame: empty when the id is null or unknown. */
  function Loaded(users: map<UserId, User>, id: Option<UserId>): set<User> {
    if id.Some? && id.value in users then {users[id.value]} else {}
  }

  // ---------------------------------------------------------------- DeleteUserCommand

  datatype DeleteUserCommand = DeleteUserCommand(userId: Option<UserId>)

  function ValidateDeleteUser(c: DeleteUserCommand): (errors: seq<string>)
    ensures errors == [] <==> c.userId.Some?
  {
    if c.userId.None? then [UserIdRequired] else []
  }

  /** The administrator (a name equal to "admin" ignoring case) is never deleted; any other
      user found is marked deleted and nothing else about it changes. */
  method DeleteUser(users: map<UserId, User>, c: DeleteUserCommand) returns (reply: Reply<()>)
    modifies Loaded(users, c.userId)`isDeleted
    ensures c.userId.None? ==> reply == Invalid([UserIdRequired])
    ensures c.userId.Some? && c.userId.value !in users ==> reply == Failed(UserMissing)
    ensures c.userId.Some? && c.userId.value in users && ToLower(users[c.userId.value].name) == "admin" ==>
              reply == Failed(CannotDeleteAdmin) && users[c.userId.value].isDeleted == old(users[c.userId.value].isDeleted)
    ensures c.userId.Some? && c.userId.value in users && ToLower(users[c.userId.value].name) != "admin" ==>
              reply == Done(()) && users[c.userId.value].isDeleted
  {
    var errors := ValidateDeleteUser(c);
    if errors != [] {
      return Invalid(errors);
    }
    if c.userId.value !in users {
      return Failed(UserMissing);
    }
    var user := users[c.userId.value];
    if ToLower(user.name) == "admin" {
      return Failed(CannotDeleteAdmin);
    }
    user.SoftDelete();
    return Done(());
  }

  // ---------------------------------------------------------------- UpdateUserCommand

  datatype UpdateUserCommand = UpdateUserCommand(
    userId: UserId, name: string, email: string, phone: string, realName: string, status: int,
    gender: string, age: int, birthDate: Date, organizationUnitId: OrganizationUnitId,
    organizationUnitName: string, passwordHash: string)

  function ValidateUpdateUser(c: UpdateUserCommand): (errors: seq<string>)
    ensures errors == [] <==> !IsBlank(c.name)
  {
    if IsBlank(c.name) then [NameRequired] else []
  }

  /** Overwrites the profile, recomputes the age from the birth date (the command's age is
      ignored), replaces the password hash unless the given one is empty, and replaces the
      organisation-unit assignment; returns the user's id. */
  method UpdateUser(users: map<UserId, User>, c: UpdateUserCommand, utcNow: Time, today: Date)
    returns (reply: Reply<UserId>)
    requires ValidDate(today)
    modifies Loaded(users, Some(c.userId))`name, Loaded(users, Some(c.userId))`phone,
             Loaded(users, Some(c.userId))`realName, Loaded(users, Some(c.userId))`status,
             Loaded(users, Some(c.userId))`email, Loaded(users, Some(c.userId))`gender,
             Loaded(users, Some(c.userId))`age, Loaded(users, Some(c.userId))`birthDate,
             Loaded(users, Some(c.userId))`passwordHash, Loaded(users, Some(c.userId))`updateTime,
             Loaded(users, Some(c.userId))`organizationUnit
    ensures IsBlank(c.name) ==> reply == Invalid([NameRequired])
    ensures !IsBlank(c.name) && c.userId !in users ==> reply == Failed(UserMissingWithId(c.userId))
    ensures !IsBlank(c.name) && c.userId in users ==>
              var u := users[c.userId];
              reply == Done(u.id)
              && u.name == c.name && u.phone == c.phone && u.realName == c.realName
              && u.status == c.status && u.email == c.email && u.gender == c.gender
              && u.birthDate == c.birthDate && u.age == CalculateAge(c.birthDate, today)
              && (c.passwordHash == "" ==> u.passwordHash == old(u.passwordHash) && u.updateTime == old(u.updateTime))
              && (c.passwordHash != "" ==> u.passwordHash == c.passwordHash && u.updateTime == utcNow)
              && u.organizationUnit == Some(UserOrganizationUnit(u.id, c.organizationUnitId, c.organizationUnitName, utcNow))
  {
    var errors := ValidateUpdateUser(c);
    if errors != [] {
      return Invalid(errors);
    }
    if c.userId !in users {
      return Failed(UserMissingWithId(c.userId));
    }
    var user := users[c.userId];
    user.UpdateUserInfo(c.name, c.phone, c.realName, c.status, c.email, c.gender, c.birthDate, today);
    user.UpdatePassword(c.passwordHash, utcNow);
    var assignment := UserOrganizationUnit(user.id, c.organizationUnitId, c.organizationUnitName, utcNow);
    var outcome := user.AssignOrganizationUnit(Some(assignment));
    return Done(user.id);
  }

  // ---------------------------------------------------------------- PasswordResetCommand

  datatype PasswordResetCommand = PasswordResetCommand(userId: Option<UserId>, password: string)

  function ValidatePasswordReset(c: PasswordResetCommand): (errors: seq<string>)
    ensures errors == [] <==> c.userId.Some? && !IsBlank(c.password)
    ensures UserIdRequiredLower in errors <==> c.userId.None?
    ensures PasswordRequired in errors <==> IsBlank(c.password)
  {
    (if c.userId.None? then [UserIdRequiredLower] else [])
    + (if IsBlank(c.password) then [PasswordRequired] else [])
  }

  /** Sets the password hash unconditionally and leaves the update time alone; returns the
      user's id. */
  method PasswordReset(users: map<UserId, User>, c: PasswordResetCommand) returns (reply: Reply<UserId>)
    modifies Loaded(users, c.userId)`passwordHash
    ensures ValidatePasswordReset(c) != [] ==> reply == Invalid(ValidatePasswordReset(c))
    ensures ValidatePasswordReset(c) == [] && c.userId.value !in users ==>
              reply == Failed(UserMissingWithId(c.userId.value))
    ensures ValidatePasswordReset(c) == [] && c.userId.value in users ==>
              reply == Done(users[c.userId.value].id) && users[c.userId.value].passwordHash == c.password
  {
    var errors := ValidatePasswordReset(c);
    if errors != [] {
      return Invalid(errors);
    }
    if c.userId.value !in users {
      return Failed(UserMissingWithId(c.userId.value));
    }
    var user := users[c.userId.value];
    user.PasswordReset(c.password);
    return Done(user.id);
  }

  // ---------------------------------------------------------------- UpdateUserLoginTimeCommand

  datatype UpdateUserLoginTimeCommand = UpdateUserLoginTimeCommand(
    userId: Option<UserId>, loginTime: Time, refreshToken: string)

  function ValidateUpdateUserLoginTime(c: UpdateUserLoginTimeCommand): (errors: seq<string>)
    ensures errors == [] <==> c.userId.Some? && c.loginTime != DefaultTime
    ensures UserIdRequired in errors <==> c.userId.None?
    ensures LoginTimeRequired in errors <==> c.loginTime == DefaultTime
  {
    (if c.userId.None? then [UserIdRequired] else [])
    + (if c.loginTime == DefaultTime then [LoginTimeRequired] else [])
  }

  /** Records the login time and appends exactly one refresh token, keeping the older ones. */
  method UpdateUserLoginTime(users: map<UserId, User>, c: UpdateUserLoginTimeCommand, utcNow: Time)
    returns (reply: Reply<()>)
    modifies Loaded(users, c.userId)`lastLoginTime, Loaded(users, c.userId)`updateTime,
             Loaded(users, c.userId)`refreshTokens
    ensures ValidateUpdateUserLoginTime(c) != [] ==> reply == Invalid(ValidateUpdateUserLoginTime(c))
    ensures ValidateUpdateUserLoginTime(c) == [] && c.userId.value !in users ==>
              reply == Failed(UserMissingWithId(c.userId.value))
    ensures ValidateUpdateUserLoginTime(c) == [] && c.userId.value in users ==>
              var u := users[c.userId.value];
              reply == Done(()) && u.lastLoginTime == Some(c.loginTime) && u.updateTime == utcNow
              && u.refreshTokens == old(u.refreshTokens) + [c.refreshToken]
  {
    var errors := ValidateUpdateUserLoginTime(c);
    if errors != [] {
      return Invalid(errors);
    }
    if c.userId.value !in users {
      return Failed(UserMissingWithId(c.userId.value));
    }
    var user := users[c.userId.value];
    user.UpdateLastLoginTime(c.loginTime, utcNow);
    user.SetUserRefreshToken(c.refreshToken);
    return Done(());
  }

  // ---------------------------------------------------------------- UpdateUserRoleInfoCommand

  datatype UpdateUserRoleInfoCommand = UpdateUserRoleInfoCommand(userId: UserId, roleId: RoleId, roleName: string)

  /** Renames the held role with the command's role id; the roles held stay the same, every
      other role keeps its name, and a user without that role is left as it was. */
  method UpdateUserRoleInfo(users: map<UserId, User>, c: UpdateUserRoleInfoCommand) returns (reply: Reply<()>)
    modifies (if c.userId in users then users[c.userId].roles else [])`roleName
    ensures c.userId !in users ==> reply == Failed(UserNotFound("AdminUserId", c.userId))
    ensures c.userId in users ==>
              var u := users[c.userId];
              var hit := FirstRoleIndex(u.roles, c.roleId);
              reply == Done(()) && u.roles == old(u.roles)
              && forall r :: r in u.roles ==>
                   r.roleName == (if hit.Some? && r == u.roles[hit.value] then c.roleName else old(r.roleName))
  {
    if c.userId !in users {
      return Failed(UserNotFound("AdminUserId", c.userId));
    }
    var user := users[c.userId];
    user.UpdateRoleInfo(c.roleId, c.roleName);
    return Done(());
  }

  // ---------------------------------------------------------------- UpdateUserRolesCommand

  /** `AssignAdminUserRoleQueryDto`. */
  datatype RoleAssignment = RoleAssignment(roleId: RoleId, roleName: string)

  datatype UpdateUserRolesCommand = UpdateUserRolesCommand(userId: Option<UserId>, rolesToBeAssigned: seq<RoleAssignment>)

  function ValidateUpdateUserRoles(c: UpdateUserRolesCommand): (errors: seq<string>)
    ensures errors == [] <==> c.userId.Some?
  {
    if c.userId.None? then [UserIdNotEmpty] else []
  }

  function AssignedRoleIds(assignments: seq<RoleAssignment>): (ids: set<RoleId>)
    ensures forall id :: id in ids <==> exists i :: 0 <= i < |assignments| && assignments[i].roleId == id
  {
    set i | 0 <= i < |assignments| :: assignments[i].roleId
  }

  predicate DistinctRoleIds(assignments: seq<RoleAssignment>) {
    forall i, j :: 0 <= i < j < |assignments| ==> assignments[i].roleId != assignments[j].roleId
  }

  /** The handler's loop: one new, unattached `UserRole` per assignment, in order. */
  method NewUserRoles(assignments: seq<RoleAssignment>) returns (roles: seq<UserRole>)
    ensures |roles| == |assignments|
    ensures forall i :: 0 <= i < |roles| ==>
              fresh(roles[i]) && roles[i].userId == None
              && RoleAssignment(roles[i].roleId, roles[i].roleName) == assignments[i]
  {
    roles := [];
    for i := 0 to |assignments|
      invariant |roles| == i
      invariant forall k :: 0 <= k < i ==>
                  fresh(roles[k]) && roles[k].userId == None
                  && RoleAssignment(roles[k].roleId, roles[k].roleName) == assignments[k]
    {
      var role := new UserRole(assignments[i].roleId, assignments[i].roleName);
      roles := roles + [role];
    }
  }

  /** The held roles become exactly the assigned role ids: a held role that stays assigned is
      kept as the same object (its name is untouched, as only the user's role list is
      modified), a newly assigned one is a new role carrying the assignment's name. A repeated role id among the held or the assigned roles fails before
      anything changes. */
  method UpdateUserRoles(users: map<UserId, User>, c: UpdateUserRolesCommand) returns (reply: Reply<()>)
    modifies Loaded(users, c.userId)`roles
    ensures c.userId.None? ==> reply == Invalid([UserIdNotEmpty])
    ensures c.userId.Some? && c.userId.value !in users ==> reply == Failed(UserNotFound("UserId", c.userId.value))
    ensures c.userId.Some? && c.userId.value in users ==>
              var u := users[c.userId.value];
              if !DistinctKeys(old(u.roles), RoleIdOf) || !DistinctRoleIds(c.rolesToBeAssigned) then
                reply == Failed(DuplicateKey) && u.roles == old(u.roles)
              else
                reply == Done(())
                && KeysOf(u.roles, RoleIdOf) == AssignedRoleIds(c.rolesToBeAssigned)
                && DistinctKeys(u.roles, RoleIdOf)
                && (forall r :: r in old(u.roles) && r.roleId in AssignedRoleIds(c.rolesToBeAssigned) ==> r in u.roles)
                && (forall r :: r in u.roles ==>
                      r in old(u.roles)
                      || (fresh(r) && RoleAssignment(r.roleId, r.roleName) in c.rolesToBeAssigned))
  {
    var errors := ValidateUpdateUserRoles(c);
    if errors != [] {
      return Invalid(errors);
    }
    if c.userId.value !in users {
      return Failed(UserNotFound("UserId", c.userId.value));
    }
    reply := AssignRoles(users[c.userId.value], c.rolesToBeAssigned);
  }

  /** Gives one user exactly the assigned roles, as UpdateUserRoles promises for a found user. */
  method AssignRoles(user: User, assignments: seq<RoleAssignment>) returns (reply: Reply<()>)
    modifies user`roles
    ensures !DistinctKeys(old(user.roles), RoleIdOf) || !DistinctRoleIds(assignments) ==>
              reply == Failed(DuplicateKey) && user.roles == old(user.roles)
    ensures DistinctKeys(old(user.roles), RoleIdOf) && DistinctRoleIds(assignments) ==>
              reply == Done(())
              && KeysOf(user.roles, RoleIdOf) == AssignedRoleIds(assignments)
              && DistinctKeys(user.roles, RoleIdOf)
              && (forall r :: r in old(user.roles) && r.roleId in AssignedRoleIds(assignments) ==> r in user.roles)
              && (forall r :: r in user.roles ==>
                    r in old(user.roles)
                    || (fresh(r) && RoleAssignment(r.roleId, r.roleName) in assignments))
  {
    var roles := NewUserRoles(assignments);
    AssignmentKeys(roles, assignments);
    var outcome := user.UpdateRoles(roles);
    if outcome.Fail? {
      return Failed(outcome.error);
    }
    return Done(());
  }

  /** The new roles have the assignments' ids, and distinct ones exactly when the assignments do. */
  lemma AssignmentKeys(roles: seq<UserRole>, assignments: seq<RoleAssignment>)
    requires |roles| == |assignments|
    requires forall i :: 0 <= i < |roles| ==> roles[i].roleId == assignments[i].roleId
    ensures KeysOf(roles, RoleIdOf) == AssignedRoleIds(assignments)
    ensures DistinctKeys(roles, RoleIdOf) <==> DistinctRoleIds(assignments)
  {
    var keys, ids := KeysOf(roles, RoleIdOf), AssignedRoleIds(assignments);
    forall id | id in keys ensures id in ids {
      var i :| 0 <= i < |roles| && RoleIdOf(roles[i]) == id;
      assert assignments[i].roleId == id;
    }
    forall id | id in ids ensures id in keys {
      var i :| 0 <= i < |assignments| && assignments[i].roleId == id;
      assert RoleIdOf(roles[i]) == id;
    }
  }
}
