/** Start-up seeding: two roles, a three-level organisation chain and the users admin and
    test, each step taken only when the database lacks what it adds, so that running it again
    changes nothing. The database is modelled by its three tables in insertion order; roles
    and organisation units are read through their soft-delete filters, users are not.
    Identifiers come from a counter, and password hashing and the clock are inputs. */
module SeedDatabase {
  import opened Wrappers
  import opened Calendar
  import opened RoleAggregate
  import opened PermissionDefinitions

  datatype RoleRow = RoleRow(id: int, name: string, description: string,
                             permissions: seq<RolePermission>, isDeleted: bool)
  datatype UnitRow = UnitRow(id: int, name: string, description: string, parentId: int,
                             sortOrder: int, isDeleted: bool)
  datatype UserRow = UserRow(id: int, name: string, phone: string, passwordHash: string,
                             roles: seq<(int, string)>, realName: string, status: int,
                             email: string, gender: string, birthDate: Time,
                             organizationUnit: Option<(int, string)>)

  const AdminRoleName := "管理员"
  const UserRoleName := "普通用户"
  const RootUnitName := "大组"
  const GroupUnitName := "小组"
  const PersonUnitName := "个人"
  const AdminUserName := "admin"
  const TestUserName := "test"
  /** `First` over a query with no match. */
  const NoMatchingElement := "Sequence contains no matching element"

  /** A seeded grant: the code, the permission's name and its description. */
  datatype Grant = Grant(code: PermissionCode, name: string, description: string)

  function ToRolePermission(g: Grant): RolePermission {
    RolePermission(CodeText(g.code), g.name, g.description)
  }

  /** The codes the admin role is seeded with, in order: every operation except viewing
      logs, plus AllApiAccess. */
  function AdminCodes(): (cs: seq<PermissionCode>)
    ensures |cs| == 18 && cs[17] == AllApiAccess
  {
    [ UserCreate, UserView, UserEdit, UserDelete, RoleCreate, RoleView, RoleEdit, RoleDelete,
      UserRoleAssign, UserResetPassword, RoleUpdatePermissions, SystemMonitor,
      OrganizationUnitCreate, OrganizationUnitView, OrganizationUnitEdit, OrganizationUnitDelete,
      OrganizationUnitAssign, AllApiAccess ]
  }

  /** The codes the ordinary role is seeded with: viewing and editing users, plus
      AllApiAccess. */
  function UserCodes(): (cs: seq<PermissionCode>)
    ensures |cs| == 3
  {
    [UserView, UserEdit, AllApiAccess]
  }

  /** The name and description of an admin grant (codes the admin role is not seeded with
      have none). */
  function AdminGrant(c: PermissionCode): Grant {
    match c
    case UserCreate => Grant(c, "创建用户", "创建新用户")
    case UserView => Grant(c, "查看用户", "查看用户信息")
    case UserEdit => Grant(c, "更新用户", "更新用户信息")
    case UserDelete => Grant(c, "删除用户", "删除用户")
    case RoleCreate => Grant(c, "创建角色", "创建新角色")
    case RoleView => Grant(c, "查看角色", "查看角色信息")
    case RoleEdit => Grant(c, "更新角色", "更新角色信息")
    case RoleDelete => Grant(c, "删除角色", "删除角色")
    case UserRoleAssign => Grant(c, "分配用户角色", "分配用户角色权限")
    case UserResetPassword => Grant(c, "重置用户密码", "重置用户密码")
    case RoleUpdatePermissions => Grant(c, "更新角色权限", "更新角色的权限")
    case SystemMonitor => Grant(c, "系统监控权限", "拥有系统监控权限")
    case OrganizationUnitCreate => Grant(c, "创建组织机构", "创建组织机构")
    case OrganizationUnitView => Grant(c, "查看组织机构", "查看组织机构信息")
    case OrganizationUnitEdit => Grant(c, "更新组织机构", "更新组织机构信息")
    case OrganizationUnitDelete => Grant(c, "删除组织机构", "删除组织机构")
    case OrganizationUnitAssign => Grant(c, "分配组织架构", "分配组织架构")
    case AllApiAccess => Grant(c, "所有接口访问权限", "所有接口访问权限")
    case _ => Grant(c, "", "")
  }

  /** The name and description of an ordinary-role grant. */
  function UserGrant(c: PermissionCode): Grant {
    match c
    case UserView => Grant(c, "查看用户", "查看用户信息")
    case UserEdit => Grant(c, "更新用户", "更新自己的用户信息")
    case _ => AdminGrant(c)
  }

  function AdminGrants(): (gs: seq<Grant>)
    ensures |gs| == 18 && forall k :: 0 <= k < 18 ==> gs[k].code == AdminCodes()[k]
  {
    var cs := AdminCodes();
    seq(|cs|, i requires 0 <= i < |cs| => AdminGrant(cs[i]))
  }

  function UserGrants(): (gs: seq<Grant>)
    ensures |gs| == 3 && forall k :: 0 <= k < 3 ==> gs[k].code == UserCodes()[k]
  {
    var cs := UserCodes();
    seq(|cs|, i requires 0 <= i < |cs| => UserGrant(cs[i]))
  }

  function AdminPermissions(): (ps: seq<RolePermission>)
    ensures |ps| == 18 && AnyWithCode(ps, CodeText(AllApiAccess))
  {
    var gs := AdminGrants();
    var ps := seq(|gs|, i requires 0 <= i < |gs| => ToRolePermission(gs[i]));
    assert gs[17].code == AllApiAccess;
    assert ps[17].permissionCode == CodeText(AllApiAccess);
    ps
  }

  function UserPermissions(): (ps: seq<RolePermission>)
    ensures |ps| == 3
    ensures AnyWithCode(ps, CodeText(UserView)) && AnyWithCode(ps, CodeText(UserEdit))
            && AnyWithCode(ps, CodeText(AllApiAccess))
  {
    var gs := UserGrants();
    var ps := seq(|gs|, i requires 0 <= i < |gs| => ToRolePermission(gs[i]));
    assert gs[0].code == UserView && gs[1].code == UserEdit && gs[2].code == AllApiAccess;
    assert ps[0].permissionCode == CodeText(UserView);
    assert ps[1].permissionCode == CodeText(UserEdit);
    assert ps[2].permissionCode == CodeText(AllApiAccess);
    ps
  }

  /** Every code the admin role is seeded with is defined by the permission definitions. */
  lemma SeededCodesAreDefined()
    ensures forall k :: 0 <= k < |AdminCodes()| ==> Defines(SystemAccessPermissions(), AdminCodes()[k])
  {
    var d := SystemAccessPermissions();
    var admin := AdminCodes();
    var users, roles, units := UserManagementChildren(), RoleManagementChildren(), OrganizationUnitManagementChildren();
    assert d[0].children == users && d[1].children == roles && d[3].children == units;
    forall k | 0 <= k < |admin| ensures Defines(d, admin[k]) {
      if k < 4 || k == 8 || k == 9 {
        var j := if k == 0 then 0 else if k == 1 then 3 else if k == 2 then 1 else if k == 3 then 2 else if k == 8 then 4 else 5;
        assert users[j].code == admin[k];
        assert ChildDefines(d[0], admin[k]);
      } else if 4 <= k <= 7 || k == 10 {
        var j := if k == 4 then 0 else if k == 5 then 3 else if k == 6 then 1 else if k == 7 then 2 else 4;
        assert roles[j].code == admin[k];
        assert ChildDefines(d[1], admin[k]);
      } else if k == 11 {
        assert d[2].code == admin[k];
      } else if k < 17 {
        var j := if k == 12 then 0 else if k == 13 then 3 else if k == 14 then 1 else if k == 15 then 2 else 4;
        assert units[j].code == admin[k];
        assert ChildDefines(d[3], admin[k]);
      } else {
        assert d[4].code == admin[k];
      }
    }
  }

  /** The ordinary role's codes are a subset of the admin role's. */
  lemma UserCodesAreAdminCodes()
    ensures forall k :: 0 <= k < |UserCodes()| ==> UserCodes()[k] in AdminCodes()
  {
    var admin := AdminCodes();
    assert admin[1] == UserView && admin[2] == UserEdit;
  }

  predicate AnyVisibleRole(roles: seq<RoleRow>) {
    exists i :: 0 <= i < |roles| && !roles[i].isDeleted
  }

  predicate AnyVisibleUnit(units: seq<UnitRow>) {
    exists i :: 0 <= i < |units| && !units[i].isDeleted
  }

  predicate AnyUserNamed(users: seq<UserRow>, name: string) {
    exists i :: 0 <= i < |users| && users[i].name == name
  }

  /** `Roles.First(r => r.Name == name)` through the soft-delete filter. */
  function FirstRoleNamed(roles: seq<RoleRow>, name: string): (r: Option<RoleRow>)
    ensures r.Some? <==> exists i :: 0 <= i < |roles| && !roles[i].isDeleted && roles[i].name == name
    ensures r.Some? ==> r.value in roles && !r.value.isDeleted && r.value.name == name
  {
    if roles == [] then None
    else if !roles[0].isDeleted && roles[0].name == name then Some(roles[0])
    else FirstRoleNamed(roles[1..], name)
  }

  /** `OrganizationUnits.First(u => u.Name == name)` through the soft-delete filter. */
  function FirstUnitNamed(units: seq<UnitRow>, name: string): (r: Option<UnitRow>)
    ensures r.Some? <==> exists i :: 0 <= i < |units| && !units[i].isDeleted && units[i].name == name
    ensures r.Some? ==> r.value in units && !r.value.isDeleted && r.value.name == name
  {
    if units == [] then None
    else if !units[0].isDeleted && units[0].name == name then Some(units[0])
    else FirstUnitNamed(units[1..], name)
  }

  /** Appending rows after the first match leaves the match unchanged. */
  lemma {:induction false} FirstUnitNamedAppend(units: seq<UnitRow>, more: seq<UnitRow>, name: string)
    requires FirstUnitNamed(units, name).Some?
    ensures FirstUnitNamed(units + more, name) == FirstUnitNamed(units, name)
  {
    if !(!units[0].isDeleted && units[0].name == name) {
      assert (units + more)[1..] == units[1..] + more;
      FirstUnitNamedAppend(units[1..], more, name);
    }
  }

  lemma {:induction false} FirstRoleNamedAppend(roles: seq<RoleRow>, more: seq<RoleRow>, name: string)
    requires FirstRoleNamed(roles, name).Some?
    ensures FirstRoleNamed(roles + more, name) == FirstRoleNamed(roles, name)
  {
    if !(!roles[0].isDeleted && roles[0].name == name) {
      assert (roles + more)[1..] == roles[1..] + more;
      FirstRoleNamedAppend(roles[1..], more, name);
    }
  }

  /** With no visible row before them, the first visible row with a name is the first
      appended one that has it. */
  lemma {:induction false} FirstUnitNamedAfterNone(units: seq<UnitRow>, more: seq<UnitRow>, name: string)
    requires !AnyVisibleUnit(units)
    ensures FirstUnitNamed(units + more, name) == FirstUnitNamed(more, name)
  {
    if units == [] {
      assert units + more == more;
    } else {
      assert (units + more)[0] == units[0] && (units + more)[1..] == units[1..] + more;
      assert !units[0].isDeleted ==> AnyVisibleUnit(units);
      assert !AnyVisibleUnit(units[1..]) by {
        forall i | 0 <= i < |units[1..]| ensures units[1..][i].isDeleted {
          assert units[1..][i] == units[i + 1];
        }
      }
      FirstUnitNamedAfterNone(units[1..], more, name);
    }
  }

  /** The user the seeding adds: the default password's hash, status 1, and assigned to one
      role and to the root unit. The unit assignment is made before the user is saved, so it
      names no user yet. */
  function NewUserRow(id: int, name: string, phone: string, passwordHash: string, role: RoleRow,
                    realName: string, email: string, gender: string, birthDate: Time,
                    unit: UnitRow): (u: UserRow)
    ensures u.status == 1 && u.roles == [(role.id, role.name)]
    ensures u.organizationUnit == Some((unit.id, unit.name))
  {
    UserRow(id, name, phone, passwordHash, [(role.id, role.name)], realName, 1, email, gender,
            birthDate, Some((unit.id, unit.name)))
  }

  class Database {
    var roles: seq<RoleRow>
    var units: seq<UnitRow>
    var users: seq<UserRow>
    /** The next identifier the database hands out. */
    var nextId: int

    predicate Seeded()
      reads this
    {
      AnyVisibleRole(roles) && AnyVisibleUnit(units)
      && AnyUserNamed(users, AdminUserName) && AnyUserNamed(users, TestUserName)
    }

    method SeedRoles()
      modifies this`roles, this`nextId
      ensures AnyVisibleRole(roles)
      ensures AnyVisibleRole(old(roles)) ==> roles == old(roles) && nextId == old(nextId)
      ensures !AnyVisibleRole(old(roles)) ==>
                roles == old(roles) + [RoleRow(old(nextId), AdminRoleName, "系统管理员", AdminPermissions(), false),
                                       RoleRow(old(nextId) + 1, UserRoleName, UserRoleName, UserPermissions(), false)]
                && nextId == old(nextId) + 2
    {
      if !AnyVisibleRole(roles) {
        var admin := RoleRow(nextId, AdminRoleName, "系统管理员", AdminPermissions(), false);
        var user := RoleRow(nextId + 1, UserRoleName, UserRoleName, UserPermissions(), false);
        roles := roles + [admin, user];
        nextId := nextId + 2;
        assert !roles[|roles| - 1].isDeleted;
      }
    }

    /** The chain root ← group ← person, each saved before the next looks its parent up by
        name. */
    method SeedUnits()
      modifies this`units, this`nextId
      ensures AnyVisibleUnit(units)
      ensures AnyVisibleUnit(old(units)) ==> units == old(units) && nextId == old(nextId)
      ensures !AnyVisibleUnit(old(units)) ==>
                var root := old(nextId);
                units == old(units) + [UnitRow(root, RootUnitName, "根节点", 0, 1, false),
                                       UnitRow(root + 1, GroupUnitName, "第一个子节点", root, 1, false),
                                       UnitRow(root + 2, PersonUnitName, "第一个子节点的子节点", root + 1, 1, false)]
                && nextId == root + 3
    {
      if !AnyVisibleUnit(units) {
        var before := units;
        var root := UnitRow(nextId, RootUnitName, "根节点", 0, 1, false);
        units := units + [root];
        nextId := nextId + 1;
        FirstUnitNamedAfterNone(before, [root], RootUnitName);
        var rootId := FirstUnitNamed(units, RootUnitName).value.id;

        var group := UnitRow(nextId, GroupUnitName, "第一个子节点", rootId, 1, false);
        units := units + [group];
        nextId := nextId + 1;
        FirstUnitNamedAfterNone(before, [root, group], GroupUnitName);
        assert FirstUnitNamed([root], GroupUnitName) == None;
        assert [root, group][1..] == [group];
        assert before + [root] + [group] == before + [root, group];
        var groupId := FirstUnitNamed(units, GroupUnitName).value.id;

        var person := UnitRow(nextId, PersonUnitName, "第一个子节点的子节点", groupId, 1, false);
        units := units + [person];
        nextId := nextId + 1;
        assert before + [root, group] + [person] == before + [root, group, person];
        assert !units[|units| - 1].isDeleted;
      }
    }

    /** Adds a user with the given name unless one exists (deleted users included), placing it
        in the first visible root unit with the first visible role of the given name. Either
        lookup finding nothing is an error, and the user is not added. */
    method SeedUser(name: string, phone: string, passwordHash: string, roleName: string,
                    realName: string, email: string, gender: string, birthDate: Time) returns (outcome: Outcome)
      modifies this`users, this`nextId
      ensures AnyUserNamed(old(users), name) ==> outcome == Pass && users == old(users) && nextId == old(nextId)
      ensures !AnyUserNamed(old(users), name) && (FirstUnitNamed(units, RootUnitName).None? || FirstRoleNamed(roles, roleName).None?) ==>
                outcome == Fail(NoMatchingElement) && users == old(users) && nextId == old(nextId)
      ensures !AnyUserNamed(old(users), name) && FirstUnitNamed(units, RootUnitName).Some? && FirstRoleNamed(roles, roleName).Some? ==>
                outcome == Pass && nextId == old(nextId) + 1
                && users == old(users) + [NewUserRow(old(nextId), name, phone, passwordHash, FirstRoleNamed(roles, roleName).value,
                                                     realName, email, gender, birthDate, FirstUnitNamed(units, RootUnitName).value)]
      ensures outcome == Pass <==> AnyUserNamed(users, name)
      ensures |old(users)| <= |users| && users[..|old(users)|] == old(users)
    {
      if AnyUserNamed(users, name) {
        return Pass;
      }
      var unit := FirstUnitNamed(units, RootUnitName);
      if unit.None? {
        return Fail(NoMatchingElement);
      }
      var role := FirstRoleNamed(roles, roleName);
      if role.None? {
        return Fail(NoMatchingElement);
      }
      var user := NewUserRow(nextId, name, phone, passwordHash, role.value, realName, email, gender, birthDate, unit.value);
      users := users + [user];
      nextId := nextId + 1;
      assert users[|users| - 1].name == name;
      return Pass;
    }

    /** The admin user (role 管理员) and then the test user (role 普通用户), both in the root
        unit. A failing admin step stops the seeding. */
    method SeedUsers(adminHash: string, testHash: string, birthDate: Time) returns (outcome: Outcome)
      modifies this`users, this`nextId
      ensures outcome == Pass ==> AnyUserNamed(users, AdminUserName) && AnyUserNamed(users, TestUserName)
      ensures AnyUserNamed(old(users), AdminUserName) && AnyUserNamed(old(users), TestUserName) ==>
                outcome == Pass && users == old(users) && nextId == old(nextId)
    {
      var admin := SeedUser(AdminUserName, "13800138000", adminHash, AdminRoleName, "系统管理员",
                            "admin@example.com", "男", birthDate);
      if admin.Fail? {
        return admin;
      }
      ghost var afterAdmin := users;
      outcome := SeedUser(TestUserName, "13800138001", testHash, UserRoleName, "测试用户",
                          "test@example.com", "女", birthDate);
      if outcome == Pass {
        ghost var k :| 0 <= k < |afterAdmin| && afterAdmin[k].name == AdminUserName;
        assert users[k] == afterAdmin[k];
      }
    }

    /** The whole seeding. `adminHash` and `testHash` are the hashes of the default password
        123456 and `birthDate` is thirty years before now. */
    method Seed(adminHash: string, testHash: string, birthDate: Time) returns (outcome: Outcome)
      modifies this
      ensures outcome == Pass ==> Seeded()
      // a second run changes nothing
      ensures old(Seeded()) ==> outcome == Pass && roles == old(roles) && units == old(units)
                                && users == old(users) && nextId == old(nextId)
      // the steps are saved one by one, so a failing user step keeps the roles and units
      ensures AnyVisibleRole(roles) && AnyVisibleUnit(units)
    {
      SeedRoles();
      SeedUnits();
      outcome := SeedUsers(adminHash, testHash, birthDate);
    }
  }
}
