/** The registry of permission definitions: named groups of permissions, each permission with
    a code, a display name and child permissions. Static initialisation registers one group,
    SystemAccess, with the permission tree the application knows. */
module PermissionDefinitions {
  import opened Wrappers
  import opened Text

  /** The permission codes. A code's text is the name of its constant. */
  datatype PermissionCode =
    | UserManagement | UserCreate | UserEdit | UserDelete | UserView | UserRoleAssign | UserResetPassword
    | RoleManagement | RoleCreate | RoleEdit | RoleDelete | RoleView | RoleUpdatePermissions
    | SystemAdmin | SystemMonitor | LogView
    | OrganizationUnitManagement | OrganizationUnitCreate | OrganizationUnitEdit
    | OrganizationUnitDelete | OrganizationUnitView | OrganizationUnitAssign
    | AllApiAccess

  function CodeText(c: PermissionCode): string {
    match c
    case UserManagement => "UserManagement"
    case UserCreate => "UserCreate"
    case UserEdit => "UserEdit"
    case UserDelete => "UserDelete"
    case UserView => "UserView"
    case UserRoleAssign => "UserRoleAssign"
    case UserResetPassword => "UserResetPassword"
    case RoleManagement => "RoleManagement"
    case RoleCreate => "RoleCreate"
    case RoleEdit => "RoleEdit"
    case RoleDelete => "RoleDelete"
    case RoleView => "RoleView"
    case RoleUpdatePermissions => "RoleUpdatePermissions"
    case SystemAdmin => "SystemAdmin"
    case SystemMonitor => "SystemMonitor"
    case LogView => "LogView"
    case OrganizationUnitManagement => "OrganizationUnitManagement"
    case OrganizationUnitCreate => "OrganizationUnitCreate"
    case OrganizationUnitEdit => "OrganizationUnitEdit"
    case OrganizationUnitDelete => "OrganizationUnitDelete"
    case OrganizationUnitView => "OrganizationUnitView"
    case OrganizationUnitAssign => "OrganizationUnitAssign"
    case AllApiAccess => "AllApiAccess"
  }

  const SystemAccess := "SystemAccess"

  /** A defined permission and its child permissions. Its display name is determined by its
      code (`DisplayName`), since each code is defined once. */
  datatype AppPermission = AppPermission(code: PermissionCode, children: seq<AppPermission>) {
    function DisplayText(): string {
      DisplayName(code)
    }
  }
  datatype AppPermissionGroup = AppPermissionGroup(name: string, permissions: seq<AppPermission>)

  /** `code` is defined by one of `ps` or by one of their children (the permission tree is
      two levels deep). */
  predicate Defines(ps: seq<AppPermission>, code: PermissionCode) {
    exists i :: 0 <= i < |ps| && (ps[i].code == code || ChildDefines(ps[i], code))
  }

  predicate ChildDefines(p: AppPermission, code: PermissionCode) {
    exists j :: 0 <= j < |p.children| && p.children[j].code == code
  }

  /** The display name each defined permission is registered with. SystemAdmin is declared
      as a code but never defined, so it has none. */
  function DisplayName(c: PermissionCode): string {
    match c
    case UserManagement => "用户管理"
    case UserCreate => "创建用户"
    case UserEdit => "编辑用户"
    case UserDelete => "删除用户"
    case UserView => "查看用户"
    case UserRoleAssign => "分配用户角色"
    case UserResetPassword => "重置用户密码"
    case RoleManagement => "角色管理"
    case RoleCreate => "创建角色"
    case RoleEdit => "编辑角色"
    case RoleDelete => "删除角色"
    case RoleView => "查看角色"
    case RoleUpdatePermissions => "更新角色权限"
    case SystemAdmin => ""
    case SystemMonitor => "系统监控"
    case LogView => "查看系统日志"
    case OrganizationUnitManagement => "组织架构管理"
    case OrganizationUnitCreate => "创建组织架构"
    case OrganizationUnitEdit => "编辑组织架构"
    case OrganizationUnitDelete => "删除组织架构"
    case OrganizationUnitView => "查看组织架构"
    case OrganizationUnitAssign => "分配组织架构"
    case AllApiAccess => "所有接口访问权限"
  }

  function Node(code: PermissionCode, children: seq<AppPermission>): AppPermission {
    AppPermission(code, children)
  }

  function Leaf(code: PermissionCode): AppPermission {
    AppPermission(code, [])
  }

  /** The permission tree of the SystemAccess group, in definition order. */
  function SystemAccessPermissions(): seq<AppPermission> {
    [ Node(UserManagement, UserManagementChildren()),
      Node(RoleManagement, RoleManagementChildren()),
      Node(SystemMonitor, [Leaf(LogView)]),
      Node(OrganizationUnitManagement, OrganizationUnitManagementChildren()),
      Leaf(AllApiAccess) ]
  }

  function UserManagementChildren(): seq<AppPermission> {
    [Leaf(UserCreate), Leaf(UserEdit), Leaf(UserDelete), Leaf(UserView), Leaf(UserRoleAssign), Leaf(UserResetPassword)]
  }

  function RoleManagementChildren(): seq<AppPermission> {
    [Leaf(RoleCreate), Leaf(RoleEdit), Leaf(RoleDelete), Leaf(RoleView), Leaf(RoleUpdatePermissions)]
  }

  function OrganizationUnitManagementChildren(): seq<AppPermission> {
    [Leaf(OrganizationUnitCreate), Leaf(OrganizationUnitEdit), Leaf(OrganizationUnitDelete),
     Leaf(OrganizationUnitView), Leaf(OrganizationUnitAssign)]
  }

  const NullName := "Value cannot be null. (Parameter 'name')"
  const BlankName := "The value cannot be an empty string or composed entirely of whitespace. (Parameter 'name')"

  function DuplicateGroup(name: string): string {
    "There is already an existing permission group with name: " + name
  }

  /** The registry. `order` is the order in which the dictionary enumerates its groups, which
      is insertion order since groups are never removed. */
  class PermissionRegistry {
    var groups: map<string, AppPermissionGroup>
    var order: seq<string>

    ghost predicate Valid()
      reads this
    {
      (forall i, j :: 0 <= i < j < |order| ==> order[i] != order[j])
      && (forall name :: name in groups <==> name in order)
      && (forall name :: name in groups ==> groups[name].name == name)
    }

    /** Static initialisation: the SystemAccess group with its permission tree. */
    constructor ()
      ensures Valid()
      ensures order == [SystemAccess]
      ensures groups == map[SystemAccess := AppPermissionGroup(SystemAccess, SystemAccessPermissions())]
    {
      groups := map[];
      order := [];
      new;
      assert !IsWhiteSpace(SystemAccess[0]);
      var added := AddGroup(Some(SystemAccess));
      groups := groups[SystemAccess := added.value.(permissions := SystemAccessPermissions())];
    }

    /** Registers an empty group under a new, non-blank name and returns it. A null, blank or
        taken name is refused and the registry stays as it was. */
    method AddGroup(name: Option<string>) returns (r: Result<AppPermissionGroup>)
      requires Valid()
      modifies this
      ensures Valid()
      ensures name.None? ==> r == Err(NullName)
      ensures name.Some? && IsBlank(name.value) ==> r == Err(BlankName)
      ensures name.Some? && !IsBlank(name.value) && name.value in old(groups) ==> r == Err(DuplicateGroup(name.value))
      ensures r.Err? ==> groups == old(groups) && order == old(order)
      ensures name.Some? && !IsBlank(name.value) && name.value !in old(groups) ==>
                r == Ok(AppPermissionGroup(name.value, []))
                && groups == old(groups)[name.value := r.value] && order == old(order) + [name.value]
    {
      if name.None? {
        return Err(NullName);
      }
      if IsBlank(name.value) {
        return Err(BlankName);
      }
      if name.value in groups {
        return Err(DuplicateGroup(name.value));
      }
      var group := AppPermissionGroup(name.value, []);
      groups := groups[name.value := group];
      order := order + [name.value];
      return Ok(group);
    }

    /** The registered groups, in registration order, as a value the caller cannot change. */
    function PermissionGroups(): (gs: seq<AppPermissionGroup>)
      requires Valid()
      reads this
      ensures |gs| == |groups.Keys|
      ensures forall name :: name in groups <==> exists i :: 0 <= i < |gs| && gs[i].name == name
      ensures forall i :: 0 <= i < |gs| ==> gs[i] == groups[gs[i].name]
    {
      DistinctCardinality(order, groups.Keys);
      var names, registered := order, groups;
      assert forall i :: 0 <= i < |names| ==> names[i] in registered;
      var gs := seq(|names|, i requires 0 <= i < |names| => registered[names[i]]);
      assert forall name :: name in groups ==> gs[IndexOf(names, name)].name == name;
      gs
    }
  }

  function IndexOf(xs: seq<string>, x: string): (i: nat)
    requires x in xs
    ensures i < |xs| && xs[i] == x
  {
    if xs[0] == x then 0 else 1 + IndexOf(xs[1..], x)
  }

  lemma {:induction false} DistinctCardinality(xs: seq<string>, s: set<string>)
    requires forall i, j :: 0 <= i < j < |xs| ==> xs[i] != xs[j]
    requires forall x :: x in s <==> x in xs
    ensures |s| == |xs|
  {
    if xs != [] {
      var last := xs[|xs| - 1];
      var init := xs[..|xs| - 1];
      assert forall x :: x in s - {last} <==> x in init by {
        forall x ensures x in s - {last} <==> x in init {
          if x in init {
            var k :| 0 <= k < |init| && init[k] == x;
            assert xs[k] == x;
          }
          if x in xs && x != last {
            var k :| 0 <= k < |xs| && xs[k] == x;
            assert k < |xs| - 1;
            assert init[k] == x;
          }
        }
      }
      DistinctCardinality(init, s - {last});
    }
  }
}
