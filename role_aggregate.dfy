/** The Role aggregate: a named role with a list of permissions, an activity flag, a soft-delete
    flag and the domain events it has recorded. */
module RoleAggregate {
  import opened Wrappers
  import opened Calendar
  import opened Reconciliation

  type RoleId = int

  const RoleAlreadyInactive := "角色已经被停用"
  const RoleAlreadyActive := "角色已经是激活状态"

  /** A permission granted to a role, identified by its code. */
  datatype RolePermission = RolePermission(
    permissionCode: string,
    permissionName: string,
    permissionDescription: string)

  /** The key by which permissions are reconciled. */
  function CodeOf(p: RolePermission): string {
    p.permissionCode
  }

  /** `Permissions.Any(p => p.PermissionCode == code)`. */
  function AnyWithCode(permissions: seq<RolePermission>, code: string): (found: bool)
    ensures found <==> exists i :: 0 <= i < |permissions| && permissions[i].permissionCode == code
  {
    if permissions == [] then false
    else permissions[0].permissionCode == code || AnyWithCode(permissions[1..], code)
  }

  datatype RoleEvent = RoleInfoChanged | RolePermissionChanged

  class Role {
    const id: RoleId
    var name: string
    var description: string
    const createdAt: Time
    var isActive: bool
    var isDeleted: bool
    /** Set at creation; no operation of the aggregate changes it. */
    const deletedAt: Time
    var permissions: seq<RolePermission>
    ghost var events: seq<RoleEvent>

    /** A new role is active, not deleted, and holds a copy of the given permissions. */
    constructor (id: RoleId, name: string, description: string, permissions: seq<RolePermission>,
                 now: Time, utcNow: Time)
      ensures this.id == id && this.name == name && this.description == description
      ensures this.permissions == permissions
      ensures isActive && !isDeleted && createdAt == now && deletedAt == utcNow
      ensures events == []
    {
      this.id := id;
      this.name := name;
      this.description := description;
      createdAt := now;
      isActive := true;
      isDeleted := false;
      deletedAt := utcNow;
      this.permissions := permissions;
      events := [];
    }

    /** Replaces name and description and records one `RoleInfoChanged` event. */
    method UpdateRoleInfo(name: string, description: string)
      modifies this`name, this`description, this`events
      ensures this.name == name && this.description == description
      ensures events == old(events) + [RoleInfoChanged]
    {
      this.name := name;
      this.description := description;
      events := events + [RoleInfoChanged];
    }

    /** Reconciles the permissions with `newPermissions` by code, then records one
        `RolePermissionChanged` event, even when nothing changed. A repeated code in either
        list fails before anything changes and records no event. */
    method UpdateRolePermissions(newPermissions: seq<RolePermission>) returns (outcome: Outcome)
      modifies this`permissions, this`events
      ensures !DistinctKeys(old(permissions), CodeOf) || !DistinctKeys(newPermissions, CodeOf) ==>
                outcome == Fail(DuplicateKey)
                && permissions == old(permissions) && events == old(events)
      ensures DistinctKeys(old(permissions), CodeOf) && DistinctKeys(newPermissions, CodeOf) ==>
                outcome == Pass
                && permissions == Reconciled(old(permissions), newPermissions, CodeOf)
                && events == old(events) + [RolePermissionChanged]
    {
      if !DistinctKeys(permissions, CodeOf) || !DistinctKeys(newPermissions, CodeOf) {
        return Fail(DuplicateKey);
      }
      var current := permissions;
      RemovePermissions(KeysOf(newPermissions, CodeOf));
      AddPermissions(newPermissions, KeysOf(current, CodeOf));
      events := events + [RolePermissionChanged];
      return Pass;
    }

    /** The removal loop of `UpdateRolePermissions`. */
    method RemovePermissions(codesToKeep: set<string>)
      requires DistinctKeys(permissions, CodeOf)
      modifies this`permissions
      ensures permissions == Keep(old(permissions), CodeOf, codesToKeep)
    {
      var current := permissions;
      var i := 0;
      while i < |current|
        invariant 0 <= i <= |current|
        invariant permissions == Keep(current[..i], CodeOf, codesToKeep) + current[i..]
      {
        RemovalStep(current, i, CodeOf, codesToKeep);
        if current[i].permissionCode !in codesToKeep {
          permissions := RemoveFirst(permissions, current[i]);
        }
        i := i + 1;
      }
      assert current[..i] == current;
    }

    /** The addition loop of `UpdateRolePermissions`. */
    method AddPermissions(target: seq<RolePermission>, heldCodes: set<string>)
      modifies this`permissions
      ensures permissions == old(permissions) + Drop(target, CodeOf, heldCodes)
    {
      ghost var start := permissions;
      var j := 0;
      while j < |target|
        invariant 0 <= j <= |target|
        invariant permissions == start + Drop(target[..j], CodeOf, heldCodes)
      {
        AdditionStep(target, j, CodeOf, heldCodes);
        if CodeOf(target[j]) !in heldCodes {
          permissions := permissions + [target[j]];
          assert permissions == start + (Drop(target[..j], CodeOf, heldCodes) + [target[j]]);
        }
        j := j + 1;
      }
      assert target[..j] == target;
    }

    method Deactivate() returns (outcome: Outcome)
      modifies this`isActive
      ensures !old(isActive) ==> outcome == Fail(RoleAlreadyInactive) && !isActive
      ensures old(isActive) ==> outcome == Pass && !isActive
    {
      if !isActive {
        return Fail(RoleAlreadyInactive);
      }
      isActive := false;
      return Pass;
    }

    method Activate() returns (outcome: Outcome)
      modifies this`isActive
      ensures old(isActive) ==> outcome == Fail(RoleAlreadyActive) && isActive
      ensures !old(isActive) ==> outcome == Pass && isActive
    {
      if isActive {
        return Fail(RoleAlreadyActive);
      }
      isActive := true;
      return Pass;
    }

    method SoftDelete()
      modifies this`isDeleted
      ensures isDeleted
    {
      isDeleted := true;
    }

    /** Whether the role holds a permission with the given code. */
    function HasPermission(permissionCode: string): (granted: bool)
      reads this
      ensures granted <==> permissionCode in KeysOf(permissions, CodeOf)
    {
      AnyWithCode(permissions, permissionCode)
    }
  }

  /** After a successful reconciliation, a role holds a permission code exactly when the
      requested list holds it. */
  lemma ReconciledPermissionCodes(current: seq<RolePermission>, requested: seq<RolePermission>,
                                  code: string)
    ensures AnyWithCode(Reconciled(current, requested, CodeOf), code) <==> AnyWithCode(requested, code)
  {
    ReconciledKeys(current, requested, CodeOf);
  }
}
