/** The role-update command: replaces a role's name and description and reconciles its
    permissions with the requested codes. The role repository is a map from id to the loaded
    aggregate read through the soft-delete filter. */
module RoleCommands {
  import opened Wrappers
  import opened Text
  import opened Reconciliation
  import opened RoleAggregate

  const RoleIdNotEmpty := "'Role Id' must not be empty."
  const NameNotEmpty := "'Name' must not be empty."

  function RoleNotFound(id: RoleId): string {
    "未找到角色，RoleId = " + DecimalText(id)
  }

  /** `GetAsync` under the soft-delete filter. */
  predicate RoleVisible(roles: map<RoleId, Role>, id: RoleId)
    reads roles.Values
  {
    id in roles && !roles[id].isDeleted
  }

  function LoadedRole(roles: map<RoleId, Role>, id: Option<RoleId>): set<Role>
    reads roles.Values
  {
    if id.Some? && RoleVisible(roles, id.value) then {roles[id.value]} else {}
  }

  /** `new RolePermission(code)`: a permission known only by its code. */
  function PermissionsFromCodes(codes: seq<string>): (ps: seq<RolePermission>)
    ensures |ps| == |codes|
    ensures forall i :: 0 <= i < |ps| ==> ps[i].permissionCode == codes[i]
  {
    seq(|codes|, i requires 0 <= i < |codes| => RolePermission(codes[i], "", ""))
  }

  /** The requested permissions carry exactly the requested codes, and they repeat a code
      exactly when the request does. */
  lemma PermissionsFromCodesKeys(codes: seq<string>)
    ensures KeysOf(PermissionsFromCodes(codes), CodeOf) == set c | c in codes
    ensures DistinctKeys(PermissionsFromCodes(codes), CodeOf) <==>
              forall i, j :: 0 <= i < j < |codes| ==> codes[i] != codes[j]
  {
    var ps := PermissionsFromCodes(codes);
    forall c | c in codes ensures c in KeysOf(ps, CodeOf) {
      var i :| 0 <= i < |codes| && codes[i] == c;
      assert CodeOf(ps[i]) == c;
    }
  }

  datatype UpdateRoleInfoCommand = UpdateRoleInfoCommand(
    roleId: Option<RoleId>, name: string, description: string, permissionCodes: seq<string>)

  function ValidateUpdateRoleInfo(c: UpdateRoleInfoCommand): (errors: seq<string>)
    ensures errors == [] <==> c.roleId.Some? && !IsBlank(c.name)
    ensures RoleIdNotEmpty in errors <==> c.roleId.None?
    ensures NameNotEmpty in errors <==> IsBlank(c.name)
  {
    (if c.roleId.None? then [RoleIdNotEmpty] else [])
    + (if IsBlank(c.name) then [NameNotEmpty] else [])
  }

  /** Replaces name and description, then reconciles the permissions with the requested codes:
      two events are recorded, info first. A repeated code (requested or held) fails the
      reconciliation after the info update, which has then already happened. */
  method UpdateRoleInfo(roles: map<RoleId, Role>, c: UpdateRoleInfoCommand) returns (reply: Reply<()>)
    modifies LoadedRole(roles, c.roleId)`name, LoadedRole(roles, c.roleId)`description,
             LoadedRole(roles, c.roleId)`permissions, LoadedRole(roles, c.roleId)`events
    ensures ValidateUpdateRoleInfo(c) != [] ==> reply == Invalid(ValidateUpdateRoleInfo(c))
    ensures ValidateUpdateRoleInfo(c) == [] && !old(RoleVisible(roles, c.roleId.value)) ==>
              reply == Failed(RoleNotFound(c.roleId.value))
    ensures ValidateUpdateRoleInfo(c) == [] && old(RoleVisible(roles, c.roleId.value)) ==>
              var r := roles[c.roleId.value];
              r.name == c.name && r.description == c.description
              && (DistinctKeys(old(r.permissions), CodeOf) && DistinctKeys(PermissionsFromCodes(c.permissionCodes), CodeOf) ==>
                    reply == Done(())
                    && r.permissions == Reconciled(old(r.permissions), PermissionsFromCodes(c.permissionCodes), CodeOf)
                    && r.events == old(r.events) + [RoleInfoChanged, RolePermissionChanged])
              && (!DistinctKeys(old(r.permissions), CodeOf) || !DistinctKeys(PermissionsFromCodes(c.permissionCodes), CodeOf) ==>
                    reply == Failed(DuplicateKey)
                    && r.permissions == old(r.permissions) && r.events == old(r.events) + [RoleInfoChanged])
  {
    var errors := ValidateUpdateRoleInfo(c);
    if errors != [] {
      return Invalid(errors);
    }
    var id := c.roleId.value;
    if !(id in roles && !roles[id].isDeleted) {
      return Failed(RoleNotFound(id));
    }
    var role := roles[id];
    role.UpdateRoleInfo(c.name, c.description);
    var outcome := role.UpdateRolePermissions(PermissionsFromCodes(c.permissionCodes));
    if outcome.Fail? {
      return Failed(outcome.error);
    }
    return Done(());
  }

  /** After a successful update the role holds a permission code exactly when the command
      requested it. */
  lemma {:induction false} UpdatedRoleCodes(current: seq<RolePermission>, codes: seq<string>, code: string)
    ensures code in KeysOf(Reconciled(current, PermissionsFromCodes(codes), CodeOf), CodeOf) <==> code in codes
  {
    ReconciledKeys(current, PermissionsFromCodes(codes), CodeOf);
    PermissionsFromCodesKeys(codes);
  }
}
