/** The organisation-unit commands and the commands that attach a user to a unit. The unit
    repository is a map from id to the loaded aggregate read through the soft-delete filter: a
    unit marked deleted is neither found nor counted as existing. */
module OrganizationUnitCommands {
  import opened Wrappers
  import opened Calendar
  import opened Text
  import opened UserAggregate
  import opened OrganizationUnitAggregate
  import opened UserCommands

  const UnitIdRequired := "组织架构ID不能为空"
  const UnitNameRequired := "组织架构名称不能为空"
  const UnitMissing := "组织架构不存在"
  const DescriptionTooLong := "组织架构描述长度不能超过200个字符"
  const ParentMissing := "父级组织架构不存在"
  const SelfParent := "不能将自己设置为父级组织架构"
  const MaxDescriptionLength := 200

  function NameTakenMessage(name: string): string {
    "该组织架构已存在，Name=" + name
  }

  function UnitNotFound(id: OrganizationUnitId): string {
    "未找到组织架构，Id = " + DecimalText(id)
  }

  /** `GetAsync` / `DoesOrganizationUnitExist(id)`: present and not soft-deleted. */
  predicate UnitVisible(units: map<OrganizationUnitId, OrganizationUnit>, id: OrganizationUnitId)
    reads units.Values
  {
    id in units && !units[id].isDeleted
  }

  /** `DoesOrganizationUnitExist(name)`: some unit that is not deleted has a name equal to
      `name` under the database's collation. */
  predicate NameTaken(units: map<OrganizationUnitId, OrganizationUnit>, collation: Collation, name: string)
    reads units.Values
  {
    exists id :: id in units && !units[id].isDeleted && Collates(collation, units[id].name, name)
  }

  /** The parent rule shared by create and update: 0 (a root) or a unit that exists. */
  predicate ParentAcceptable(units: map<OrganizationUnitId, OrganizationUnit>, parentId: OrganizationUnitId)
    reads units.Values
  {
    parentId == 0 || UnitVisible(units, parentId)
  }

  /** The unit a command with this id loads, as a frame. */
  function LoadedUnit(units: map<OrganizationUnitId, OrganizationUnit>, id: Option<OrganizationUnitId>): set<OrganizationUnit>
    reads units.Values
  {
    if id.Some? && UnitVisible(units, id.value) then {units[id.value]} else {}
  }

  // ---------------------------------------------------------------- CreateOrganizationUnitCommand

  datatype CreateOrganizationUnitCommand = CreateOrganizationUnitCommand(
    name: string, description: string, parentId: OrganizationUnitId, sortOrder: int)

  /** The rules of the create command, in order; the name is checked against the stored
      units under the database's collation. */
  function ValidateCreate(units: map<OrganizationUnitId, OrganizationUnit>, collation: Collation,
                          c: CreateOrganizationUnitCommand): (errors: seq<string>)
    reads units.Values
    ensures errors == [] <==>
              !IsBlank(c.name) && |c.description| <= MaxDescriptionLength
              && !NameTaken(units, collation, c.name) && ParentAcceptable(units, c.parentId)
    ensures NameTaken(units, collation, c.name) ==> NameTakenMessage(c.name) in errors
  {
    (if IsBlank(c.name) then [UnitNameRequired] else [])
    + (if |c.description| > MaxDescriptionLength then [DescriptionTooLong] else [])
    + (if NameTaken(units, collation, c.name) then [NameTakenMessage(c.name)] else [])
    + (if !ParentAcceptable(units, c.parentId) then [ParentMissing] else [])
  }

  /** Adds exactly one new, active unit with the command's fields under the id the database
      assigns (`newId`), and returns that id; every unit already stored stays as it was. */
  method CreateOrganizationUnit(units: map<OrganizationUnitId, OrganizationUnit>, collation: Collation,
                                c: CreateOrganizationUnitCommand,
                                newId: OrganizationUnitId, now: Time, utcNow: Time)
    returns (reply: Reply<OrganizationUnitId>, stored: map<OrganizationUnitId, OrganizationUnit>)
    requires newId !in units
    ensures ValidateCreate(units, collation, c) != [] ==> reply == Invalid(ValidateCreate(units, collation, c)) && stored == units
    ensures ValidateCreate(units, collation, c) == [] ==>
              reply == Done(newId) && stored.Keys == units.Keys + {newId}
              && (forall id :: id in units ==> stored[id] == units[id])
              && fresh(stored[newId]) && stored[newId].id == newId
              && stored[newId].name == c.name && stored[newId].description == c.description
              && stored[newId].parentId == c.parentId && stored[newId].sortOrder == c.sortOrder
              && stored[newId].isActive && !stored[newId].isDeleted
  {
    var errors := ValidateCreate(units, collation, c);
    if errors != [] {
      return Invalid(errors), units;
    }
    var unit := new OrganizationUnit(newId, c.name, c.description, c.parentId, c.sortOrder, now, utcNow);
    return Done(unit.id), units[newId := unit];
  }

  // ---------------------------------------------------------------- UpdateOrganizationUnitCommand

  datatype UpdateOrganizationUnitCommand = UpdateOrganizationUnitCommand(
    id: Option<OrganizationUnitId>, name: string, description: string, parentId: OrganizationUnitId, sortOrder: int)

  function ValidateUpdate(units: map<OrganizationUnitId, OrganizationUnit>, c: UpdateOrganizationUnitCommand): (errors: seq<string>)
    reads units.Values
    ensures errors == [] <==>
              c.id.Some? && !IsBlank(c.name) && |c.description| <= MaxDescriptionLength
              && ParentAcceptable(units, c.parentId) && c.parentId != c.id.value
    ensures SelfParent in errors <==> c.id == Some(c.parentId)
  {
    (if c.id.None? then [UnitIdRequired] else [])
    + (if IsBlank(c.name) then [UnitNameRequired] else [])
    + (if |c.description| > MaxDescriptionLength then [DescriptionTooLong] else [])
    + (if !ParentAcceptable(units, c.parentId) then [ParentMissing] else [])
    + (if c.id == Some(c.parentId) then [SelfParent] else [])
  }

  /** Only a unit naming itself as parent is refused: any other existing unit is accepted as
      the new parent, even one below the unit being moved, so longer cycles get through. */
  lemma UpdateAcceptsAnyOtherParent(units: map<OrganizationUnitId, OrganizationUnit>, c: UpdateOrganizationUnitCommand)
    requires c.id.Some? && !IsBlank(c.name) && |c.description| <= MaxDescriptionLength
    requires UnitVisible(units, c.parentId) && c.parentId != c.id.value
    ensures ValidateUpdate(units, c) == []
  {
  }

  /** Overwrites exactly the four info fields of the unit (name uniqueness is not checked
      again) and records one info-changed event. */
  method UpdateOrganizationUnit(units: map<OrganizationUnitId, OrganizationUnit>, c: UpdateOrganizationUnitCommand, utcNow: Time)
    returns (reply: Reply<()>)
    modifies LoadedUnit(units, c.id)`name, LoadedUnit(units, c.id)`description,
             LoadedUnit(units, c.id)`parentId, LoadedUnit(units, c.id)`sortOrder,
             LoadedUnit(units, c.id)`updateTime, LoadedUnit(units, c.id)`events
    ensures old(ValidateUpdate(units, c)) != [] ==> reply == Invalid(old(ValidateUpdate(units, c)))
    ensures old(ValidateUpdate(units, c)) == [] && !old(UnitVisible(units, c.id.value)) ==>
              reply == Failed(UnitNotFound(c.id.value))
    ensures old(ValidateUpdate(units, c)) == [] && old(UnitVisible(units, c.id.value)) ==>
              var u := units[c.id.value];
              reply == Done(()) && u.name == c.name && u.description == c.description
              && u.parentId == c.parentId && u.sortOrder == c.sortOrder && u.updateTime == utcNow
              && u.events == old(u.events) + [OrganizationUnitInfoChanged]
  {
    var errors := ValidateUpdate(units, c);
    if errors != [] {
      return Invalid(errors);
    }
    var id := c.id.value;
    if !(id in units && !units[id].isDeleted) {
      return Failed(UnitNotFound(id));
    }
    var unit := units[id];
    unit.UpdateInfo(c.name, c.description, c.parentId, c.sortOrder, utcNow);
    return Done(());
  }

  // ---------------------------------------------------------------- DeleteOrganizationUnitCommand

  datatype DeleteOrganizationUnitCommand = DeleteOrganizationUnitCommand(id: Option<OrganizationUnitId>)

  /** Soft-deletes the unit, root units included; its children and the users assigned to it are
      not touched. Afterwards the unit is no longer found, so deleting it again fails. */
  method DeleteOrganizationUnit(units: map<OrganizationUnitId, OrganizationUnit>, c: DeleteOrganizationUnitCommand, utcNow: Time)
    returns (reply: Reply<()>)
    modifies LoadedUnit(units, c.id)`isDeleted, LoadedUnit(units, c.id)`deletedAt,
             LoadedUnit(units, c.id)`updateTime
    ensures c.id.None? ==> reply == Invalid([UnitIdRequired])
    ensures c.id.Some? && !old(UnitVisible(units, c.id.value)) ==> reply == Failed(UnitNotFound(c.id.value))
    ensures c.id.Some? && old(UnitVisible(units, c.id.value)) ==>
              reply == Done(()) && units[c.id.value].deletedAt == Some(utcNow)
              && units[c.id.value].updateTime == utcNow
    ensures c.id.Some? ==> !UnitVisible(units, c.id.value)
  {
    if c.id.None? {
      return Invalid([UnitIdRequired]);
    }
    var id := c.id.value;
    if !(id in units && !units[id].isDeleted) {
      return Failed(UnitNotFound(id));
    }
    var unit := units[id];
    var outcome := unit.Delete(utcNow);
    return Done(());
  }

  // ---------------------------------------------------------------- AssignUserOrganizationUnitCommand

  datatype AssignUserOrganizationUnitCommand = AssignUserOrganizationUnitCommand(
    userId: Option<UserId>, organizationUnitId: Option<OrganizationUnitId>, organizationUnitName: string)

  function ValidateAssign(users: map<UserId, User>, units: map<OrganizationUnitId, OrganizationUnit>,
                          c: AssignUserOrganizationUnitCommand): (errors: seq<string>)
    reads units.Values
    ensures errors == [] <==>
              c.userId.Some? && c.userId.value in users && !IsBlank(c.organizationUnitName)
              && c.organizationUnitId.Some? && UnitVisible(units, c.organizationUnitId.value)
  {
    (if c.userId.None? then [UserIdRequired] else [])
    + (if c.organizationUnitId.None? then [UnitIdRequired] else [])
    + (if IsBlank(c.organizationUnitName) then [UnitNameRequired] else [])
    + (if !(c.userId.Some? && c.userId.value in users) then [UserMissing] else [])
    + (if !(c.organizationUnitId.Some? && UnitVisible(units, c.organizationUnitId.value)) then [UnitMissing] else [])
  }

  /** Replaces the user's single assignment by one for the requested unit, its name and the
      user's id. */
  method AssignUserOrganizationUnit(users: map<UserId, User>, units: map<OrganizationUnitId, OrganizationUnit>,
                                    c: AssignUserOrganizationUnitCommand, utcNow: Time)
    returns (reply: Reply<()>)
    modifies Loaded(users, c.userId)`organizationUnit
    ensures ValidateAssign(users, units, c) != [] ==> reply == Invalid(ValidateAssign(users, units, c))
    ensures ValidateAssign(users, units, c) == [] ==>
              reply == Done(())
              && users[c.userId.value].organizationUnit
                 == Some(UserOrganizationUnit(c.userId.value, c.organizationUnitId.value, c.organizationUnitName, utcNow))
  {
    var errors := ValidateAssign(users, units, c);
    if errors != [] {
      return Invalid(errors);
    }
    var user := users[c.userId.value];
    var assignment := UserOrganizationUnit(c.userId.value, c.organizationUnitId.value, c.organizationUnitName, utcNow);
    var outcome := user.AssignOrganizationUnit(Some(assignment));
    return Done(());
  }

  // ---------------------------------------------------------------- RemoveUserOrganizationUnitCommand

  datatype RemoveUserOrganizationUnitCommand = RemoveUserOrganizationUnitCommand(userId: Option<UserId>)

  function ValidateRemove(users: map<UserId, User>, c: RemoveUserOrganizationUnitCommand): (errors: seq<string>)
    ensures errors == [] <==> c.userId.Some? && c.userId.value in users
  {
    (if c.userId.None? then [UserIdRequired] else [])
    + (if !(c.userId.Some? && c.userId.value in users) then [UserMissing] else [])
  }

  /** Looks the user up and changes nothing: the assignment is not removed. */
  method RemoveUserOrganizationUnit(users: map<UserId, User>, c: RemoveUserOrganizationUnitCommand)
    returns (reply: Reply<()>)
    ensures ValidateRemove(users, c) != [] ==> reply == Invalid(ValidateRemove(users, c))
    ensures ValidateRemove(users, c) == [] ==> reply == Done(())
  {
    var errors := ValidateRemove(users, c);
    if errors != [] {
      return Invalid(errors);
    }
    // The handler's own not-found branch cannot be reached once the validator has passed.
    return Done(());
  }
}
