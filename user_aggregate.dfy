/** The User aggregate: a user, the roles it holds (`UserRole`, updated in place), its single
    organisation-unit assignment and its refresh tokens. Identifiers are the persisted ids of
    the strongly-typed id records; the clock reads of the source are parameters. */
module UserAggregate {
  import opened Wrappers
  import opened Calendar
  import opened Reconciliation

  type UserId = int
  type RoleId = int
  type OrganizationUnitId = int

  const OrganizationUnitRequired := "组织架构不能为空"

  /** A role held by a user: a copy of the role's id and name. */
  class UserRole {
    var userId: Option<UserId>
    const roleId: RoleId
    var roleName: string

    constructor (roleId: RoleId, roleName: string)
      ensures this.roleId == roleId && this.roleName == roleName
      ensures userId == None
    {
      this.roleId := roleId;
      this.roleName := roleName;
      userId := None;
    }

    method UpdateRoleInfo(roleName: string)
      modifies this`roleName
      ensures this.roleName == roleName
    {
      this.roleName := roleName;
    }
  }

  /** The key by which roles are reconciled. */
  function RoleIdOf(r: UserRole): RoleId {
    r.roleId
  }

  /** A user's assignment to one organisation unit (immutable once built). */
  datatype UserOrganizationUnit = UserOrganizationUnit(
    userId: UserId,
    organizationUnitId: OrganizationUnitId,
    organizationUnitName: string,
    assignedAt: Time)

  /** `User.CalculateAge`: the year difference, less one when `birthDate` lies after `today`
      moved back by that difference. */
  function CalculateAge(birthDate: Date, today: Date): int
    requires ValidDate(today)
  {
    var age := today.year - birthDate.year;
    if Before(AddYears(today, -age), birthDate) then age - 1 else age
  }

  /** The age is the year difference, minus one exactly when the birthday (month and day) is
      still ahead of today's month and day. */
  lemma CalculateAgeYears(birthDate: Date, today: Date)
    requires ValidDate(birthDate) && ValidDate(today)
    ensures CalculateAge(birthDate, today)
            == today.year - birthDate.year - (if MonthDayAfter(birthDate, today) then 1 else 0)
  {
    var back := AddYears(today, -(today.year - birthDate.year));
    assert back.year == birthDate.year;
    if back.day != today.day {
      assert birthDate.month == 2 ==> birthDate.day <= 28;
    }
  }

  /** Someone born no later than today has a non-negative age. */
  lemma CalculateAgeNonNegative(birthDate: Date, today: Date)
    requires ValidDate(birthDate) && ValidDate(today)
    requires !Before(today, birthDate)
    ensures CalculateAge(birthDate, today) >= 0
  {
    CalculateAgeYears(birthDate, today);
  }

  /** Index of the first role in `roles` with the given id (`FirstOrDefault`). */
  function FirstRoleIndex(roles: seq<UserRole>, roleId: RoleId): (r: Option<nat>)
    ensures r.None? <==> forall i :: 0 <= i < |roles| ==> roles[i].roleId != roleId
    ensures r.Some? ==> r.value < |roles| && roles[r.value].roleId == roleId
                        && forall i :: 0 <= i < r.value ==> roles[i].roleId != roleId
  {
    if roles == [] then None
    else if roles[0].roleId == roleId then Some(0)
    else match FirstRoleIndex(roles[1..], roleId)
      case None => None
      case Some(k) => Some(k + 1)
  }

  class User {
    const id: UserId
    /** Set at creation and never changed by any operation of the aggregate. */
    const isActive: bool
    const createdAt: Time
    var name: string
    var email: string
    var phone: string
    var realName: string
    var status: int
    var passwordHash: string
    var lastLoginTime: Option<Time>
    var updateTime: Time
    var isDeleted: bool
    var deletedAt: Time
    var gender: string
    var age: int
    var birthDate: Date
    var roles: seq<UserRole>
    var organizationUnit: Option<UserOrganizationUnit>
    var refreshTokens: seq<string>

    /** A new user holds the given roles in order, is active and not deleted, has no
        organisation unit and no refresh token, and its age is computed from `birthDate`.
        `id` is the identity the persistence layer assigns. */
    constructor (id: UserId, name: string, phone: string, password: string, roles: seq<UserRole>,
                 realName: string, status: int, email: string, gender: string, birthDate: Date,
                 now: Time, utcNow: Time, today: Date)
      requires ValidDate(today)
      ensures this.id == id && this.name == name && this.phone == phone
      ensures passwordHash == password && this.realName == realName && this.status == status
      ensures this.email == email && this.gender == gender && this.birthDate == birthDate
      ensures age == CalculateAge(birthDate, today)
      ensures this.roles == roles && organizationUnit == None && refreshTokens == []
      ensures isActive && !isDeleted && createdAt == now && lastLoginTime == None
      ensures updateTime == utcNow && deletedAt == utcNow
    {
      this.id := id;
      this.name := name;
      this.email := email;
      this.phone := phone;
      this.realName := realName;
      this.status := status;
      passwordHash := password;
      isActive := true;
      createdAt := now;
      lastLoginTime := None;
      updateTime := utcNow;
      isDeleted := false;
      deletedAt := utcNow;
      this.gender := gender;
      age := CalculateAge(birthDate, today);
      this.birthDate := birthDate;
      this.roles := roles;
      organizationUnit := None;
      refreshTokens := [];
    }

    /** Marks the user deleted; the deletion time keeps its earlier value. */
    method SoftDelete()
      modifies this`isDeleted
      ensures isDeleted
    {
      isDeleted := true;
    }

    /** Replaces the password hash without touching the update time. */
    method PasswordReset(password: string)
      modifies this`passwordHash
      ensures passwordHash == password
    {
      passwordHash := password;
    }

    /** Appends exactly one refresh token. */
    method SetUserRefreshToken(refreshToken: string)
      modifies this`refreshTokens
      ensures refreshTokens == old(refreshTokens) + [refreshToken]
    {
      refreshTokens := refreshTokens + [refreshToken];
    }

    method UpdateLastLoginTime(loginTime: Time, utcNow: Time)
      modifies this`lastLoginTime, this`updateTime
      ensures lastLoginTime == Some(loginTime) && updateTime == utcNow
    {
      lastLoginTime := Some(loginTime);
      updateTime := utcNow;
    }

    /** Replaces the single organisation-unit assignment; a missing one is refused and
        nothing changes. */
    method AssignOrganizationUnit(organizationUnit: Option<UserOrganizationUnit>)
      returns (outcome: Outcome)
      modifies this`organizationUnit
      ensures organizationUnit.None? ==> outcome == Fail(OrganizationUnitRequired)
                                          && this.organizationUnit == old(this.organizationUnit)
      ensures organizationUnit.Some? ==> outcome == Pass
                                          && this.organizationUnit == organizationUnit
    {
      if organizationUnit.None? {
        return Fail(OrganizationUnitRequired);
      }
      this.organizationUnit := organizationUnit;
      return Pass;
    }

    /** Overwrites the profile fields and recomputes the age from the new birth date. */
    method UpdateUserInfo(name: string, phone: string, realName: string, status: int,
                          email: string, gender: string, birthDate: Date, today: Date)
      requires ValidDate(today)
      modifies this`name, this`phone, this`realName, this`status, this`email, this`gender,
               this`age, this`birthDate
      ensures this.name == name && this.phone == phone && this.realName == realName
      ensures this.status == status && this.email == email && this.gender == gender
      ensures age == CalculateAge(birthDate, today) && this.birthDate == birthDate
    {
      this.name := name;
      this.phone := phone;
      this.realName := realName;
      this.status := status;
      this.email := email;
      this.gender := gender;
      age := CalculateAge(birthDate, today);
      this.birthDate := birthDate;
    }

    /** Renames the first held role with `roleId`; every other role keeps its name, and the
        list of roles itself is not touched. */
    method UpdateRoleInfo(roleId: RoleId, roleName: string)
      modifies roles`roleName
      ensures forall r :: r in roles ==>
                r.roleName == (if FirstRoleIndex(roles, roleId).Some?
                                  && r == roles[FirstRoleIndex(roles, roleId).value]
                               then roleName else old(r.roleName))
    {
      var found := FirstRoleIndex(roles, roleId);
      if found.Some? {
        roles[found.value].UpdateRoleInfo(roleName);
      }
    }

    /** Stores a new password hash and refreshes the update time, unless the hash is empty. */
    method UpdatePassword(newPasswordHash: string, utcNow: Time)
      modifies this`passwordHash, this`updateTime
      ensures newPasswordHash == "" ==>
                passwordHash == old(passwordHash) && updateTime == old(updateTime)
      ensures newPasswordHash != "" ==> passwordHash == newPasswordHash && updateTime == utcNow
    {
      if newPasswordHash != "" {
        passwordHash := newPasswordHash;
        updateTime := utcNow;
      }
    }

    /** Reconciles the held roles with `rolesToBeAssigned` by role id: roles whose id is no
        longer wanted are removed, roles with a new id are appended, held roles are kept as
        they are, so the held ids become exactly the wanted ones, each once. A repeated role id
        in either list fails before anything changes. */
    method UpdateRoles(rolesToBeAssigned: seq<UserRole>) returns (outcome: Outcome)
      modifies this`roles
      ensures !DistinctKeys(old(roles), RoleIdOf) || !DistinctKeys(rolesToBeAssigned, RoleIdOf) ==>
                outcome == Fail(DuplicateKey) && roles == old(roles)
      ensures DistinctKeys(old(roles), RoleIdOf) && DistinctKeys(rolesToBeAssigned, RoleIdOf) ==>
                outcome == Pass && roles == Reconciled(old(roles), rolesToBeAssigned, RoleIdOf)
                && KeysOf(roles, RoleIdOf) == KeysOf(rolesToBeAssigned, RoleIdOf)
                && DistinctKeys(roles, RoleIdOf)
                && (forall r :: r in old(roles) && r.roleId in KeysOf(rolesToBeAssigned, RoleIdOf) ==> r in roles)
                && (forall r :: r in roles ==> r in old(roles) || r in rolesToBeAssigned)
    {
      if !DistinctKeys(roles, RoleIdOf) || !DistinctKeys(rolesToBeAssigned, RoleIdOf) {
        return Fail(DuplicateKey);
      }
      var current := roles;
      RemoveRoles(KeysOf(rolesToBeAssigned, RoleIdOf));
      AddRoles(rolesToBeAssigned, KeysOf(current, RoleIdOf));
      ReconciledKeys<UserRole, RoleId>(current, rolesToBeAssigned, RoleIdOf);
      ReconciledDistinct<UserRole, RoleId>(current, rolesToBeAssigned, RoleIdOf);
      forall r | r in current && r.roleId in KeysOf(rolesToBeAssigned, RoleIdOf) ensures r in roles {
        ReconciledMembers<UserRole, RoleId>(current, rolesToBeAssigned, RoleIdOf, r);
      }
      forall r | r in roles ensures r in current || r in rolesToBeAssigned {
        ReconciledMembers<UserRole, RoleId>(current, rolesToBeAssigned, RoleIdOf, r);
      }
      return Pass;
    }

    /** The removal loop of `UpdateRoles`: drops every held role whose id is not in
        `keysToKeep`, in the order the roles are held. */
    method RemoveRoles(keysToKeep: set<RoleId>)
      requires DistinctKeys(roles, RoleIdOf)
      modifies this`roles
      ensures roles == Keep(old(roles), RoleIdOf, keysToKeep)
    {
      var current := roles;
      var i := 0;
      while i < |current|
        invariant 0 <= i <= |current|
        invariant roles == Keep(current[..i], RoleIdOf, keysToKeep) + current[i..]
      {
        RemovalStep(current, i, RoleIdOf, keysToKeep);
        if RoleIdOf(current[i]) !in keysToKeep {
          roles := RemoveFirst(roles, current[i]);
        }
        i := i + 1;
      }
      assert current[..i] == current;
    }

    /** The addition loop of `UpdateRoles`: appends, in target order, every target role whose
        id is not in `heldKeys`. */
    method AddRoles(target: seq<UserRole>, heldKeys: set<RoleId>)
      modifies this`roles
      ensures roles == old(roles) + Drop(target, RoleIdOf, heldKeys)
    {
      ghost var start := roles;
      var j := 0;
      while j < |target|
        invariant 0 <= j <= |target|
        invariant roles == start + Drop(target[..j], RoleIdOf, heldKeys)
      {
        AdditionStep(target, j, RoleIdOf, heldKeys);
        if RoleIdOf(target[j]) !in heldKeys {
          roles := roles + [target[j]];
          assert roles == start + (Drop(target[..j], RoleIdOf, heldKeys) + [target[j]]);
        }
        j := j + 1;
      }
      assert target[..j] == target;
    }
  }
}
