/** The OrganizationUnit aggregate: a unit of the organisation chart with a parent id, a sort
    order, activity and soft-delete flags, and an in-memory list of child units (not persisted).
    The ghost footprint `Repr` holds the unit and every unit reachable through `children`;
    `Valid` says that no unit is its own descendant, which is what makes the recursive
    `GetAllChildren` terminate. */
module OrganizationUnitAggregate {
  import opened Wrappers
  import opened Calendar
  import opened Reconciliation

  type OrganizationUnitId = int

  const UnitAlreadyActive := "组织架构已经是激活状态"
  const UnitAlreadyInactive := "组织架构已经被停用"
  const UnitAlreadyDeleted := "组织架构已经被删除"
  const ChildRequired := "子组织架构不能为空"

  datatype OrganizationUnitEvent = OrganizationUnitInfoChanged

  class OrganizationUnit {
    const id: OrganizationUnitId
    var name: string
    var description: string
    var parentId: OrganizationUnitId
    var sortOrder: int
    const createdAt: Time
    var isActive: bool
    var isDeleted: bool
    var deletedAt: Option<Time>
    var updateTime: Time
    var children: seq<OrganizationUnit>
    ghost var events: seq<OrganizationUnitEvent>
    ghost var Repr: set<OrganizationUnit>

    /** The child structure is acyclic: every child lies in the footprint, its own footprint is
        part of this one and does not contain this unit. */
    ghost predicate Valid()
      reads this`children, this`Repr, Repr`children, Repr`Repr
      decreases Repr
    {
      this in Repr
      && forall c :: c in children ==>
           c in Repr && c.Repr <= Repr && this !in c.Repr && c.Valid()
    }

    /** A new unit is active, not deleted, has no deletion time and no children. */
    constructor (id: OrganizationUnitId, name: string, description: string,
                 parentId: OrganizationUnitId, sortOrder: int, now: Time, utcNow: Time)
      ensures this.id == id && this.name == name && this.description == description
      ensures this.parentId == parentId && this.sortOrder == sortOrder
      ensures createdAt == now && updateTime == utcNow
      ensures isActive && !isDeleted && deletedAt == None
      ensures children == [] && events == []
      ensures Valid() && Repr == {this}
    {
      this.id := id;
      this.name := name;
      this.description := description;
      this.parentId := parentId;
      this.sortOrder := sortOrder;
      createdAt := now;
      isActive := true;
      isDeleted := false;
      deletedAt := None;
      updateTime := utcNow;
      children := [];
      events := [];
      Repr := {this};
    }

    /** Overwrites exactly the four info fields, refreshes the update time and records one
        `OrganizationUnitInfoChanged` event. */
    method UpdateInfo(name: string, description: string, parentId: OrganizationUnitId,
                      sortOrder: int, utcNow: Time)
      modifies this`name, this`description, this`parentId, this`sortOrder, this`updateTime,
               this`events
      ensures this.name == name && this.description == description
      ensures this.parentId == parentId && this.sortOrder == sortOrder
      ensures updateTime == utcNow
      ensures events == old(events) + [OrganizationUnitInfoChanged]
    {
      this.name := name;
      this.description := description;
      this.parentId := parentId;
      this.sortOrder := sortOrder;
      updateTime := utcNow;
      events := events + [OrganizationUnitInfoChanged];
    }

    method Activate(utcNow: Time) returns (outcome: Outcome)
      modifies this`isActive, this`updateTime
      ensures old(isActive) ==> outcome == Fail(UnitAlreadyActive)
                                && isActive && updateTime == old(updateTime)
      ensures !old(isActive) ==> outcome == Pass && isActive && updateTime == utcNow
    {
      if isActive {
        return Fail(UnitAlreadyActive);
      }
      isActive := true;
      updateTime := utcNow;
      return Pass;
    }

    method Deactivate(utcNow: Time) returns (outcome: Outcome)
      modifies this`isActive, this`updateTime
      ensures !old(isActive) ==> outcome == Fail(UnitAlreadyInactive)
                                 && !isActive && updateTime == old(updateTime)
      ensures old(isActive) ==> outcome == Pass && !isActive && updateTime == utcNow
    {
      if !isActive {
        return Fail(UnitAlreadyInactive);
      }
      isActive := false;
      updateTime := utcNow;
      return Pass;
    }

    /** Soft-deletes the unit once: a second call fails. The activity flag is left alone. */
    method Delete(utcNow: Time) returns (outcome: Outcome)
      modifies this`isDeleted, this`deletedAt, this`updateTime
      ensures isDeleted
      ensures old(isDeleted) ==> outcome == Fail(UnitAlreadyDeleted)
                                 && deletedAt == old(deletedAt) && updateTime == old(updateTime)
      ensures !old(isDeleted) ==> outcome == Pass && deletedAt == Some(utcNow) && updateTime == utcNow
    {
      if isDeleted {
        return Fail(UnitAlreadyDeleted);
      }
      isDeleted := true;
      deletedAt := Some(utcNow);
      updateTime := utcNow;
      return Pass;
    }

    /** Appends `child`; a missing child is refused. Adding a valid unit that does not contain
        this one keeps the structure acyclic. */
    method AddChild(child: OrganizationUnit?) returns (outcome: Outcome)
      modifies this`children, this`Repr
      ensures child == null ==> outcome == Fail(ChildRequired)
                                && children == old(children) && Repr == old(Repr)
      ensures child != null ==> outcome == Pass && children == old(children) + [child]
      ensures child != null && old(Valid()) && child.Valid() && this !in child.Repr ==>
                Valid() && Repr == old(Repr) + child.Repr
    {
      if child == null {
        return Fail(ChildRequired);
      }
      children := children + [child];
      Repr := Repr + child.Repr;
      return Pass;
    }

    /** Removes the first occurrence of `child` (if present); a missing child is refused.
        Removal keeps the structure acyclic. */
    method RemoveChild(child: OrganizationUnit?) returns (outcome: Outcome)
      modifies this`children
      ensures child == null ==> outcome == Fail(ChildRequired) && children == old(children)
      ensures child != null ==> outcome == Pass && children == RemoveFirst(old(children), child as OrganizationUnit)
      ensures old(Valid()) ==> Valid()
    {
      if child == null {
        return Fail(ChildRequired);
      }
      var present: OrganizationUnit := child;
      children := RemoveFirst(children, present);
      return Pass;
    }

    /** The first `n` children, each followed by its own descendants. */
    ghost function DescendantsOfFirst(n: nat): (units: seq<OrganizationUnit>)
      requires Valid() && n <= |children|
      reads this`children, this`Repr, Repr`children, Repr`Repr
      ensures forall i :: 0 <= i < |units| ==> units[i] in Repr && units[i] != this
      decreases Repr, n
    {
      if n == 0 then []
      else DescendantsOfFirst(n - 1) + [children[n - 1]] + children[n - 1].Descendants()
    }

    /** All units below this one, in pre-order: each child, then that child's descendants. */
    ghost function Descendants(): (units: seq<OrganizationUnit>)
      requires Valid()
      reads this`children, this`Repr, Repr`children, Repr`Repr
      ensures forall i :: 0 <= i < |units| ==> units[i] in Repr && units[i] != this
      decreases Repr
    {
      DescendantsOfFirst(|children|)
    }

    /** Collects every descendant of this unit in pre-order. */
    method GetAllChildren() returns (result: seq<OrganizationUnit>)
      requires Valid()
      ensures result == Descendants()
      decreases Repr
    {
      result := [];
      var i := 0;
      while i < |children|
        invariant 0 <= i <= |children|
        invariant result == DescendantsOfFirst(i)
      {
        var child := children[i];
        var below := child.GetAllChildren();
        result := result + [child] + below;
        i := i + 1;
      }
    }

    /** The path of a unit is its own name; ancestors are not included. */
    function GetPath(): (path: string)
      reads this`name
      ensures path == name
    {
      name
    }
  }
}
