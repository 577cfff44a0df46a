/** Read side of organisation units: existence checks, the filtered list and the organisation
    chart (a forest built from the flat table, then converted to tree DTOs). Every query sees the
    table through the soft-delete filter, so deleted units never appear. Unit ids are positive
    database keys; 0 is the parent id of a root and never the id of a unit. */
module OrganizationUnitQuery {
  import opened Wrappers
  import opened Calendar
  import opened Text
  import opened Enumerable
  import opened Reconciliation

  /** A row of the organisation-unit table (`OrganizationUnitQueryDto` plus the delete flag). */
  datatype UnitRow = UnitRow(
    id: int, name: string, description: string, parentId: int, sortOrder: int,
    isActive: bool, createdAt: Time, deletedAt: Option<Time>, isDeleted: bool)

  function IdOf(u: UnitRow): int { u.id }
  function SortOrderOf(u: UnitRow): int { u.sortOrder }

  /** The global query filter `!IsDeleted`. */
  function Visible(table: seq<UnitRow>): (r: seq<UnitRow>)
    ensures forall u :: u in r <==> u in table && !u.isDeleted
  {
    Where(table, (u: UnitRow) => !u.isDeleted)
  }

  /** `DoesOrganizationUnitExist(name)`: the name is compared under the database's collation. */
  function ExistsWithName(table: seq<UnitRow>, collation: Collation, name: string): (found: bool)
    ensures found <==> exists i :: 0 <= i < |table| && !table[i].isDeleted && Collates(collation, table[i].name, name)
  {
    var matching := Where(Visible(table), (u: UnitRow) => Collates(collation, u.name, name));
    assert matching != [] ==> matching[0] in Visible(table);
    matching != []
  }

  /** `DoesOrganizationUnitExist(id)`. */
  function ExistsWithId(table: seq<UnitRow>, id: int): (found: bool)
    ensures found <==> exists i :: 0 <= i < |table| && !table[i].isDeleted && table[i].id == id
  {
    var matching := Where(Visible(table), (u: UnitRow) => u.id == id);
    assert matching != [] ==> matching[0] in Visible(table);
    matching != []
  }

  /** `OrganizationUnitQueryInput`: each filter is optional. */
  datatype UnitQueryInput = UnitQueryInput(
    name: Option<string>, description: Option<string>, isActive: Option<bool>, parentId: Option<int>)

  /** The filters of `GetAllOrganizationUnitsAsync`, each one applied only when supplied
      (a blank name or description counts as not supplied); name and description are matched
      by a `LIKE` under the database's collation. */
  predicate MatchesInput(u: UnitRow, collation: Collation, input: UnitQueryInput) {
    (input.name.None? || IsBlank(input.name.value) || ContainsUnder(collation, u.name, input.name.value))
    && (input.description.None? || IsBlank(input.description.value)
        || ContainsUnder(collation, u.description, input.description.value))
    && (input.isActive.None? || u.isActive == input.isActive.value)
    && (input.parentId.None? || u.parentId == input.parentId.value)
  }

  function WhereIfName(units: seq<UnitRow>, collation: Collation, input: UnitQueryInput): (r: seq<UnitRow>)
    ensures forall u :: u in r <==>
              u in units && (input.name.None? || IsBlank(input.name.value)
                             || ContainsUnder(collation, u.name, input.name.value))
  {
    if input.name.Some? && !IsBlank(input.name.value)
    then Where(units, (u: UnitRow) => ContainsUnder(collation, u.name, input.name.value))
    else units
  }

  function WhereIfDescription(units: seq<UnitRow>, collation: Collation, input: UnitQueryInput): (r: seq<UnitRow>)
    ensures forall u :: u in r <==>
              u in units && (input.description.None? || IsBlank(input.description.value)
                             || ContainsUnder(collation, u.description, input.description.value))
  {
    if input.description.Some? && !IsBlank(input.description.value)
    then Where(units, (u: UnitRow) => ContainsUnder(collation, u.description, input.description.value))
    else units
  }

  function WhereIfActive(units: seq<UnitRow>, input: UnitQueryInput): (r: seq<UnitRow>)
    ensures forall u :: u in r <==> u in units && (input.isActive.None? || u.isActive == input.isActive.value)
  {
    if input.isActive.Some? then Where(units, (u: UnitRow) => u.isActive == input.isActive.value)
    else units
  }

  function WhereIfParent(units: seq<UnitRow>, input: UnitQueryInput): (r: seq<UnitRow>)
    ensures forall u :: u in r <==> u in units && (input.parentId.None? || u.parentId == input.parentId.value)
  {
    if input.parentId.Some? then Where(units, (u: UnitRow) => u.parentId == input.parentId.value)
    else units
  }

  /** `GetAllOrganizationUnitsAsync`: the chain of conditional filters, then `OrderBy(SortOrder)`. */
  function GetAllOrganizationUnits(table: seq<UnitRow>, collation: Collation, input: UnitQueryInput): seq<UnitRow> {
    SortBy(WhereIfParent(WhereIfActive(WhereIfDescription(WhereIfName(Visible(table), collation, input), collation, input),
                                       input), input),
           SortOrderOf)
  }

  /** The list holds exactly the visible units matching every supplied filter, ordered by sort
      order. */
  lemma GetAllOrganizationUnitsSpec(table: seq<UnitRow>, collation: Collation, input: UnitQueryInput, u: UnitRow)
    ensures u in GetAllOrganizationUnits(table, collation, input) <==>
              u in table && !u.isDeleted && MatchesInput(u, collation, input)
    ensures SortedBy(GetAllOrganizationUnits(table, collation, input), SortOrderOf)
  {
    var filtered := WhereIfParent(WhereIfActive(WhereIfDescription(WhereIfName(Visible(table), collation, input),
                                                                   collation, input), input), input);
    SortByMembers(filtered, SortOrderOf, u);
    SortBySorted(filtered, SortOrderOf);
  }
}

module OrganizationUnitTree {
  import opened Wrappers
  import opened Calendar
  import opened Enumerable
  import opened Reconciliation
  import opened OrganizationUnitQuery

  /** A unit with the child units attached by `BuildTreeDto`. */
  datatype UnitTree = UnitTree(unit: UnitRow, children: seq<UnitTree>)

  function TreeSortOrder(t: UnitTree): int { t.unit.sortOrder }

  /** The units at the top of each tree of a forest. */
  function Roots(ts: seq<UnitTree>): (us: seq<UnitRow>)
    ensures |us| == |ts| && forall i :: 0 <= i < |ts| ==> us[i] == ts[i].unit
  {
    if ts == [] then [] else [ts[0].unit] + Roots(ts[1..])
  }

  /** Every unit of a tree, in pre-order. */
  function Flatten(t: UnitTree): seq<UnitRow>
    decreases t, 1
  {
    [t.unit] + FlattenForest(t.children)
  }

  function FlattenForest(ts: seq<UnitTree>): seq<UnitRow>
    decreases ts, 0
  {
    if ts == [] then [] else Flatten(ts[0]) + FlattenForest(ts[1..])
  }

  /** The activity filter of the tree query. */
  function ActivityFilter(includeInactive: bool): UnitRow -> bool {
    (u: UnitRow) => includeInactive || u.isActive
  }

  /** The ids are unique keys and none is the root marker 0. */
  predicate WellKeyed(all: seq<UnitRow>) {
    DistinctKeys(all, IdOf) && forall i :: 0 <= i < |all| ==> all[i].id != 0
  }

  /** A chain of distinct units of `all` from a root (parent 0) down, each the parent of the
      next: the ancestors of the unit being expanded. */
  ghost predicate AncestorChain(path: seq<UnitRow>, all: seq<UnitRow>) {
    (forall i :: 0 <= i < |path| ==> path[i] in all)
    && (|path| > 0 ==> path[0].parentId == 0)
    && (forall i :: 0 < i < |path| ==> path[i].parentId == path[i - 1].id)
    && (forall i, j :: 0 <= i < j < |path| ==> path[i] != path[j])
  }

  ghost function Elements(s: seq<UnitRow>): set<UnitRow> {
    set x | x in s
  }

  /** Some unit of `units` is the parent of `x`. */
  predicate HasParentIn(x: UnitRow, units: seq<UnitRow>) {
    exists y :: y in units && y.id == x.parentId
  }

  /** `allOrganizations.Values.Where(ou => ou.ParentId == id).OrderBy(ou => ou.SortOrder)`. */
  function ChildrenOf(all: seq<UnitRow>, id: int): (cs: seq<UnitRow>)
    ensures forall i :: 0 <= i < |cs| ==> cs[i] in all && cs[i].parentId == id
    ensures forall u :: u in cs <==> u in all && u.parentId == id
    ensures SortedBy(cs, SortOrderOf)
    ensures multiset(cs) <= multiset(all)
  {
    var isChild := (u: UnitRow) => u.parentId == id;
    var matching := Where(all, isChild);
    var sorted := SortBy(matching, SortOrderOf);
    SortBySorted(matching, SortOrderOf);
    WhereSubMultiset(all, isChild);
    forall u ensures u in sorted <==> u in all && u.parentId == id {
      assert u in sorted <==> u in multiset(matching);
      WhereMembers(all, isChild, u);
    }
    sorted
  }

  lemma DistinctRowsDistinctIds(all: seq<UnitRow>, x: UnitRow, y: UnitRow)
    requires DistinctKeys(all, IdOf) && x in all && y in all && x != y
    ensures x.id != y.id
  {
    var i :| 0 <= i < |all| && all[i] == x;
    var j :| 0 <= j < |all| && all[j] == y;
    assert i != j;
    if i < j { assert IdOf(all[i]) != IdOf(all[j]); } else { assert IdOf(all[j]) != IdOf(all[i]); }
  }

  /** A child of the last unit of an ancestor chain extends the chain: with unique, non-zero
      ids it cannot already be one of the ancestors. */
  lemma ChildExtendsChain(path: seq<UnitRow>, c: UnitRow, all: seq<UnitRow>)
    requires WellKeyed(all) && AncestorChain(path, all) && path != []
    requires c in all && c.parentId == path[|path| - 1].id
    ensures AncestorChain(path + [c], all)
  {
    var last := path[|path| - 1];
    forall k | 0 <= k < |path| ensures path[k] != c {
      if k == 0 {
        var n :| 0 <= n < |all| && all[n] == last;
        assert c.parentId != 0;
      } else if k - 1 < |path| - 1 {
        DistinctRowsDistinctIds(all, path[k - 1], last);
        assert path[k].parentId != c.parentId;
      }
    }
  }

  lemma SameIdSameRow(all: seq<UnitRow>, x: UnitRow, y: UnitRow)
    requires DistinctKeys(all, IdOf) && x in all && y in all && x.id == y.id
    ensures x == y
  {
    var i :| 0 <= i < |all| && all[i] == x;
    var j :| 0 <= j < |all| && all[j] == y;
    assert i < j ==> IdOf(all[i]) != IdOf(all[j]);
    assert j < i ==> IdOf(all[j]) != IdOf(all[i]);
  }

  /** With unique, non-zero ids a unit has a single chain of ancestors: two chains that end in
      the same unit are the same chain. */
  lemma {:induction false} ChainUnique(p: seq<UnitRow>, q: seq<UnitRow>, all: seq<UnitRow>)
    requires WellKeyed(all) && AncestorChain(p, all) && AncestorChain(q, all) && p != [] && q != []
    ensures p[|p| - 1] == q[|q| - 1] ==> p == q
    decreases |p|
  {
    var x := p[|p| - 1];
    if x == q[|q| - 1] {
      assert |p| > 1 ==> x.parentId != 0 by {
        if |p| > 1 { assert p[|p| - 2] in all; }
      }
      assert |q| > 1 ==> x.parentId != 0 by {
        if |q| > 1 { assert q[|q| - 2] in all; }
      }
      if x.parentId == 0 {
        assert p == [x] && q == [x];
      } else {
        var p', q' := p[..|p| - 1], q[..|q| - 1];
        SameIdSameRow(all, p[|p| - 2], q[|q| - 2]);
        assert AncestorChain(p', all) && AncestorChain(q', all);
        ChainUnique(p', q', all);
        assert p == p' + [x] && q == q' + [x];
      }
    }
  }

  /** `x` ends an ancestor chain that begins with `path`: it is the last unit of `path` or one of
      its descendants. */
  ghost predicate Below(x: UnitRow, path: seq<UnitRow>, all: seq<UnitRow>) {
    exists chain :: AncestorChain(chain, all) && |path| <= |chain| && chain[..|path|] == path
                    && chain != [] && chain[|chain| - 1] == x
  }

  /** A unit below one child of the last ancestor is below no other child. */
  lemma Apart(x: UnitRow, c: UnitRow, d: UnitRow, ancestors: seq<UnitRow>, all: seq<UnitRow>)
    requires WellKeyed(all) && c != d && Below(x, ancestors + [c], all)
    ensures !Below(x, ancestors + [d], all)
  {
    var n := |ancestors|;
    var p :| AncestorChain(p, all) && n + 1 <= |p| && p[..n + 1] == ancestors + [c]
             && p != [] && p[|p| - 1] == x;
    assert p[n] == c by { assert p[n] == p[..n + 1][n]; }
    forall q | AncestorChain(q, all) && n + 1 <= |q| && q[..n + 1] == ancestors + [d] && q != []
      ensures q[|q| - 1] != x
    {
      assert q[n] == d by { assert q[n] == q[..n + 1][n]; }
      ChainUnique(p, q, all);
    }
  }

  lemma {:induction false} DistinctRowsNoRepeats(all: seq<UnitRow>)
    requires DistinctKeys(all, IdOf)
    ensures NoRepeats(all)
  {
    if all != [] {
      var rest := all[1..];
      assert DistinctKeys(rest, IdOf) by {
        forall i, j | 0 <= i < j < |rest| ensures IdOf(rest[i]) != IdOf(rest[j]) {
          assert rest[i] == all[i + 1] && rest[j] == all[j + 1];
        }
      }
      DistinctRowsNoRepeats(rest);
      assert all[0] !in rest by {
        forall k | 0 <= k < |rest| ensures rest[k] != all[0] {
          assert IdOf(all[0]) != IdOf(all[k + 1]);
        }
      }
      assert all == [all[0]] + rest;
    }
  }

  /** Units of `all` that each occur at most once have distinct ids. */
  lemma NoRepeatsDistinctIds(s: seq<UnitRow>, all: seq<UnitRow>)
    requires DistinctKeys(all, IdOf) && NoRepeats(s) && forall x :: x in s ==> x in all
    ensures DistinctKeys(s, IdOf)
  {
    forall i, j | 0 <= i < j < |s| ensures IdOf(s[i]) != IdOf(s[j]) {
      NoRepeatsAt(s, i, j);
      DistinctRowsDistinctIds(all, s[i], s[j]);
    }
  }

  /** Every node's children are exactly the units naming it as parent that pass the activity
      filter, in sort order. */
  ghost predicate ChildrenExact(t: UnitTree, all: seq<UnitRow>, includeInactive: bool)
    decreases t
  {
    Roots(t.children) == Where(ChildrenOf(all, t.unit.id), ActivityFilter(includeInactive))
    && forall c :: c in t.children ==> ChildrenExact(c, all, includeInactive)
  }

  /** `BuildTreeDto`: the unit with its (filtered, sorted) children expanded recursively. */
  function BuildTreeDto(u: UnitRow, all: seq<UnitRow>, includeInactive: bool,
                        ghost ancestors: seq<UnitRow>): (t: UnitTree)
    requires WellKeyed(all) && AncestorChain(ancestors + [u], all)
    ensures t.unit == u
    ensures forall x :: x in Flatten(t) ==> x in all
    ensures forall x :: x in FlattenForest(t.children) ==>
              ActivityFilter(includeInactive)(x) && HasParentIn(x, Flatten(t))
    ensures ChildrenExact(t, all, includeInactive)
    decreases Elements(all) - Elements(ancestors), 0
  {
    var path := ancestors + [u];
    assert u in all && u !in Elements(ancestors) by {
      assert path[|ancestors|] == u;
      assert forall i :: 0 <= i < |ancestors| ==> ancestors[i] == path[i];
    }
    assert Elements(path) == Elements(ancestors) + {u};
    UnitTree(u, BuildChildren(ChildrenOf(all, u.id), all, includeInactive, path))
  }

  /** The loop of `BuildTreeDto` over the candidate children `cs` of the last ancestor. */
  function BuildChildren(cs: seq<UnitRow>, all: seq<UnitRow>, includeInactive: bool,
                         ghost ancestors: seq<UnitRow>): (ts: seq<UnitTree>)
    requires WellKeyed(all) && AncestorChain(ancestors, all) && ancestors != []
    requires forall i :: 0 <= i < |cs| ==> cs[i] in all && cs[i].parentId == ancestors[|ancestors| - 1].id
    ensures Roots(ts) == Where(cs, ActivityFilter(includeInactive))
    ensures forall x :: x in FlattenForest(ts) ==> x in all
    ensures forall x :: x in FlattenForest(ts) ==>
              ActivityFilter(includeInactive)(x)
              && HasParentIn(x, [ancestors[|ancestors| - 1]] + FlattenForest(ts))
    ensures forall c :: c in ts ==> ChildrenExact(c, all, includeInactive)
    decreases Elements(all) - Elements(ancestors), 1, |cs|
  {
    if cs == [] then []
    else
      var rest := BuildChildren(cs[1..], all, includeInactive, ancestors);
      if ActivityFilter(includeInactive)(cs[0]) then
        ChildExtendsChain(ancestors, cs[0], all);
        var t := BuildTreeDto(cs[0], all, includeInactive, ancestors);
        PrependTree(t, rest, ancestors[|ancestors| - 1], all, includeInactive);
        [t] + rest
      else
        rest
  }

  /** The facts `BuildChildren` keeps, carried over one more tree at the front. */
  lemma PrependTree(t: UnitTree, rest: seq<UnitTree>, parent: UnitRow, all: seq<UnitRow>, includeInactive: bool)
    requires t.unit.parentId == parent.id && ActivityFilter(includeInactive)(t.unit)
    requires forall x :: x in Flatten(t) ==> x in all
    requires forall x :: x in FlattenForest(t.children) ==>
               ActivityFilter(includeInactive)(x) && HasParentIn(x, Flatten(t))
    requires ChildrenExact(t, all, includeInactive)
    requires forall x :: x in FlattenForest(rest) ==> x in all
    requires forall x :: x in FlattenForest(rest) ==>
               ActivityFilter(includeInactive)(x) && HasParentIn(x, [parent] + FlattenForest(rest))
    requires forall c :: c in rest ==> ChildrenExact(c, all, includeInactive)
    ensures Roots([t] + rest) == [t.unit] + Roots(rest)
    ensures forall x :: x in FlattenForest([t] + rest) ==> x in all
    ensures forall x :: x in FlattenForest([t] + rest) ==>
              ActivityFilter(includeInactive)(x) && HasParentIn(x, [parent] + FlattenForest([t] + rest))
    ensures forall c :: c in [t] + rest ==> ChildrenExact(c, all, includeInactive)
  {
    var ts := [t] + rest;
    assert ts[0] == t && ts[1..] == rest;
    var whole := [parent] + FlattenForest(ts);
    assert FlattenForest(ts) == Flatten(t) + FlattenForest(rest);
    forall x | x in FlattenForest(ts)
      ensures ActivityFilter(includeInactive)(x) && HasParentIn(x, whole)
    {
      if x in FlattenForest(rest) {
        var y :| y in [parent] + FlattenForest(rest) && y.id == x.parentId;
        assert y in whole;
      } else if x == t.unit {
        assert parent in whole;
      } else {
        assert x in FlattenForest(t.children);
        var y :| y in Flatten(t) && y.id == x.parentId;
        assert y in whole;
      }
    }
  }

  /** A tree built by `BuildTreeDto` holds no unit twice, and each of its units lies below the
      chain that led to its top. */
  lemma {:induction false} TreeUnique(u: UnitRow, all: seq<UnitRow>, includeInactive: bool, ancestors: seq<UnitRow>)
    requires WellKeyed(all) && AncestorChain(ancestors + [u], all)
    ensures NoRepeats(Flatten(BuildTreeDto(u, all, includeInactive, ancestors)))
    ensures forall x :: x in Flatten(BuildTreeDto(u, all, includeInactive, ancestors)) ==>
              Below(x, ancestors + [u], all)
    decreases Elements(all) - Elements(ancestors), 0
  {
    var path := ancestors + [u];
    assert u in all && u !in Elements(ancestors) by {
      assert path[|ancestors|] == u;
      assert forall i :: 0 <= i < |ancestors| ==> ancestors[i] == path[i];
    }
    assert Elements(path) == Elements(ancestors) + {u};
    var cs := ChildrenOf(all, u.id);
    var t := BuildTreeDto(u, all, includeInactive, ancestors);
    assert t.children == BuildChildren(cs, all, includeInactive, path);
    DistinctRowsNoRepeats(all);
    ForestUnique(cs, all, includeInactive, path);
    assert Flatten(t) == [u] + FlattenForest(t.children);
    WithTop(FlattenForest(t.children), cs, path, all);
  }

  /** The units below the children of the chain's last unit, with that unit on top, hold no
      unit twice and all lie below the chain. */
  lemma WithTop(below: seq<UnitRow>, cs: seq<UnitRow>, path: seq<UnitRow>, all: seq<UnitRow>)
    requires WellKeyed(all) && AncestorChain(path, all) && path != [] && NoRepeats(below)
    requires forall x :: x in below ==> exists c :: c in cs && Below(x, path + [c], all)
    ensures var u := path[|path| - 1];
            NoRepeats([u] + below) && forall x :: x in [u] + below ==> Below(x, path, all)
  {
    var u := path[|path| - 1];
    assert Below(u, path, all) by { assert path[..|path|] == path; }
    forall x | x in below ensures Below(x, path, all) && x != u {
      var c :| c in cs && Below(x, path + [c], all);
      BelowChild(x, c, path, all);
    }
    NoRepeatsConcat([u], below);
  }

  /** A unit below a child of the chain's last unit is below the chain, and is not its last unit. */
  lemma BelowChild(x: UnitRow, c: UnitRow, path: seq<UnitRow>, all: seq<UnitRow>)
    requires WellKeyed(all) && AncestorChain(path, all) && path != [] && Below(x, path + [c], all)
    ensures Below(x, path, all) && x != path[|path| - 1]
  {
    var n := |path|;
    var chain :| AncestorChain(chain, all) && n + 1 <= |chain| && chain[..n + 1] == path + [c]
                 && chain != [] && chain[|chain| - 1] == x;
    assert chain[..n] == path by { assert chain[..n] == chain[..n + 1][..n]; }
    ChainUnique(chain, path, all);
  }

  /** The trees `BuildChildren` builds from distinct candidates hold no unit twice, together;
      each of their units lies below the chain extended by one of the candidates. */
  lemma {:induction false} ForestUnique(cs: seq<UnitRow>, all: seq<UnitRow>, includeInactive: bool, ancestors: seq<UnitRow>)
    requires WellKeyed(all) && AncestorChain(ancestors, all) && ancestors != []
    requires forall i :: 0 <= i < |cs| ==> cs[i] in all && cs[i].parentId == ancestors[|ancestors| - 1].id
    requires NoRepeats(cs)
    ensures NoRepeats(FlattenForest(BuildChildren(cs, all, includeInactive, ancestors)))
    ensures forall x :: x in FlattenForest(BuildChildren(cs, all, includeInactive, ancestors)) ==>
              exists c :: c in cs && Below(x, ancestors + [c], all)
    decreases Elements(all) - Elements(ancestors), 1, |cs|
  {
    if cs != [] {
      var first := cs[0];
      var rest := BuildChildren(cs[1..], all, includeInactive, ancestors);
      assert cs == [first] + cs[1..];
      assert first !in cs[1..] && NoRepeats(cs[1..]) by {
        assert multiset(cs) == multiset{first} + multiset(cs[1..]);
        assert multiset(cs)[first] <= 1;
        forall x | x in cs[1..] ensures multiset(cs[1..])[x] <= 1 {
          assert multiset(cs)[x] <= 1;
        }
      }
      ForestUnique(cs[1..], all, includeInactive, ancestors);
      if ActivityFilter(includeInactive)(first) {
        ChildExtendsChain(ancestors, first, all);
        var t := BuildTreeDto(first, all, includeInactive, ancestors);
        var ts := [t] + rest;
        assert BuildChildren(cs, all, includeInactive, ancestors) == ts;
        TreeUnique(first, all, includeInactive, ancestors);
        assert ts[0] == t && ts[1..] == rest;
        assert FlattenForest(ts) == Flatten(t) + FlattenForest(rest);
        JoinSiblings(Flatten(t), FlattenForest(rest), first, cs[1..], ancestors, all);
      } else {
        assert BuildChildren(cs, all, includeInactive, ancestors) == rest;
      }
    }
  }

  /** The units below the first child joined with the units below its later siblings. */
  lemma JoinSiblings(under: seq<UnitRow>, rest: seq<UnitRow>, first: UnitRow, others: seq<UnitRow>,
                     ancestors: seq<UnitRow>, all: seq<UnitRow>)
    requires WellKeyed(all) && first !in others && NoRepeats(under) && NoRepeats(rest)
    requires forall x :: x in under ==> Below(x, ancestors + [first], all)
    requires forall x :: x in rest ==> exists c :: c in others && Below(x, ancestors + [c], all)
    ensures NoRepeats(under + rest)
    ensures forall x :: x in under + rest ==> exists c :: c in [first] + others && Below(x, ancestors + [c], all)
  {
    SiblingsApart(under, first, others, rest, ancestors, all);
    NoRepeatsConcat(under, rest);
    forall x | x in under + rest ensures exists c :: c in [first] + others && Below(x, ancestors + [c], all) {
      if x in under {
        assert first in [first] + others;
      } else {
        var c :| c in others && Below(x, ancestors + [c], all);
        assert c in [first] + others;
      }
    }
  }

  /** The units below one child share none with the units below its other siblings. */
  lemma SiblingsApart(under: seq<UnitRow>, first: UnitRow, others: seq<UnitRow>, rest: seq<UnitRow>,
                      ancestors: seq<UnitRow>, all: seq<UnitRow>)
    requires WellKeyed(all) && first !in others
    requires forall x :: x in under ==> Below(x, ancestors + [first], all)
    requires forall x :: x in rest ==> exists c :: c in others && Below(x, ancestors + [c], all)
    ensures forall x :: x in under ==> x !in rest
  {
    forall x | x in under ensures x !in rest {
      forall c | c in others ensures !Below(x, ancestors + [c], all) {
        Apart(x, first, c, ancestors, all);
      }
    }
  }

  lemma RootsMembers(ts: seq<UnitTree>, u: UnitRow)
    ensures u in Roots(ts) <==> exists t :: t in ts && t.unit == u
  {
    if u in Roots(ts) {
      var i :| 0 <= i < |ts| && Roots(ts)[i] == u;
      assert ts[i] in ts;
    }
  }

  /** A unit that is displayed at the top of the forest. */
  predicate IsShownRoot(u: UnitRow, includeInactive: bool) {
    ActivityFilter(includeInactive)(u) && u.parentId == 0
  }

  /** The condition of `BuildTreeStructure`'s loop for a tree to start at a unit. */
  function ShownFilter(includeInactive: bool): UnitRow -> bool {
    (u: UnitRow) => IsShownRoot(u, includeInactive)
  }

  /** The trees of the forest hold no unit twice, together; every unit comes from `all` and
      lies below one of the roots. */
  ghost predicate SeparateTrees(trees: seq<UnitTree>, all: seq<UnitRow>) {
    NoRepeats(FlattenForest(trees))
    && forall x :: x in FlattenForest(trees) ==>
         x in all && exists r :: r in Roots(trees) && Below(x, [r], all)
  }

  /** Every unit of the tree belongs to `all` and passes the activity filter; every unit below
      the top has its parent in the same tree (no orphan is shown); and each node's children are
      exactly its filtered child units in sort order. */
  ghost predicate WellBuilt(t: UnitTree, all: seq<UnitRow>, includeInactive: bool) {
    (forall x :: x in Flatten(t) ==> x in all && ActivityFilter(includeInactive)(x))
    && (forall x :: x in FlattenForest(t.children) ==> HasParentIn(x, Flatten(t)))
    && ChildrenExact(t, all, includeInactive)
  }

  /** `BuildTreeStructure`: one tree per displayed root unit, in sort order. Building the
      id dictionary fails on a duplicate id. */
  method BuildTreeStructure(all: seq<UnitRow>, includeInactive: bool) returns (result: Result<seq<UnitTree>>)
    requires forall i :: 0 <= i < |all| ==> all[i].id != 0
    ensures result.Err? <==> !DistinctKeys(all, IdOf)
    ensures result.Err? ==> result.error == DuplicateKey
    ensures result.Ok? ==> SortedBy(result.value, TreeSortOrder)
    ensures result.Ok? ==>
              forall u :: u in Roots(result.value) <==> u in all && IsShownRoot(u, includeInactive)
    ensures result.Ok? ==> forall t :: t in result.value ==> WellBuilt(t, all, includeInactive)
    ensures result.Ok? ==>
              multiset(Roots(result.value)) == multiset(Where(all, ShownFilter(includeInactive)))
    ensures result.Ok? ==> DistinctKeys(FlattenForest(result.value), IdOf)
  {
    if !DistinctKeys(all, IdOf) {
      return Err(DuplicateKey);
    }
    var trees := CollectRoots(all, includeInactive);
    var sorted := SortBy(trees, TreeSortOrder);
    SortedForest(trees, all, includeInactive);
    SortedDistinct(trees, all);
    return Ok(sorted);
  }

  /** The loop of `BuildTreeStructure`: a tree for each displayed root, in table order. */
  method CollectRoots(all: seq<UnitRow>, includeInactive: bool) returns (trees: seq<UnitTree>)
    requires WellKeyed(all)
    ensures forall u :: u in Roots(trees) <==> u in all && IsShownRoot(u, includeInactive)
    ensures forall t :: t in trees ==> WellBuilt(t, all, includeInactive)
    ensures Roots(trees) == Where(all, ShownFilter(includeInactive))
    ensures SeparateTrees(trees, all)
  {
    trees := [];
    for i := 0 to |all|
      invariant forall u :: u in Roots(trees) <==> u in all[..i] && IsShownRoot(u, includeInactive)
      invariant forall t :: t in trees ==> WellBuilt(t, all, includeInactive)
      invariant Roots(trees) == Where(all[..i], ShownFilter(includeInactive))
      invariant SeparateTrees(trees, all)
    {
      var org := all[i];
      CollectStep(trees, all, includeInactive, i);
      if !includeInactive && !org.isActive {
        continue;
      }
      if org.parentId == 0 {
        var t := BuildTreeDto(org, all, includeInactive, []);
        trees := trees + [t];
      }
    }
    assert all[..|all|] == all;
  }

  /** One turn of the loop of `CollectRoots`: row `i` starts a tree exactly when it is a
      displayed root. */
  lemma CollectStep(trees: seq<UnitTree>, all: seq<UnitRow>, includeInactive: bool, i: nat)
    requires WellKeyed(all) && i < |all|
    requires forall u :: u in Roots(trees) <==> u in all[..i] && IsShownRoot(u, includeInactive)
    requires forall t :: t in trees ==> WellBuilt(t, all, includeInactive)
    requires Roots(trees) == Where(all[..i], ShownFilter(includeInactive))
    requires SeparateTrees(trees, all)
    ensures IsShownRoot(all[i], includeInactive) ==>
              AncestorChain([] + [all[i]], all)
              && var ts := trees + [BuildTreeDto(all[i], all, includeInactive, [])];
                 (forall u :: u in Roots(ts) <==> u in all[..i + 1] && IsShownRoot(u, includeInactive))
                 && (forall t :: t in ts ==> WellBuilt(t, all, includeInactive))
                 && Roots(ts) == Where(all[..i + 1], ShownFilter(includeInactive))
                 && SeparateTrees(ts, all)
    ensures !IsShownRoot(all[i], includeInactive) ==>
              (forall u :: u in Roots(trees) <==> u in all[..i + 1] && IsShownRoot(u, includeInactive))
              && Roots(trees) == Where(all[..i + 1], ShownFilter(includeInactive))
  {
    var org := all[i];
    assert all[..i + 1] == all[..i] + [org];
    WhereSnoc(all[..i], org, ShownFilter(includeInactive));
    if IsShownRoot(org, includeInactive) {
      CollectShown(trees, all, includeInactive, i);
    }
  }

  lemma CollectShown(trees: seq<UnitTree>, all: seq<UnitRow>, includeInactive: bool, i: nat)
    requires WellKeyed(all) && i < |all|
    requires forall u :: u in Roots(trees) <==> u in all[..i] && IsShownRoot(u, includeInactive)
    requires forall t :: t in trees ==> WellBuilt(t, all, includeInactive)
    requires Roots(trees) == Where(all[..i], ShownFilter(includeInactive))
    requires SeparateTrees(trees, all)
    requires IsShownRoot(all[i], includeInactive) && all[..i + 1] == all[..i] + [all[i]]
    requires Where(all[..i + 1], ShownFilter(includeInactive)) == Where(all[..i], ShownFilter(includeInactive)) + [all[i]]
    ensures AncestorChain([] + [all[i]], all)
    ensures var ts := trees + [BuildTreeDto(all[i], all, includeInactive, [])];
            (forall u :: u in Roots(ts) <==> u in all[..i + 1] && IsShownRoot(u, includeInactive))
            && (forall t :: t in ts ==> WellBuilt(t, all, includeInactive))
            && Roots(ts) == Where(all[..i + 1], ShownFilter(includeInactive))
            && SeparateTrees(ts, all)
  {
    var org := all[i];
    assert [] + [org] == [org];
    var t := BuildTreeDto(org, all, includeInactive, []);
    BuiltRootWellBuilt(org, all, includeInactive);
    NotEarlier(all, i);
    TreeUnique(org, all, includeInactive, []);
    AppendSeparate(trees, t, all);
    AppendShown(trees, t, all, includeInactive, i);
  }

  /** The roots and the trees of the forest after a tree for row `i` is added. */
  lemma AppendShown(trees: seq<UnitTree>, t: UnitTree, all: seq<UnitRow>, includeInactive: bool, i: nat)
    requires i < |all| && t.unit == all[i] && IsShownRoot(all[i], includeInactive)
    requires WellBuilt(t, all, includeInactive) && all[..i + 1] == all[..i] + [all[i]]
    requires forall u :: u in Roots(trees) <==> u in all[..i] && IsShownRoot(u, includeInactive)
    requires forall t :: t in trees ==> WellBuilt(t, all, includeInactive)
    requires Roots(trees + [t]) == Roots(trees) + [t.unit]
    requires Roots(trees) == Where(all[..i], ShownFilter(includeInactive))
    requires Where(all[..i + 1], ShownFilter(includeInactive)) == Where(all[..i], ShownFilter(includeInactive)) + [all[i]]
    ensures forall u :: u in Roots(trees + [t]) <==> u in all[..i + 1] && IsShownRoot(u, includeInactive)
    ensures forall s :: s in trees + [t] ==> WellBuilt(s, all, includeInactive)
    ensures Roots(trees + [t]) == Where(all[..i + 1], ShownFilter(includeInactive))
  {
    var ts := trees + [t];
    assert forall u :: u in Roots(ts) <==> u in Roots(trees) || u == t.unit;
    assert forall s :: s in ts ==> s in trees || s == t;
  }

  /** One more tree whose units lie below its own root, which is not a root already, keeps the
      forest's trees apart. */
  lemma AppendSeparate(trees: seq<UnitTree>, t: UnitTree, all: seq<UnitRow>)
    requires WellKeyed(all) && SeparateTrees(trees, all) && t.unit !in Roots(trees)
    requires NoRepeats(Flatten(t)) && forall x :: x in Flatten(t) ==> x in all && Below(x, [t.unit], all)
    ensures Roots(trees + [t]) == Roots(trees) + [t.unit]
    ensures SeparateTrees(trees + [t], all)
  {
    var ts := trees + [t];
    var roots := Roots(ts);
    assert roots == Roots(trees) + [t.unit] by {
      assert |roots| == |Roots(trees)| + 1;
      assert forall i :: 0 <= i < |trees| ==> ts[i] == trees[i];
    }
    FlattenForestSnoc(trees, t);
    NewTreeApart(trees, t, all);
    NoRepeatsConcat(FlattenForest(trees), Flatten(t));
    AppendBelowRoots(trees, t, all);
  }

  /** After a tree is added, every unit of the forest still lies below one of its roots. */
  lemma AppendBelowRoots(trees: seq<UnitTree>, t: UnitTree, all: seq<UnitRow>)
    requires SeparateTrees(trees, all)
    requires forall x :: x in Flatten(t) ==> x in all && Below(x, [t.unit], all)
    requires FlattenForest(trees + [t]) == FlattenForest(trees) + Flatten(t)
    requires Roots(trees + [t]) == Roots(trees) + [t.unit]
    ensures forall x :: x in FlattenForest(trees + [t]) ==>
              x in all && exists r :: r in Roots(trees + [t]) && Below(x, [r], all)
  {
    var roots := Roots(trees + [t]);
    forall x | x in FlattenForest(trees + [t]) ensures x in all && exists r :: r in roots && Below(x, [r], all) {
      if x in Flatten(t) {
        assert t.unit in roots && Below(x, [t.unit], all);
      } else {
        assert x in FlattenForest(trees);
        var r :| r in Roots(trees) && Below(x, [r], all);
        assert r in roots;
      }
    }
  }

  /** The units below a new root are none of the units below the other roots. */
  lemma NewTreeApart(trees: seq<UnitTree>, t: UnitTree, all: seq<UnitRow>)
    requires WellKeyed(all) && SeparateTrees(trees, all) && t.unit !in Roots(trees)
    requires forall x :: x in Flatten(t) ==> Below(x, [t.unit], all)
    ensures forall x :: x in Flatten(t) ==> x !in FlattenForest(trees)
  {
    forall x | x in Flatten(t) ensures x !in FlattenForest(trees) {
      forall r | r in Roots(trees) ensures !Below(x, [r], all) {
        RootsApart(x, t.unit, r, all);
      }
    }
  }

  /** A unit below one root is below no other root. */
  lemma RootsApart(x: UnitRow, c: UnitRow, d: UnitRow, all: seq<UnitRow>)
    requires WellKeyed(all) && c != d && Below(x, [c], all)
    ensures !Below(x, [d], all)
  {
    assert [] + [c] == [c] && [] + [d] == [d];
    Apart(x, c, d, [], all);
  }

  /** With unique ids a row does not occur before its own position. */
  lemma NotEarlier(all: seq<UnitRow>, i: nat)
    requires DistinctKeys(all, IdOf) && i < |all|
    ensures all[i] !in all[..i]
  {
    forall n | 0 <= n < i ensures all[..i][n] != all[i] {
      assert IdOf(all[n]) != IdOf(all[i]);
    }
  }

  lemma {:induction false} FlattenForestSnoc(ts: seq<UnitTree>, t: UnitTree)
    ensures FlattenForest(ts + [t]) == FlattenForest(ts) + Flatten(t)
  {
    if ts == [] {
      assert [] + [t] == [t];
      assert [t][1..] == [];
    } else {
      assert (ts + [t])[0] == ts[0] && (ts + [t])[1..] == ts[1..] + [t];
      FlattenForestSnoc(ts[1..], t);
    }
  }

  /** Inserting a tree adds its units to those of the forest. */
  lemma {:induction false} InsertKeepsUnits(x: UnitTree, s: seq<UnitTree>, key: UnitTree -> int)
    ensures multiset(FlattenForest(Insert(x, s, key))) == multiset(Flatten(x)) + multiset(FlattenForest(s))
  {
    var r := Insert(x, s, key);
    if s == [] || key(x) <= key(s[0]) {
      assert r == [x] + s;
      assert r[0] == x && r[1..] == s;
    } else {
      assert r == [s[0]] + Insert(x, s[1..], key);
      assert r[0] == s[0] && r[1..] == Insert(x, s[1..], key);
      assert s[1..] == s[1..] && FlattenForest(s) == Flatten(s[0]) + FlattenForest(s[1..]);
      InsertKeepsUnits(x, s[1..], key);
    }
  }

  /** Inserting a tree adds its root to the roots of the forest. */
  lemma {:induction false} InsertKeepsRoots(x: UnitTree, s: seq<UnitTree>, key: UnitTree -> int)
    ensures multiset(Roots(Insert(x, s, key))) == multiset{x.unit} + multiset(Roots(s))
  {
    var r := Insert(x, s, key);
    if s == [] || key(x) <= key(s[0]) {
      assert r == [x] + s;
      RootsCons(x, s);
    } else {
      var t := Insert(x, s[1..], key);
      assert r == [s[0]] + t;
      InsertKeepsRoots(x, s[1..], key);
      RootsLater(x, s, t);
    }
  }

  lemma RootsCons(x: UnitTree, s: seq<UnitTree>)
    ensures multiset(Roots([x] + s)) == multiset{x.unit} + multiset(Roots(s))
  {
    RootsConcat([x], s);
  }

  lemma RootsLater(x: UnitTree, s: seq<UnitTree>, t: seq<UnitTree>)
    requires s != [] && multiset(Roots(t)) == multiset{x.unit} + multiset(Roots(s[1..]))
    ensures multiset(Roots([s[0]] + t)) == multiset{x.unit} + multiset(Roots(s))
  {
    RootsConcat([s[0]], t);
    assert s == [s[0]] + s[1..];
    RootsConcat([s[0]], s[1..]);
  }

  lemma RootsConcat(a: seq<UnitTree>, b: seq<UnitTree>)
    ensures Roots(a + b) == Roots(a) + Roots(b)
  {
    var ab := a + b;
    assert forall i :: 0 <= i < |a| ==> ab[i] == a[i];
    assert forall i :: |a| <= i < |ab| ==> ab[i] == b[i - |a|];
  }

  /** Sorting a forest keeps its units and its roots, each as often as before. */
  lemma {:induction false} SortKeepsUnits(s: seq<UnitTree>, key: UnitTree -> int)
    ensures multiset(FlattenForest(SortBy(s, key))) == multiset(FlattenForest(s))
    ensures multiset(Roots(SortBy(s, key))) == multiset(Roots(s))
  {
    if s != [] {
      SortKeepsUnits(s[1..], key);
      InsertKeepsUnits(s[0], SortBy(s[1..], key), key);
      InsertKeepsRoots(s[0], SortBy(s[1..], key), key);
    }
  }

  /** The sorted forest of `CollectRoots` keeps its roots and holds no two units with one id. */
  lemma SortedDistinct(trees: seq<UnitTree>, all: seq<UnitRow>)
    requires DistinctKeys(all, IdOf) && SeparateTrees(trees, all)
    ensures multiset(Roots(SortBy(trees, TreeSortOrder))) == multiset(Roots(trees))
    ensures DistinctKeys(FlattenForest(SortBy(trees, TreeSortOrder)), IdOf)
  {
    var units := FlattenForest(SortBy(trees, TreeSortOrder));
    SortKeepsUnits(trees, TreeSortOrder);
    forall x | x in units ensures x in FlattenForest(trees) {
      assert x in multiset(units);
    }
    NoRepeatsDistinctIds(units, all);
  }

  /** Sorting the roots keeps the same trees and puts them in sort order. */
  lemma SortedForest(trees: seq<UnitTree>, all: seq<UnitRow>, includeInactive: bool)
    requires forall u :: u in Roots(trees) <==> u in all && IsShownRoot(u, includeInactive)
    requires forall t :: t in trees ==> WellBuilt(t, all, includeInactive)
    ensures SortedBy(SortBy(trees, TreeSortOrder), TreeSortOrder)
    ensures forall u :: u in Roots(SortBy(trees, TreeSortOrder)) <==> u in all && IsShownRoot(u, includeInactive)
    ensures forall t :: t in SortBy(trees, TreeSortOrder) ==> WellBuilt(t, all, includeInactive)
  {
    var sorted := SortBy(trees, TreeSortOrder);
    SortBySorted(trees, TreeSortOrder);
    forall t ensures t in sorted <==> t in trees {
      SortByMembers(trees, TreeSortOrder, t);
    }
    forall u ensures u in Roots(sorted) <==> u in Roots(trees) {
      RootsMembers(sorted, u);
      RootsMembers(trees, u);
    }
  }

  lemma BuiltRootWellBuilt(org: UnitRow, all: seq<UnitRow>, includeInactive: bool)
    requires WellKeyed(all) && org in all && IsShownRoot(org, includeInactive)
    ensures AncestorChain([org], all)
    ensures WellBuilt(BuildTreeDto(org, all, includeInactive, []), all, includeInactive)
  {
    assert [] + [org] == [org];
    var t := BuildTreeDto(org, all, includeInactive, []);
    forall x | x in Flatten(t) ensures x in all && ActivityFilter(includeInactive)(x) {
      assert x == org || x in FlattenForest(t.children);
    }
  }

  /** `OrganizationUnitTreeDto`: the fields of a unit without its deletion time, with its
      children. */
  datatype TreeDto = TreeDto(id: int, name: string, description: string, parentId: int,
                             sortOrder: int, isActive: bool, createdAt: Time, children: seq<TreeDto>)

  function DtoSortOrder(d: TreeDto): int { d.sortOrder }

  /** The DTO `d` carries the fields of `t`'s unit and, child by child in the same order, the
      DTOs of `t`'s children. */
  ghost predicate Mirrors(d: TreeDto, t: UnitTree)
    decreases t
  {
    d.id == t.unit.id && d.name == t.unit.name && d.description == t.unit.description
    && d.parentId == t.unit.parentId && d.sortOrder == t.unit.sortOrder
    && d.isActive == t.unit.isActive && d.createdAt == t.unit.createdAt
    && |d.children| == |t.children|
    && forall i :: 0 <= i < |t.children| ==> Mirrors(d.children[i], t.children[i])
  }

  /** `ConvertToTreeDto`: copies the unit's fields and converts its children after ordering
      them by sort order once more. */
  function ConvertToTreeDto(t: UnitTree): (d: TreeDto)
    ensures d.id == t.unit.id && d.sortOrder == t.unit.sortOrder
    ensures |d.children| == |t.children|
    ensures SortedBy(d.children, DtoSortOrder)
    decreases t, 1
  {
    var ordered := SortBy(t.children, TreeSortOrder);
    SortBySorted(t.children, TreeSortOrder);
    forall i | 0 <= i < |ordered| ensures ordered[i] in t.children {
      SortByMembers(t.children, TreeSortOrder, ordered[i]);
    }
    var children := ConvertEach(ordered, t);
    assert SortedBy(children, DtoSortOrder) by {
      forall i, j | 0 <= i < j < |children| ensures DtoSortOrder(children[i]) <= DtoSortOrder(children[j]) {
        assert TreeSortOrder(ordered[i]) <= TreeSortOrder(ordered[j]);
      }
    }
    TreeDto(t.unit.id, t.unit.name, t.unit.description, t.unit.parentId, t.unit.sortOrder,
            t.unit.isActive, t.unit.createdAt, children)
  }

  /** `.Select(ou => ConvertToTreeDto(ou))` over children of `parent`. */
  function ConvertEach(ts: seq<UnitTree>, ghost parent: UnitTree): (ds: seq<TreeDto>)
    requires forall i :: 0 <= i < |ts| ==> ts[i] in parent.children
    ensures |ds| == |ts|
    ensures forall i :: 0 <= i < |ts| ==> ds[i] == ConvertToTreeDto(ts[i])
    ensures forall i :: 0 <= i < |ts| ==> DtoSortOrder(ds[i]) == TreeSortOrder(ts[i])
    decreases parent, 0, |ts|
  {
    if ts == [] then []
    else [ConvertToTreeDto(ts[0])] + ConvertEach(ts[1..], parent)
  }

  lemma ChildrenSorted(t: UnitTree, all: seq<UnitRow>, includeInactive: bool)
    requires ChildrenExact(t, all, includeInactive)
    ensures SortedBy(t.children, TreeSortOrder)
  {
    var candidates := Where(all, (u: UnitRow) => u.parentId == t.unit.id);
    SortBySorted(candidates, SortOrderOf);
    WhereSorted(ChildrenOf(all, t.unit.id), ActivityFilter(includeInactive), SortOrderOf);
    assert SortedBy(Roots(t.children), SortOrderOf);
  }

  /** On a tree built by `BuildTreeDto` the second ordering in `ConvertToTreeDto` changes
      nothing: the DTO tree has the built tree's shape, child order included. */
  lemma {:induction false} ConvertMirrorsBuiltTree(t: UnitTree, all: seq<UnitRow>, includeInactive: bool)
    requires ChildrenExact(t, all, includeInactive)
    ensures Mirrors(ConvertToTreeDto(t), t)
    decreases t
  {
    ChildrenSorted(t, all, includeInactive);
    SortBySortedIdentity(t.children, TreeSortOrder);
    var d := ConvertToTreeDto(t);
    assert d.children == ConvertEach(t.children, t);
    forall i | 0 <= i < |t.children| ensures Mirrors(d.children[i], t.children[i]) {
      assert t.children[i] in t.children;
      ConvertMirrorsBuiltTree(t.children[i], all, includeInactive);
    }
  }

  /** `.Select(ou => ConvertToTreeDto(ou))` over the forest. */
  function ConvertForest(ts: seq<UnitTree>): (ds: seq<TreeDto>)
    ensures |ds| == |ts| && forall i :: 0 <= i < |ts| ==> ds[i] == ConvertToTreeDto(ts[i])
  {
    seq(|ts|, i requires 0 <= i < |ts| => ConvertToTreeDto(ts[i]))
  }

  /** `GetOrganizationUnitTreeAsync`: the forest of the units that are not deleted, each
      displayed root with its descendants, roots in sort order. */
  method GetOrganizationUnitTree(table: seq<UnitRow>, includeInactive: bool) returns (result: Result<seq<TreeDto>>)
    requires forall i :: 0 <= i < |table| ==> table[i].id != 0
    ensures result.Err? <==> !DistinctKeys(Visible(table), IdOf)
    ensures result.Ok? ==> SortedBy(result.value, DtoSortOrder)
    ensures result.Ok? ==>
              forall u :: u in Visible(table) && IsShownRoot(u, includeInactive) ==>
                exists i :: 0 <= i < |result.value| && result.value[i].id == u.id
    ensures result.Ok? ==>
              exists forest :: MirrorsForest(result.value, forest) && ShownForest(forest, Visible(table), includeInactive)
                && multiset(Roots(forest)) == multiset(Where(Visible(table), ShownFilter(includeInactive)))
                && DistinctKeys(FlattenForest(forest), IdOf)
  {
    var all := Visible(table);
    assert forall i :: 0 <= i < |all| ==> all[i].id != 0;
    var built := BuildTreeStructure(all, includeInactive);
    if built.Err? {
      return Err(built.error);
    }
    var dtos := ConvertForest(built.value);
    ConvertedForestSorted(built.value);
    ConvertedForestCovers(built.value, all, includeInactive);
    ConvertedForestMirrors(built.value, all, includeInactive);
    return Ok(dtos);
  }

  lemma ConvertedForestSorted(trees: seq<UnitTree>)
    requires SortedBy(trees, TreeSortOrder)
    ensures SortedBy(ConvertForest(trees), DtoSortOrder)
  {
  }

  lemma ConvertedForestCovers(trees: seq<UnitTree>, all: seq<UnitRow>, includeInactive: bool)
    requires forall u :: u in Roots(trees) <==> u in all && IsShownRoot(u, includeInactive)
    ensures forall u :: u in all && IsShownRoot(u, includeInactive) ==>
              exists i :: 0 <= i < |ConvertForest(trees)| && ConvertForest(trees)[i].id == u.id
  {
    var dtos := ConvertForest(trees);
    forall u | u in all && IsShownRoot(u, includeInactive)
      ensures exists i :: 0 <= i < |dtos| && dtos[i].id == u.id
    {
      var i :| 0 <= i < |trees| && Roots(trees)[i] == u;
      assert dtos[i].id == u.id;
    }
  }

  /** A displayed forest: its trees are well built from `all` and have displayed roots. */
  ghost predicate ShownForest(trees: seq<UnitTree>, all: seq<UnitRow>, includeInactive: bool) {
    forall i :: 0 <= i < |trees| ==>
      IsShownRoot(trees[i].unit, includeInactive) && WellBuilt(trees[i], all, includeInactive)
  }

  /** The DTOs are, one for one and in order, the trees of the forest. */
  ghost predicate MirrorsForest(ds: seq<TreeDto>, trees: seq<UnitTree>) {
    |ds| == |trees| && forall i :: 0 <= i < |trees| ==> Mirrors(ds[i], trees[i])
  }

  lemma ConvertedForestMirrors(trees: seq<UnitTree>, all: seq<UnitRow>, includeInactive: bool)
    requires forall u :: u in Roots(trees) ==> IsShownRoot(u, includeInactive)
    requires forall t :: t in trees ==> WellBuilt(t, all, includeInactive)
    ensures ShownForest(trees, all, includeInactive)
    ensures MirrorsForest(ConvertForest(trees), trees)
  {
    forall i | 0 <= i < |trees|
      ensures Mirrors(ConvertForest(trees)[i], trees[i])
      ensures IsShownRoot(trees[i].unit, includeInactive) && WellBuilt(trees[i], all, includeInactive)
    {
      ConvertedTree(trees, i, all, includeInactive);
    }
  }

  lemma ConvertedTree(trees: seq<UnitTree>, i: nat, all: seq<UnitRow>, includeInactive: bool)
    requires i < |trees|
    requires forall u :: u in Roots(trees) ==> IsShownRoot(u, includeInactive)
    requires forall t :: t in trees ==> WellBuilt(t, all, includeInactive)
    ensures Mirrors(ConvertToTreeDto(trees[i]), trees[i]) && IsShownRoot(trees[i].unit, includeInactive)
    ensures WellBuilt(trees[i], all, includeInactive)
  {
    assert trees[i] in trees;
    assert trees[i].unit in Roots(trees);
    ConvertMirrorsBuiltTree(trees[i], all, includeInactive);
  }
}
