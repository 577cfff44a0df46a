/** Read side of users: existence checks, the filtered user list, the refresh-token lookup and
    the users holding a role. Users carry no soft-delete filter, so these queries also see users
    marked deleted. */
module UserQuery {
  import opened Wrappers
  import opened Text
  import opened Enumerable

  /** The message of the lookup by refresh token when no user holds the token. */
  const InvalidToken := "无效的令牌"
  /** The message `SingleOrDefault` throws with when more than one element matches. */
  const MoreThanOneElement := "Sequence contains more than one element"

  /** A row of the user table, with the ids of the roles the user holds, the assigned
      organisation unit (if any) and the refresh tokens issued to the user. */
  datatype UserRow = UserRow(
    id: int, name: string, email: string, status: int,
    organizationUnitId: Option<int>, roleIds: seq<int>, refreshTokens: seq<string>)

  /** `DoesUserExist(username)`: the name is compared by the database, under its collation. */
  function DoesUserExist(users: seq<UserRow>, collation: Collation, name: string): (found: bool)
    ensures found <==> exists i :: 0 <= i < |users| && Collates(collation, users[i].name, name)
  {
    var matching := Where(users, (u: UserRow) => Collates(collation, u.name, name));
    assert matching != [] ==> matching[0] in users;
    matching != []
  }

  /** `DoesUserExist(userId)`. */
  function DoesUserIdExist(users: seq<UserRow>, id: int): (found: bool)
    ensures found <==> exists i :: 0 <= i < |users| && users[i].id == id
  {
    var matching := Where(users, (u: UserRow) => u.id == id);
    assert matching != [] ==> matching[0] in users;
    matching != []
  }

  /** `DoesEmailExist(email)`, compared under the database's collation. */
  function DoesEmailExist(users: seq<UserRow>, collation: Collation, email: string): (found: bool)
    ensures found <==> exists i :: 0 <= i < |users| && Collates(collation, users[i].email, email)
  {
    var matching := Where(users, (u: UserRow) => Collates(collation, u.email, email));
    assert matching != [] ==> matching[0] in users;
    matching != []
  }

  /** `UserQueryInput`: each filter is optional. */
  datatype UserQueryInput = UserQueryInput(keyword: Option<string>, status: Option<int>, organizationUnitId: Option<int>)

  /** The filters of `GetAllUsersAsync`: a keyword that is not blank must occur in the name or the
      e-mail address (a `LIKE` under the database's collation); a status must match; an organisation unit must be the one the user is
      assigned to, so unassigned users drop out. */
  predicate MatchesInput(u: UserRow, collation: Collation, input: UserQueryInput) {
    (input.keyword.None? || IsBlank(input.keyword.value)
     || ContainsUnder(collation, u.name, input.keyword.value) || ContainsUnder(collation, u.email, input.keyword.value))
    && (input.status.None? || u.status == input.status.value)
    && (input.organizationUnitId.None? || u.organizationUnitId == Some(input.organizationUnitId.value))
  }

  function WhereIfKeyword(users: seq<UserRow>, collation: Collation, input: UserQueryInput): (r: seq<UserRow>)
    ensures forall u :: u in r <==>
              u in users && (input.keyword.None? || IsBlank(input.keyword.value)
                             || ContainsUnder(collation, u.name, input.keyword.value)
                             || ContainsUnder(collation, u.email, input.keyword.value))
  {
    if input.keyword.Some? && !IsBlank(input.keyword.value)
    then Where(users, (u: UserRow) => ContainsUnder(collation, u.name, input.keyword.value)
                                      || ContainsUnder(collation, u.email, input.keyword.value))
    else users
  }

  function WhereIfStatus(users: seq<UserRow>, input: UserQueryInput): (r: seq<UserRow>)
    ensures forall u :: u in r <==> u in users && (input.status.None? || u.status == input.status.value)
  {
    if input.status.Some? then Where(users, (u: UserRow) => u.status == input.status.value) else users
  }

  function WhereIfOrganizationUnit(users: seq<UserRow>, input: UserQueryInput): (r: seq<UserRow>)
    ensures forall u :: u in r <==>
              u in users && (input.organizationUnitId.None? || u.organizationUnitId == Some(input.organizationUnitId.value))
  {
    if input.organizationUnitId.Some?
    then Where(users, (u: UserRow) => u.organizationUnitId == Some(input.organizationUnitId.value))
    else users
  }

  /** The key of `OrderByDescending(u => u.Id)` as an ascending key. */
  function DescendingId(u: UserRow): int { -u.id }

  /** `GetAllUsersAsync` before paging: the matching users, largest id first. */
  function GetAllUsers(users: seq<UserRow>, collation: Collation, input: UserQueryInput): seq<UserRow> {
    SortBy(WhereIfOrganizationUnit(WhereIfStatus(WhereIfKeyword(users, collation, input), input), input), DescendingId)
  }

  lemma GetAllUsersSpec(users: seq<UserRow>, collation: Collation, input: UserQueryInput)
    ensures forall u :: u in GetAllUsers(users, collation, input) <==> u in users && MatchesInput(u, collation, input)
    ensures forall i, j :: 0 <= i < j < |GetAllUsers(users, collation, input)| ==>
              GetAllUsers(users, collation, input)[i].id >= GetAllUsers(users, collation, input)[j].id
  {
    var filtered := WhereIfOrganizationUnit(WhereIfStatus(WhereIfKeyword(users, collation, input), input), input);
    forall u ensures u in GetAllUsers(users, collation, input) <==> u in filtered {
      SortByMembers(filtered, DescendingId, u);
    }
    SortBySorted(filtered, DescendingId);
  }

  /** The owner of each issued refresh token equal to `token`, one entry per matching token
      (`SelectMany(u => u.RefreshTokens).Where(t => t.Token == token).Select(t => t.UserId)`). */
  function TokenOwners(users: seq<UserRow>, token: string): (owners: seq<int>)
    ensures forall id :: id in owners <==> exists i :: 0 <= i < |users| && users[i].id == id && token in users[i].refreshTokens
    ensures owners == [] <==> forall i :: 0 <= i < |users| ==> token !in users[i].refreshTokens
  {
    if users == [] then []
    else
      var u := users[0];
      var rest := TokenOwners(users[1..], token);
      assert forall i :: 0 < i < |users| ==> users[i] == users[1..][i - 1];
      Repeat(u.id, Occurrences(u.refreshTokens, token)) + rest
  }

  /** How many times `x` occurs in `s`. */
  function Occurrences(s: seq<string>, x: string): (n: nat)
    ensures n > 0 <==> x in s
  {
    if s == [] then 0 else (if s[0] == x then 1 else 0) + Occurrences(s[1..], x)
  }

  function Repeat(x: int, n: nat): (r: seq<int>)
    ensures |r| == n && forall i :: 0 <= i < n ==> r[i] == x
  {
    if n == 0 then [] else [x] + Repeat(x, n - 1)
  }

  /** `GetUserIdByRefreshTokenAsync`: the one user holding the token; `SingleOrDefault` fails
      when the token was issued more than once and the lookup fails when it was never issued. */
  function GetUserIdByRefreshToken(users: seq<UserRow>, token: string): (r: Result<int>)
    ensures r.Ok? ==> exists i :: 0 <= i < |users| && users[i].id == r.value && token in users[i].refreshTokens
    ensures r == Err(InvalidToken) <==> forall i :: 0 <= i < |users| ==> token !in users[i].refreshTokens
    ensures r.Ok? <==> |TokenOwners(users, token)| == 1
  {
    var owners := TokenOwners(users, token);
    if |owners| == 0 then
      assert forall i :: 0 <= i < |users| ==> users[i].id !in owners ==> token !in users[i].refreshTokens;
      Err(InvalidToken)
    else if |owners| == 1 then
      assert owners[0] in owners;
      Ok(owners[0])
    else
      assert owners[0] in owners;
      Err(MoreThanOneElement)
  }

  /** A token issued once, to one user, identifies that user. */
  lemma {:induction false} SoleHolder(users: seq<UserRow>, k: nat, token: string)
    requires k < |users| && Occurrences(users[k].refreshTokens, token) == 1
    requires forall i :: 0 <= i < |users| && i != k ==> token !in users[i].refreshTokens
    ensures TokenOwners(users, token) == [users[k].id]
    ensures GetUserIdByRefreshToken(users, token) == Ok(users[k].id)
  {
    var rest := TokenOwners(users[1..], token);
    if k == 0 {
      forall i | 0 <= i < |users[1..]| ensures token !in users[1..][i].refreshTokens {
        assert users[1..][i] == users[i + 1];
      }
      assert Repeat(users[0].id, 1) == [users[0].id];
      assert TokenOwners(users, token) == Repeat(users[0].id, 1) + rest;
    } else {
      forall i | 0 <= i < |users[1..]| && i != k - 1 ensures token !in users[1..][i].refreshTokens {
        assert users[1..][i] == users[i + 1];
      }
      SoleHolder(users[1..], k - 1, token);
      assert Occurrences(users[0].refreshTokens, token) == 0;
    }
  }

  /** The ids of the given users, in order. */
  function IdsOf(users: seq<UserRow>): (ids: seq<int>)
    ensures |ids| == |users| && forall i :: 0 <= i < |users| ==> ids[i] == users[i].id
  {
    if users == [] then [] else [users[0].id] + IdsOf(users[1..])
  }

  /** `GetUserIdsByRoleIdAsync`: the ids of the users holding the role. The query has no
      ORDER BY, so only which ids come back is stated, not their order. */
  function GetUserIdsByRoleId(users: seq<UserRow>, roleId: int): (ids: seq<int>)
    ensures forall id :: id in ids <==> exists i :: 0 <= i < |users| && users[i].id == id && roleId in users[i].roleIds
  {
    var holders := Where(users, (u: UserRow) => roleId in u.roleIds);
    assert forall id :: id in IdsOf(holders) <==> exists k :: 0 <= k < |holders| && holders[k].id == id;
    IdsOf(holders)
  }
}
