/** The desktop client's session: who is logged in, the permission codes of the login, and
    the permission queries the views use to show or hide commands. The login call itself is
    an input: its `ApiResponse`, which by construction of `ApiClient.Call` is never an
    exception. */
module Authentication {
  import opened Wrappers
  import opened Text
  import ApiClient

  datatype LoginResponse = LoginResponse(token: string, refreshToken: string, userId: string,
                                         name: string, email: string, permissions: string)

  /** Neither starts nor ends with white space. */
  predicate Trimmed(s: string) {
    s == [] || (!IsWhiteSpace(s[0]) && !IsWhiteSpace(s[|s| - 1]))
  }

  lemma TrimIsTrimmedSlice(s: string, c: char)
    ensures Trimmed(Trim(s))
    ensures c !in s ==> c !in Trim(s)
  {
    var t := TrimStart(s);
    var r := TrimEnd(t);
    if r != [] {
      assert r[0] == t[0];
    }
    if c !in s {
      assert forall i :: 0 <= i < |t| ==> t[i] == s[|s| - |t| + i];
      assert forall i :: 0 <= i < |r| ==> r[i] == t[i];
    }
  }

  /** The permission string of a login: split at ',', empty entries dropped, each entry
      trimmed. */
  function ParsePermissions(text: string): (ps: seq<string>)
    ensures |ps| == |SplitNonEmpty(text, ',')|
    ensures forall k :: 0 <= k < |ps| ==> ',' !in ps[k] && Trimmed(ps[k])
  {
    var parts := SplitNonEmpty(text, ',');
    forall k | 0 <= k < |parts| ensures ',' !in Trim(parts[k]) && Trimmed(Trim(parts[k])) {
      TrimIsTrimmedSlice(parts[k], ',');
    }
    seq(|parts|, k requires 0 <= k < |parts| => Trim(parts[k]))
  }

  // ---------------------------------------------------------------- the round trip

  /** Codes the parser gives back unchanged once they are joined with ','. */
  predicate PlainCodes(codes: seq<string>) {
    forall k :: 0 <= k < |codes| ==> codes[k] != [] && ',' !in codes[k] && Trimmed(codes[k])
  }

  lemma {:induction false} SegmentBeforeSeparator(a: string, x: string, sep: char)
    requires sep !in a
    ensures Segment(a + [sep] + x, sep) == a
    ensures Segment(a, sep) == a
  {
    if a != [] {
      assert (a + [sep] + x)[1..] == a[1..] + [sep] + x;
      SegmentBeforeSeparator(a[1..], x, sep);
    }
  }

  lemma {:induction false} SplitJoin(codes: seq<string>)
    requires forall k :: 0 <= k < |codes| ==> codes[k] != [] && ',' !in codes[k]
    ensures SplitNonEmpty(Join(",", codes), ',') == codes
  {
    if |codes| == 1 {
      var s := Join(",", codes);
      assert s == codes[0];
      SegmentBeforeSeparator(codes[0], [], ',');
      assert s[|codes[0]|..] == [];
    } else if |codes| > 1 {
      var rest := Join(",", codes[1..]);
      var s := Join(",", codes);
      assert s == codes[0] + [','] + rest;
      SegmentBeforeSeparator(codes[0], rest, ',');
      assert s[0] == codes[0][0];
      assert s[|codes[0]|..] == [','] + rest;
      assert ([','] + rest)[1..] == rest;
      SplitJoin(codes[1..]);
      assert codes == [codes[0]] + codes[1..];
    }
  }

  lemma TrimmedUnchanged(s: string)
    requires Trimmed(s)
    ensures Trim(s) == s
  {
  }

  /** Joining plain codes with ',' and parsing the result gives the codes back. */
  lemma ParseJoinedPermissions(codes: seq<string>)
    requires PlainCodes(codes)
    ensures ParsePermissions(Join(",", codes)) == codes
  {
    SplitJoin(codes);
    var ps := ParsePermissions(Join(",", codes));
    forall k | 0 <= k < |codes| ensures ps[k] == codes[k] {
      TrimmedUnchanged(codes[k]);
    }
  }

  /** The login endpoint fills the permission string with the JSON array of the codes (the
      codes are plain ASCII identifiers, which the serializer writes between quotes). */
  function JsonPermissionsText(codes: seq<string>): (text: string)
    ensures |text| >= 2 && text[0] == '[' && text[|text| - 1] == ']'
  {
    "[" + Join(",", seq(|codes|, k requires 0 <= k < |codes| => "\"" + codes[k] + "\"")) + "]"
  }

  /** As written, a login with a single code (UserView, say) yields the one entry
      `["UserView"]`, brackets and quotes included, so the client does not hold the code. */
  lemma AsWrittenJsonPermissions(code: string)
    requires ',' !in code
    ensures var text := JsonPermissionsText([code]);
            ParsePermissions(text) == [text] && code !in ParsePermissions(text)
  {
    var text := JsonPermissionsText([code]);
    var quoted := "\"" + code + "\"";
    assert seq(1, k requires 0 <= k < 1 => "\"" + [code][k] + "\"") == [quoted];
    assert text == "[" + quoted + "]";
    assert ',' !in text;
    SplitJoin([text]);
    TrimmedUnchanged(text);
    assert |text| > |code|;
  }

  // ---------------------------------------------------------------- the session

  class AuthService {
    const api: ApiClient.ApiService
    var currentUser: Option<LoginResponse>
    var permissions: seq<string>

    constructor (api: ApiClient.ApiService)
      ensures this.api == api && currentUser == None && permissions == []
    {
      this.api := api;
      currentUser := None;
      permissions := [];
    }

    predicate IsAuthenticated()
      reads this
    {
      currentUser.Some?
    }

    /** Takes the answer of the login call. A successful answer with a body becomes the
        session: the token goes to the token provider and a non-empty permission string
        replaces the permissions (an empty one keeps the previous list). Anything else
        changes nothing. */
    method Login(response: ApiClient.ApiResponse<LoginResponse>) returns (ok: bool)
      modifies this`currentUser, this`permissions, api.TokenFrame()`token
      ensures ok <==> response.success && response.data.Some?
      ensures ok ==> currentUser == response.data && IsAuthenticated()
      ensures ok ==> permissions == if response.data.value.permissions == "" then old(permissions)
                                    else ParsePermissions(response.data.value.permissions)
      ensures ok && api.tokenProvider.Some? ==> api.tokenProvider.value.token == response.data.value.token
      ensures !ok ==> currentUser == old(currentUser) && permissions == old(permissions)
                      && unchanged(api.TokenFrame())
    {
      if response.success && response.data.Some? {
        currentUser := response.data;
        api.SetAuthToken(currentUser.value.token);
        if currentUser.value.permissions != "" {
          permissions := ParsePermissions(currentUser.value.permissions);
        }
        return true;
      }
      return false;
    }

    /** Ends the session whatever the logout call answered: no user, no permissions and an
        empty token. */
    method Logout()
      modifies this`currentUser, this`permissions, api.TokenFrame()`token
      ensures currentUser == None && permissions == [] && !IsAuthenticated()
      ensures api.tokenProvider.Some? ==> api.tokenProvider.value.token == ""
    {
      api.SetAuthToken("");
      currentUser := None;
      permissions := [];
    }

    function HasPermission(permission: string): (r: bool)
      reads this
      ensures r <==> IsAuthenticated() && permission in permissions
    {
      IsAuthenticated() && ListContains(permissions, permission)
    }

    /** False for a null or empty argument; otherwise every code must be held. */
    function HasAllPermissions(requested: Option<seq<string>>): (r: bool)
      reads this
      ensures r <==> IsAuthenticated() && requested.Some? && |requested.value| > 0
                     && forall k :: 0 <= k < |requested.value| ==> requested.value[k] in permissions
    {
      IsAuthenticated() && requested.Some? && |requested.value| > 0 && AllContained(requested.value, permissions)
    }

    /** False for a null or empty argument; otherwise some code must be held. */
    function HasAnyPermission(requested: Option<seq<string>>): (r: bool)
      reads this
      ensures r <==> IsAuthenticated() && requested.Some?
                     && exists k :: 0 <= k < |requested.value| && requested.value[k] in permissions
    {
      IsAuthenticated() && requested.Some? && |requested.value| > 0 && AnyContained(requested.value, permissions)
    }
  }

  /** `List.Contains`. */
  function ListContains(xs: seq<string>, x: string): (r: bool)
    ensures r <==> x in xs
  {
    if xs == [] then false else xs[0] == x || ListContains(xs[1..], x)
  }

  /** `All(p => held.Contains(p))`. */
  function AllContained(requested: seq<string>, held: seq<string>): (r: bool)
    ensures r <==> forall k :: 0 <= k < |requested| ==> requested[k] in held
  {
    if requested == [] then true
    else ListContains(held, requested[0]) && AllContained(requested[1..], held)
  }

  /** `Any(p => held.Contains(p))`. */
  function AnyContained(requested: seq<string>, held: seq<string>): (r: bool)
    ensures r <==> exists k :: 0 <= k < |requested| && requested[k] in held
  {
    if requested == [] then false
    else ListContains(held, requested[0]) || AnyContained(requested[1..], held)
  }

  /** Holding all of a non-empty request means holding any of it, and for a single code both
      queries agree with `HasPermission`. */
  lemma AllImpliesAny(auth: AuthService, requested: Option<seq<string>>)
    ensures auth.HasAllPermissions(requested) ==> auth.HasAnyPermission(requested)
    ensures requested.Some? && |requested.value| == 1 ==>
              auth.HasAllPermissions(requested) == auth.HasPermission(requested.value[0])
              && auth.HasAnyPermission(requested) == auth.HasPermission(requested.value[0])
  {
    if auth.HasAllPermissions(requested) {
      assert requested.value[0] in auth.permissions;
    }
  }

  /** After a login that carried a comma-joined list of plain codes, the client holds exactly
      those codes. */
  lemma LoginGrantsJoinedCodes(auth: AuthService, codes: seq<string>, code: string)
    requires PlainCodes(codes) && codes != []
    requires auth.IsAuthenticated() && auth.permissions == ParsePermissions(Join(",", codes))
    ensures auth.HasPermission(code) <==> code in codes
  {
    ParseJoinedPermissions(codes);
  }
}
