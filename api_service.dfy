/** The desktop client's HTTP layer: the query string built from a query object, the error
    response every public call returns instead of throwing, and the token the client sends.
    Sending a request is an input (its response, or the exception it threw), and so are JSON
    deserialisation and `Uri.EscapeDataString`. */
module ApiClient {
  import opened Wrappers
  import opened Text

  /** The envelope every endpoint answers with. */
  datatype ApiResponse<T> = ApiResponse(success: bool, message: string, code: int, data: Option<T>)

  const ErrorCode := -1

  /** The response a public call returns when anything went wrong. */
  function CreateErrorResponse<T>(message: string): (r: ApiResponse<T>)
    ensures !r.success && r.code == ErrorCode && r.data.None? && r.message == message
  {
    ApiResponse(false, message, ErrorCode, None)
  }

  datatype HttpResponse = HttpResponse(statusCode: int, content: string)

  predicate IsSuccessStatusCode(statusCode: int) {
    200 <= statusCode <= 299
  }

  const DeserializeFailed := "反序列化响应失败"
  const HttpErrorPrefix := "HTTP错误: "

  /** Reads a response: the deserialised body of a 2xx response, otherwise an exception. */
  function HandleResponse<T>(response: HttpResponse, deserialize: string -> Option<T>): (r: Result<T>)
    ensures r.Ok? <==> IsSuccessStatusCode(response.statusCode) && deserialize(response.content).Some?
    ensures r.Ok? ==> Some(r.value) == deserialize(response.content)
  {
    if IsSuccessStatusCode(response.statusCode) then
      match deserialize(response.content)
      case Some(value) => Ok(value)
      case None => Err(DeserializeFailed)
    else Err(HttpErrorPrefix + DecimalText(response.statusCode) + ", 内容: " + response.content)
  }

  /** The shape of every public call: send, read the response, and turn any exception (of the
      transport or of `HandleResponse`) into the error response with the call's message. */
  function Call<T>(sent: Result<HttpResponse>, deserialize: string -> Option<ApiResponse<T>>,
                   failureMessage: string): (r: ApiResponse<T>)
    ensures sent.Err? ==> r == CreateErrorResponse(failureMessage)
    ensures sent.Ok? && !IsSuccessStatusCode(sent.value.statusCode) ==> r == CreateErrorResponse(failureMessage)
    ensures sent.Ok? && IsSuccessStatusCode(sent.value.statusCode) && deserialize(sent.value.content).Some? ==>
              r == deserialize(sent.value.content).value
    ensures sent.Ok? && IsSuccessStatusCode(sent.value.statusCode) && deserialize(sent.value.content).None? ==>
              r == CreateErrorResponse(failureMessage)
  {
    match sent
    case Err(_) => CreateErrorResponse(failureMessage)
    case Ok(response) =>
      match HandleResponse(response, deserialize)
      case Ok(body) => body
      case Err(_) => CreateErrorResponse(failureMessage)
  }

  /** A call reports success only when the server answered 2xx with a body that says so. */
  lemma CallSuccess<T>(sent: Result<HttpResponse>, deserialize: string -> Option<ApiResponse<T>>, failureMessage: string)
    ensures Call(sent, deserialize, failureMessage).success ==>
              sent.Ok? && IsSuccessStatusCode(sent.value.statusCode)
              && deserialize(sent.value.content).Some? && deserialize(sent.value.content).value.success
  {
  }

  // ---------------------------------------------------------------- the query string

  /** A public property of a query object: its name and the text of its value, `None` when
      the value is null. */
  datatype QueryProperty = QueryProperty(name: string, value: Option<string>)

  /** The `name=value` pairs of the non-null properties, in property order. */
  function QueryParams(properties: seq<QueryProperty>, escape: string -> string): (ps: seq<string>)
    ensures |ps| <= |properties|
  {
    if properties == [] then []
    else
      var p := properties[|properties| - 1];
      QueryParams(properties[..|properties| - 1], escape)
      + (if p.value.Some? then [p.name + "=" + escape(p.value.value)] else [])
  }

  /** The non-null properties, in property order. */
  function NonNull(properties: seq<QueryProperty>): (present: seq<QueryProperty>)
    ensures forall p :: p in present <==> p in properties && p.value.Some?
  {
    if properties == [] then []
    else (if properties[0].value.Some? then [properties[0]] else []) + NonNull(properties[1..])
  }

  /** The pair a non-null property contributes. */
  function Pair(p: QueryProperty, escape: string -> string): string
    requires p.value.Some?
  {
    p.name + "=" + escape(p.value.value)
  }

  lemma {:induction false} NonNullSnoc(properties: seq<QueryProperty>, p: QueryProperty)
    ensures NonNull(properties + [p]) == NonNull(properties) + (if p.value.Some? then [p] else [])
  {
    if properties == [] {
      assert NonNull([p]) == (if p.value.Some? then [p] else []) + NonNull([]);
    } else {
      var head := if properties[0].value.Some? then [properties[0]] else [];
      assert (properties + [p])[0] == properties[0];
      assert (properties + [p])[1..] == properties[1..] + [p];
      NonNullSnoc(properties[1..], p);
      assert NonNull(properties + [p]) == head + NonNull(properties[1..] + [p]);
    }
  }

  /** The pairs are those of the non-null properties, one each, in property order. */
  lemma {:induction false} QueryParamsArePairs(properties: seq<QueryProperty>, escape: string -> string)
    ensures var present := NonNull(properties);
            QueryParams(properties, escape) == seq(|present|, i requires 0 <= i < |present| => Pair(present[i], escape))
  {
    if properties != [] {
      var init, last := properties[..|properties| - 1], properties[|properties| - 1];
      assert properties == init + [last];
      QueryParamsArePairs(init, escape);
      NonNullSnoc(init, last);
    }
  }

  /** Collects the pairs of the non-null properties and joins them after a '?'. */
  method BuildQueryString(properties: seq<QueryProperty>, escape: string -> string) returns (query: string)
    ensures var ps := QueryParams(properties, escape);
            query == if ps == [] then "" else "?" + Join("&", ps)
  {
    var queryParams: seq<string> := [];
    for i := 0 to |properties|
      invariant queryParams == QueryParams(properties[..i], escape)
    {
      assert properties[..i + 1][..i] == properties[..i];
      var value := properties[i].value;
      if value.Some? {
        queryParams := queryParams + [properties[i].name + "=" + escape(value.value)];
      }
    }
    assert properties[..|properties|] == properties;
    query := if |queryParams| > 0 then "?" + Join("&", queryParams) else "";
  }

  /** There are no pairs exactly when every property is null, so the query string is empty
      exactly then; otherwise it starts with '?'. */
  lemma {:induction false} QueryParamsEmpty(properties: seq<QueryProperty>, escape: string -> string)
    ensures QueryParams(properties, escape) == [] <==> forall i :: 0 <= i < |properties| ==> properties[i].value.None?
  {
    if properties != [] {
      var init := properties[..|properties| - 1];
      QueryParamsEmpty(init, escape);
      assert forall i :: 0 <= i < |init| ==> init[i] == properties[i];
    }
  }

  // ---------------------------------------------------------------- the token

  /** Holds the token the request handler attaches to every call. */
  class TokenProvider {
    var token: string

    constructor ()
      ensures token == ""
    {
      token := "";
    }

    /** A null token is stored as the empty string. */
    method SetToken(t: Option<string>)
      modifies this`token
      ensures token == t.GetOr("")
    {
      token := t.GetOr("");
    }
  }

  class ApiService {
    /** The token provider when it is the concrete `TokenProvider`; `None` for any other
        implementation, which `SetAuthToken` then leaves alone. */
    const tokenProvider: Option<TokenProvider>

    constructor (tokenProvider: Option<TokenProvider>)
      ensures this.tokenProvider == tokenProvider
    {
      this.tokenProvider := tokenProvider;
    }

    function TokenFrame(): set<TokenProvider> {
      if tokenProvider.Some? then {tokenProvider.value} else {}
    }

    method SetAuthToken(token: string)
      modifies TokenFrame()`token
      ensures tokenProvider.Some? ==> tokenProvider.value.token == token
    {
      if tokenProvider.Some? {
        tokenProvider.value.SetToken(Some(token));
      }
    }
  }
}
