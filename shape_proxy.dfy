/**
 * ShapeController::todos: the tenant-scoping proxy in front of the ElectricSQL
 * shape endpoint. It refuses a request without a user, copies the whitelisted
 * Electric protocol parameters, pins `table` to `todos`, overwrites `where`
 * with the acting user's filter, sends the request upstream and relays the
 * response with three transport headers (in two spellings each) removed.
 * The upstream call is the parameter `upstream`; the body is relayed as an
 * opaque string.
 */
module ShapeProxy {
  import opened Records
  import opened Text

  /** The Electric protocol parameters forwarded from the client, in the order they are copied. */
  const ProtocolParams: seq<string> := ["offset", "handle", "live", "cursor", "where", "columns"]

  const ProtocolParamSet: set<string> := set p | p in ProtocolParams

  /** Header names dropped before relaying; the comparison is case-sensitive. */
  const ExcludedHeaders: set<string> := {
    "content-encoding", "Content-Encoding",
    "content-length", "Content-Length",
    "transfer-encoding", "Transfer-Encoding"
  }

  /** `env('ELECTRIC_URL', ...)`'s default. */
  const DefaultElectricUrl: string := "http://localhost:3000"

  const UnauthorizedMessage: string := "Unauthorized"

  type Headers = map<string, seq<string>>

  datatype UpstreamRequest = UpstreamRequest(url: string, query: map<string, string>)

  datatype UpstreamResponse = UpstreamResponse(status: int, headers: Headers, body: string)

  /** What the controller answers: a 401 JSON error, or the relayed upstream response. */
  datatype Reply =
    | Unauthorized(message: string)
    | Relayed(status: int, headers: Headers, body: string)
  {
    function Status(): int {
      if Unauthorized? then 401 else status
    }
  }

  /** `$electricUrl . '/v1/shape'`, with ELECTRIC_URL given as `electricUrl` (None when unset). */
  function UpstreamUrl(electricUrl: Option<string>): (url: string)
    ensures electricUrl.None? ==> url == "http://localhost:3000/v1/shape"
    ensures electricUrl.Some? ==> url == electricUrl.value + "/v1/shape"
  {
    (if electricUrl.Some? then electricUrl.value else DefaultElectricUrl) + "/v1/shape"
  }

  /** The server-authored row filter: `"user_id = {$user->id}"`. */
  function ScopeFilter(uid: int): string {
    "user_id = " + IntToDecimal(uid)
  }

  /** Two users never share a filter, so neither can read the other's rows. */
  lemma ScopeFiltersDistinct(uid: int, other: int)
    requires uid != other
    ensures ScopeFilter(uid) != ScopeFilter(other)
  {
    var prefix := "user_id = ";
    if ScopeFilter(uid) == ScopeFilter(other) {
      assert ScopeFilter(uid)[|prefix|..] == IntToDecimal(uid);
      assert ScopeFilter(other)[|prefix|..] == IntToDecimal(other);
      IntToDecimalInjective(uid, other);
    }
  }

  /**
   * The query sent upstream, as a value: the whitelisted parameters the client
   * supplied, `table` forced to `todos` and `where` forced to the user's filter.
   */
  function ForwardedQuery(request: map<string, string>, uid: int): (q: map<string, string>)
    ensures q.Keys == (request.Keys * ProtocolParamSet) + {"table", "where"}
    ensures q.Keys <= ProtocolParamSet + {"table"}
    ensures q["table"] == "todos" && q["where"] == ScopeFilter(uid)
    ensures forall p :: p in q && p != "table" && p != "where" ==> p in request && q[p] == request[p]
  {
    var copied := map p | p in request && p in ProtocolParams :: request[p];
    copied["table" := "todos"]["where" := ScopeFilter(uid)]
  }

  /** A client-sent `where` is thrown away, not combined with the server filter. */
  lemma ClientWhereIgnored(request: map<string, string>, clientWhere: string, uid: int)
    ensures ForwardedQuery(request["where" := clientWhere], uid) == ForwardedQuery(request, uid)
    ensures ForwardedQuery(request - {"where"}, uid) == ForwardedQuery(request, uid)
  {
    var a := ForwardedQuery(request["where" := clientWhere], uid);
    var b := ForwardedQuery(request, uid);
    var c := ForwardedQuery(request - {"where"}, uid);
    assert a.Keys == b.Keys == c.Keys;
    forall p | p in b ensures a[p] == b[p] == c[p] {
      if p != "where" && p != "table" {
        assert p in request;
      }
    }
  }

  /** Only parameters outside the whitelist are dropped: keys such as `table` from the client never reach upstream as sent. */
  lemma ClientTableIgnored(request: map<string, string>, clientTable: string, uid: int)
    ensures ForwardedQuery(request["table" := clientTable], uid) == ForwardedQuery(request, uid)
  {
    var a := ForwardedQuery(request["table" := clientTable], uid);
    var b := ForwardedQuery(request, uid);
    assert "table" !in ProtocolParamSet;
    assert a.Keys == b.Keys;
  }

  /** The `foreach` over the whitelist that builds `$queryParams`, then the two forced entries. */
  method BuildQuery(request: map<string, string>, uid: int) returns (q: map<string, string>)
    ensures q == ForwardedQuery(request, uid)
  {
    q := map[];
    for i := 0 to |ProtocolParams|
      invariant q == map p | p in request && p in ProtocolParams[..i] :: request[p]
    {
      var param := ProtocolParams[i];
      assert ProtocolParams[..i + 1] == ProtocolParams[..i] + [param];
      if param in request {
        q := q[param := request[param]];
      }
    }
    assert ProtocolParams[..|ProtocolParams|] == ProtocolParams;
    q := q["table" := "todos"];
    q := q["where" := ScopeFilter(uid)];
  }

  /** `collect($response->headers())->except([...])`: every header but the six names. */
  function RelayHeaders(upstream: Headers): (h: Headers)
    ensures h.Keys == upstream.Keys - ExcludedHeaders
    ensures forall k :: k in h ==> h[k] == upstream[k]
  {
    map k | k in upstream && k !in ExcludedHeaders :: upstream[k]
  }

  /** The exclusion is by exact name: a spelling outside the six, such as all capitals, is relayed. */
  lemma OtherSpellingsRelayed(upstream: Headers)
    requires "CONTENT-LENGTH" in upstream
    ensures "CONTENT-LENGTH" in RelayHeaders(upstream)
    ensures "content-length" !in RelayHeaders(upstream)
  {
  }

  /** `response($response->body(), $response->status())->withHeaders($headers)` */
  function Relay(response: UpstreamResponse): (r: Reply)
    ensures r.Relayed? && r.Status() == response.status && r.body == response.body
    ensures r.headers.Keys == response.headers.Keys - ExcludedHeaders
    ensures forall k :: k in r.headers ==> r.headers[k] == response.headers[k]
  {
    Relayed(response.status, RelayHeaders(response.headers), response.body)
  }

  /**
   * ShapeController::todos. `upstream` stands for the ElectricSQL server; `sent`
   * is the request handed to it, None when none was made.
   */
  method Todos(
    user: Option<User>,
    request: map<string, string>,
    electricUrl: Option<string>,
    upstream: UpstreamRequest -> UpstreamResponse)
    returns (reply: Reply, sent: Option<UpstreamRequest>)
    ensures user.None? <==> reply.Unauthorized?
    ensures user.None? ==> reply == Unauthorized("Unauthorized") && reply.Status() == 401 && sent.None?
    ensures user.Some? ==> sent == Some(UpstreamRequest(UpstreamUrl(electricUrl), ForwardedQuery(request, user.value.id)))
    ensures user.Some? ==> reply == Relay(upstream(sent.value))
  {
    if user.None? {
      return Unauthorized(UnauthorizedMessage), None;
    }
    var url := UpstreamUrl(electricUrl);
    var query := BuildQuery(request, user.value.id);
    var outgoing := UpstreamRequest(url, query);
    var response := upstream(outgoing);
    reply := Relay(response);
    sent := Some(outgoing);
  }

  /**
   * Tenant isolation end to end: whatever two users send, their upstream requests
   * differ in `where`, and each carries its own user's filter.
   */
  lemma TenantIsolation(a: User, b: User, ra: map<string, string>, rb: map<string, string>, electricUrl: Option<string>)
    requires a.id != b.id
    ensures ForwardedQuery(ra, a.id)["where"] != ForwardedQuery(rb, b.id)["where"]
  {
    ScopeFiltersDistinct(a.id, b.id);
  }
}
