/**
 * frontend/src/api/client.ts: the base URL, the Authorization header built
 * from the stored token, and the two axios interceptors. `localStorage` is the
 * class `Storage` (the user is kept as a value rather than as its JSON text)
 * and `window.location` the class `Location`. The build-time `VITE_API_URL` is
 * a parameter.
 */
module ApiClient {
  import opened Records

  const DefaultApiUrl: string := "http://localhost:8000"
  const LoginPath: string := "/login"
  const BearerPrefix: string := "Bearer "

  /** `import.meta.env.VITE_API_URL || 'http://localhost:8000'` */
  function ApiUrl(env: Option<string>): (url: string)
    ensures env.Some? && env.value != "" ==> url == env.value
    ensures env.None? || env.value == "" ==> url == DefaultApiUrl
  {
    if env.Some? && env.value != "" then env.value else DefaultApiUrl
  }

  /** The axios `baseURL`: every request path is resolved under `/api`. */
  function BaseUrl(env: Option<string>): (url: string)
    ensures |url| >= 4 && url[|url| - 4..] == "/api"
    ensures url[..|url| - 4] == ApiUrl(env)
  {
    ApiUrl(env) + "/api"
  }

  /** A stored token is sent only when it is truthy: present and not empty. */
  predicate Truthy(token: Option<string>) {
    token.Some? && token.value != ""
  }

  /** `getAuthToken`: `Bearer <token>` for a truthy token, `""` otherwise. */
  function AuthHeader(token: Option<string>): (h: string)
    ensures h == "" <==> !Truthy(token)
    ensures Truthy(token) ==> |h| > |BearerPrefix| && h[..|BearerPrefix|] == BearerPrefix
    ensures Truthy(token) ==> h[|BearerPrefix|..] == token.value
  {
    if Truthy(token) then BearerPrefix + token.value else ""
  }

  /** Different truthy tokens give different headers: the header names the token. */
  lemma AuthHeaderInjective(a: Option<string>, b: Option<string>)
    requires AuthHeader(a) == AuthHeader(b) && Truthy(a)
    ensures a == b
  {
    assert AuthHeader(a)[|BearerPrefix|..] == a.value;
    assert AuthHeader(b)[|BearerPrefix|..] == b.value;
  }

  type Headers = map<string, string>

  /** The request headers after the request interceptor. */
  function WithAuthorization(headers: Headers, token: Option<string>): (r: Headers)
    ensures Truthy(token) ==> r.Keys == headers.Keys + {"Authorization"} && r["Authorization"] == AuthHeader(token)
    ensures !Truthy(token) ==> r == headers
    ensures forall k :: k in headers && k != "Authorization" ==> k in r && r[k] == headers[k]
  {
    if Truthy(token) then headers["Authorization" := AuthHeader(token)] else headers
  }

  /** The Electric shape requests and the axios client send the same Authorization header. */
  lemma InterceptorAgreesWithGetAuthToken(headers: Headers, token: Option<string>)
    requires "Authorization" !in headers
    ensures AuthHeader(token) != "" <==> "Authorization" in WithAuthorization(headers, token)
    ensures "Authorization" in WithAuthorization(headers, token) ==>
      WithAuthorization(headers, token)["Authorization"] == AuthHeader(token)
  {
  }

  class Storage {
    var token: Option<string>
    var user: Option<User>

    constructor (token: Option<string>, user: Option<User>)
      ensures this.token == token && this.user == user
    {
      this.token := token;
      this.user := user;
    }

    /** `getAuthToken()` on the current contents. */
    function GetAuthToken(): (h: string)
      reads this
      ensures h == AuthHeader(token)
    {
      AuthHeader(token)
    }

    /** `removeItem('token')` and `removeItem('user')`. */
    method Clear()
      modifies this
      ensures token.None? && user.None?
      ensures GetAuthToken() == ""
    {
      token := None;
      user := None;
    }
  }

  class Location {
    var href: string

    constructor (href: string)
      ensures this.href == href
    {
      this.href := href;
    }
  }

  /** An outgoing request as the interceptor sees it. */
  class RequestConfig {
    var headers: Headers

    constructor (headers: Headers)
      ensures this.headers == headers
    {
      this.headers := headers;
    }
  }

  /** The request interceptor: adds Authorization for a truthy stored token, nothing else. */
  method InterceptRequest(config: RequestConfig, storage: Storage)
    modifies config
    ensures config.headers == WithAuthorization(old(config.headers), storage.token)
  {
    if storage.token.Some? && storage.token.value != "" {
      config.headers := config.headers["Authorization" := BearerPrefix + storage.token.value];
    }
  }

  /** What an axios call settles to: the response, or an error that may carry an HTTP status. */
  datatype Settled<R> = Ok(response: R) | Failed(status: Option<int>)

  /**
   * The response interceptor: a response passes through; an error is
   * rejected as it came, and a 401 first removes the stored session and sends
   * the browser to the login page.
   */
  method InterceptResponse<R>(settled: Settled<R>, storage: Storage, location: Location) returns (r: Settled<R>)
    modifies storage, location
    ensures r == settled
    ensures settled == Failed(Some(401)) ==> storage.token.None? && storage.user.None? && location.href == LoginPath
    ensures settled != Failed(Some(401)) ==>
      storage.token == old(storage.token) && storage.user == old(storage.user) && location.href == old(location.href)
  {
    r := settled;
    if settled.Failed? && settled.status == Some(401) {
      storage.Clear();
      location.href := LoginPath;
    }
  }
}
