/** `fetchApi` and the `api` table: the headers a request carries, how an
    exchange with the backend becomes `{data}` or `{error}`, and which path,
    method and timeout each call uses. The network is an input: the
    exchange that `fetch` would produce is passed in. */
module ApiClient {
  import opened Wrappers
  import Text
  import ApiBase
  import LocalStorage

  const DefaultTimeoutMs: nat := 60000
  const TestEmailTimeoutMs: nat := 45000
  const ContentTypeKey: string := "content-type"
  const AuthorizationKey: string := "authorization"
  const JsonContentType: string := "application/json"
  const TimeoutMessage: string := "Request timed out. Please check your network and SMTP configuration."
  const UnknownError: string := "Unknown error"

  // ----- headers -----

  /** Header names are compared without regard to ASCII case, so entries are
      kept under the lower-cased name. */
  function HeaderKey(name: string): string {
    Text.Lower(name)
  }

  /** The spellings used in `fetchApi` name the two lower-cased keys. */
  lemma HeaderKeys()
    ensures HeaderKey("Content-Type") == ContentTypeKey
    ensures HeaderKey("Authorization") == AuthorizationKey
  {
    assert HeaderKey("Content-Type") == ContentTypeKey by {
      var k := HeaderKey("Content-Type");
      assert |k| == |ContentTypeKey|;
      forall i | 0 <= i < |k| ensures k[i] == ContentTypeKey[i] {
        assert k[i] == Text.LowerChar("Content-Type"[i]);
      }
    }
    assert HeaderKey("Authorization") == AuthorizationKey by {
      var k := HeaderKey("Authorization");
      assert |k| == |AuthorizationKey|;
      forall i | 0 <= i < |k| ensures k[i] == AuthorizationKey[i] {
        assert k[i] == Text.LowerChar("Authorization"[i]);
      }
    }
  }

  /** `new Headers(init)`: every listed name is present, and a repeated name
      keeps its values joined with `, ` in order. */
  function HeadersOf(init: seq<(string, string)>): (m: map<string, string>)
    ensures forall k :: k in m <==> exists i :: 0 <= i < |init| && HeaderKey(init[i].0) == k
    decreases |init|
  {
    if init == [] then map[]
    else
      var m := HeadersOf(init[..|init| - 1]);
      var last := init[|init| - 1];
      var k := HeaderKey(last.0);
      assert forall i :: 0 <= i < |init| - 1 ==> init[..|init| - 1][i] == init[i];
      if k in m then m[k := m[k] + ", " + last.1] else m[k := last.1]
  }

  /** The browser's `Headers` object. */
  class Headers {
    var entries: map<string, string>

    constructor (init: seq<(string, string)>)
      ensures entries == HeadersOf(init)
    {
      entries := HeadersOf(init);
    }

    /** `headers.has(name)` */
    predicate Has(name: string)
      reads this
    {
      HeaderKey(name) in entries
    }

    /** `headers.set(name, value)`: replaces any value under that name. */
    method Set(name: string, value: string)
      modifies this
      ensures entries == old(entries)[HeaderKey(name) := value]
    {
      entries := entries[HeaderKey(name) := value];
    }
  }

  /** JavaScript truthiness of a string that may be `null`. */
  predicate Truthy(s: Option<string>) {
    s.Some? && s.value != ""
  }

  /** The headers `fetchApi` sends: the caller's headers always win, JSON is
      the default content type, and the stored token is sent as a bearer
      credential only when it is non-empty and no credential was given. */
  function PreparedHeaders(m: map<string, string>, token: Option<string>): (r: map<string, string>)
    ensures forall k :: k in m ==> k in r && r[k] == m[k]
    ensures r.Keys == m.Keys + {ContentTypeKey} + (if Truthy(token) then {AuthorizationKey} else {})
    ensures ContentTypeKey !in m ==> r[ContentTypeKey] == JsonContentType
    ensures AuthorizationKey in r <==> AuthorizationKey in m || Truthy(token)
    ensures AuthorizationKey !in m && Truthy(token) ==> r[AuthorizationKey] == "Bearer " + token.value
  {
    var withType := if ContentTypeKey in m then m else m[ContentTypeKey := JsonContentType];
    if Truthy(token) && AuthorizationKey !in withType then withType[AuthorizationKey := "Bearer " + token.value]
    else withType
  }

  /** The header steps of `fetchApi`, on a fresh `Headers` object. */
  method PrepareHeaders(init: seq<(string, string)>, token: Option<string>) returns (headers: Headers)
    ensures fresh(headers)
    ensures headers.entries == PreparedHeaders(HeadersOf(init), token)
  {
    HeaderKeys();
    headers := new Headers(init);
    if !headers.Has("Content-Type") {
      headers.Set("Content-Type", JsonContentType);
    }
    if Truthy(token) && !headers.Has("Authorization") {
      headers.Set("Authorization", "Bearer " + token.value);
    }
  }

  // ----- result shaping -----

  /** What a throw carries: an `Error` with a name and a message, or any
      other thrown value. */
  datatype Thrown = ErrorObject(name: string, message: string) | NonError

  /** What one exchange with the backend produced. */
  datatype Exchange<D> =
    | Ok(body: Result<D, string>)               // 2xx: the parsed body, or the parser's error message
    | NotOk(status: int, detail: Option<string>) // other status: the body's `detail`, if any
    | Rejected(thrown: Thrown)                   // `fetch` itself threw (network failure, abort)

  /** `{data}` or `{error}` */
  datatype ApiResponse<D> = Data(data: D) | Error(error: string)

  /** The inner `try`: what `fetchApi` returns or throws before the outer
      `catch` turns a throw into `{error}`. */
  function Settle<D>(x: Exchange<D>): Result<D, Thrown> {
    match x
    case Ok(Success(d)) => Success(d)
    case Ok(Failure(message)) => Failure(ErrorObject("SyntaxError", message))
    case NotOk(status, detail) =>
      Failure(ErrorObject("Error", if Truthy(detail) then detail.value else "HTTP error! status: " + Text.IntToString(status)))
    case Rejected(ErrorObject(name, message)) =>
      if name == "AbortError" then Failure(ErrorObject("Error", TimeoutMessage)) else Failure(ErrorObject(name, message))
    case Rejected(NonError) => Failure(NonError)
  }

  /** `fetchApi`'s result: it never throws. */
  /** Callers test `if (result.error)`: an empty message does not count as an error. */
  predicate ErrorShown<D>(result: ApiResponse<D>) {
    result.Error? && result.error != ""
  }

  function FetchResult<D>(x: Exchange<D>): ApiResponse<D> {
    match Settle(x)
    case Success(d) => Data(d)
    case Failure(ErrorObject(_, message)) => Error(message)
    case Failure(NonError) => Error(UnknownError)
  }

  /** Data only for a 2xx answer whose body parses; a non-2xx answer reports
      its `detail` or its status; an abort reports the timeout message; any
      other `Error` its own message; anything else "Unknown error". */
  lemma FetchResultCases<D>(x: Exchange<D>)
    ensures FetchResult(x).Data? <==> x.Ok? && x.body.Success?
    ensures x.Ok? && x.body.Success? ==> FetchResult(x) == Data(x.body.value)
    ensures x.Ok? && x.body.Failure? ==> FetchResult(x) == Error(x.body.error)
    ensures x.NotOk? && Truthy(x.detail) ==> FetchResult(x) == Error(x.detail.value)
    ensures x.NotOk? && !Truthy(x.detail) ==> FetchResult(x) == Error("HTTP error! status: " + Text.IntToString(x.status))
    ensures x.Rejected? && x.thrown.ErrorObject? && x.thrown.name == "AbortError" ==> FetchResult(x) == Error(TimeoutMessage)
    ensures x.Rejected? && x.thrown.ErrorObject? && x.thrown.name != "AbortError" ==> FetchResult(x) == Error(x.thrown.message)
    ensures x == Rejected(NonError) ==> FetchResult(x) == Error(UnknownError)
  {
  }

  // ----- the api table -----

  datatype HttpMethod = Get | Post | Put | Delete

  /** The calls of the `api` object. */
  datatype ApiCall =
    | PreviewPaper | AddPaper | RequestEmailVerification | GetPublicEmailConfig
    | GetPaperStatus(paperId: int)
    | Login | GetPapers | DeletePaper(paperId: int) | UpdatePaper(paperId: int)
    | GetSubscribers | DeleteSubscriber(subscriberId: int) | ResetSubscriberNotifications(subscriberId: int)
    | GetConfig | UpdateConfig | SendTestEmail | CheckNow

  function Endpoint(call: ApiCall): string {
    match call
    case PreviewPaper => "/papers/preview"
    case AddPaper => "/papers"
    case RequestEmailVerification => "/papers/verify-email"
    case GetPublicEmailConfig => "/public/email-config"
    case GetPaperStatus(id) => "/papers/" + Text.IntToString(id) + "/status"
    case Login => "/admin/login"
    case GetPapers => "/admin/papers"
    case DeletePaper(id) => "/admin/papers/" + Text.IntToString(id)
    case UpdatePaper(id) => "/admin/papers/" + Text.IntToString(id)
    case GetSubscribers => "/admin/subscribers"
    case DeleteSubscriber(id) => "/admin/subscribers/" + Text.IntToString(id)
    case ResetSubscriberNotifications(id) => "/admin/subscribers/" + Text.IntToString(id) + "/reset-notifications"
    case GetConfig => "/admin/config"
    case UpdateConfig => "/admin/config"
    case SendTestEmail => "/admin/test-email"
    case CheckNow => "/admin/check-now"
  }

  /** `fetch` defaults to GET when no method is given. */
  function MethodOf(call: ApiCall): HttpMethod {
    match call
    case PreviewPaper | AddPaper | RequestEmailVerification | Login
      | ResetSubscriberNotifications(_) | SendTestEmail | CheckNow => Post
    case DeletePaper(_) | DeleteSubscriber(_) => Delete
    case UpdatePaper(_) | UpdateConfig => Put
    case GetPublicEmailConfig | GetPaperStatus(_) | GetPapers | GetSubscribers | GetConfig => Get
  }

  /** Only the test e-mail waits 45 seconds; every other call uses the
      60-second default. */
  function TimeoutOf(call: ApiCall): (ms: nat)
    ensures ms == TestEmailTimeoutMs <==> call.SendTestEmail?
    ensures !call.SendTestEmail? ==> ms == DefaultTimeoutMs
  {
    if call.SendTestEmail? then TestEmailTimeoutMs else DefaultTimeoutMs
  }

  /** Every path starts with `/`, so the request URL is the base without one
      trailing slash followed by the path. */
  lemma EndpointUrl(base: string, call: ApiCall)
    ensures Text.StartsWith(Endpoint(call), "/")
    ensures ApiBase.BuildApiUrl(base, Endpoint(call))
      == (if Text.EndsWith(base, "/") then base[..|base| - 1] else base) + Endpoint(call)
  {
    var e := Endpoint(call);
    assert e[0] == '/';
    assert e[..1] == "/";
  }

  /** What a page handler sends, and whether it loads its data again after. */
  datatype Followup = Followup(request: Option<ApiCall>, reload: bool)

  /** What `fetch` is asked to do. */
  datatype Request = Request(url: string, verb: HttpMethod, headers: map<string, string>, timeoutMs: nat)

  /** `fetchApi(endpoint, options, timeoutMs)` for one call of the `api`
      table: the request uses the active base and the prepared headers, and
      the exchange is shaped by `FetchResult`. */
  method FetchApi<D>(storage: LocalStorage.Storage, officialRaw: string, call: ApiCall,
                     init: seq<(string, string)>, exchange: Exchange<D>)
    returns (request: Request, r: ApiResponse<D>)
    ensures request.url == ApiBase.BuildApiUrl(ApiBase.GetApiConfig(storage.items, officialRaw).base, Endpoint(call))
    ensures request.verb == MethodOf(call) && request.timeoutMs == TimeoutOf(call)
    ensures request.headers == PreparedHeaders(HeadersOf(init), storage.GetItem(ApiBase.TokenKey))
    ensures r == FetchResult(exchange)
  {
    var token := storage.GetItem(ApiBase.TokenKey);
    var headers := PrepareHeaders(init, token);
    var base := ApiBase.GetApiConfig(storage.items, officialRaw).base;
    request := Request(ApiBase.BuildApiUrl(base, Endpoint(call)), MethodOf(call), headers.entries, TimeoutOf(call));
    r := FetchResult(exchange);
  }
}
