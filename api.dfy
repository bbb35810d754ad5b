/** The HTTP client's two interceptors: the request interceptor that attaches the
    access token, and the response-error interceptor that refreshes the tokens once
    on a 401 and replays the request, or signs the user out and sends them to the
    login page. The network calls themselves are inputs: the outcome of the
    refresh call is passed in, and the replay is returned as a decision. */
module Api {
  import opened Common
  import opened AuthStore

  const BaseUrl := "http://localhost:8080/api"
  const RefreshPath := "/auth/refresh"
  const LoginPath := "/login"

  /** The `Authorization` header value for a token. */
  function Bearer(token: string): (h: string)
    ensures StartsWith(h, "Bearer ") && h[7..] == token
  {
    "Bearer " + token
  }

  /** The mutable part of an outgoing request: its headers (absent when the request has none)
      and the `_retry` mark the response interceptor sets. */
  class RequestConfig {
    var headers: Option<map<string, string>>
    var retry: bool

    constructor(headers: Option<map<string, string>>)
      ensures this.headers == headers && !retry
    {
      this.headers := headers;
      retry := false;
    }
  }

  /** `headers.Authorization = Bearer <token>` on a request that has headers. */
  function WithBearer(headers: Option<map<string, string>>, token: string): (r: Option<map<string, string>>)
    ensures r.Some? <==> headers.Some?
    ensures r.Some? ==> r.value.Keys == headers.value.Keys + {"Authorization"}
    ensures r.Some? ==> r.value["Authorization"] == Bearer(token)
    ensures r.Some? ==> forall k :: k in headers.value && k != "Authorization" ==> r.value[k] == headers.value[k]
  {
    if headers.Some? then Some(headers.value["Authorization" := Bearer(token)]) else None
  }

  /** The request interceptor: a truthy access token is attached to a request that has headers. */
  method AttachToken(store: AuthState, config: RequestConfig)
    modifies config
    ensures config.headers ==
      (if Truthy(store.accessToken) then WithBearer(old(config.headers), store.accessToken.value)
       else old(config.headers))
    ensures config.retry == old(config.retry)
  {
    if Truthy(store.accessToken) && config.headers.Some? {
      config.headers := WithBearer(config.headers, store.accessToken.value);
    }
  }

  /** What the refresh call would answer: a new token pair, or a thrown error. */
  datatype RefreshOutcome = Refreshed(accessToken: string, refreshToken: string) | RefreshFailed(reason: string)

  /** The promise the interceptor returns. */
  datatype Rejection = OriginalError | RefreshError(reason: string)
  datatype Decision = Replay | Reject(why: Rejection)

  /** Whether the interceptor takes the refresh path for a failure. */
  predicate ShouldRefresh(status: Option<int>, retried: bool)
  {
    status == Some(401) && !retried
  }

  /** The response-error interceptor. `status` is the failed response's status (None when there was no
      response); `refresh` is what the refresh endpoint answers if it is called. Returns the promise's
      fate, the refresh token posted to the refresh endpoint (if any) and the page the window is sent to. */
  method OnResponseError(status: Option<int>, config: RequestConfig, store: AuthState, refresh: RefreshOutcome)
    returns (decision: Decision, posted: Option<string>, redirect: Option<string>)
    requires config != store as object
    modifies config, store
    ensures old(store.Valid()) ==> store.Valid()
    ensures ShouldRefresh(status, old(config.retry)) ==> store.Valid()
    ensures !ShouldRefresh(status, old(config.retry)) ==>
      decision == Reject(OriginalError) && posted == None && redirect == None
      && config.headers == old(config.headers) && config.retry == old(config.retry)
      && store.Snapshot() == old(store.Snapshot())
    ensures ShouldRefresh(status, old(config.retry)) ==> config.retry
    ensures ShouldRefresh(status, old(config.retry)) && Truthy(old(store.refreshToken)) ==>
      posted == old(store.refreshToken)
    ensures ShouldRefresh(status, old(config.retry)) && Truthy(old(store.refreshToken)) && refresh.Refreshed? ==>
      decision == Replay && redirect == None
      && store.Snapshot() == PersistedAuth(Some(refresh.accessToken), Some(refresh.refreshToken), old(store.user), true)
      && config.headers == WithBearer(old(config.headers), refresh.accessToken)
    ensures ShouldRefresh(status, old(config.retry)) && Truthy(old(store.refreshToken)) && refresh.RefreshFailed? ==>
      decision == Reject(RefreshError(refresh.reason)) && redirect == Some(LoginPath)
      && store.Snapshot() == PersistedAuth(None, None, None, false)
      && config.headers == old(config.headers)
    ensures ShouldRefresh(status, old(config.retry)) && !Truthy(old(store.refreshToken)) ==>
      decision == Reject(OriginalError) && posted == None && redirect == Some(LoginPath)
      && store.Snapshot() == PersistedAuth(None, None, None, false)
      && config.headers == old(config.headers)
  {
    posted := None;
    redirect := None;
    if ShouldRefresh(status, config.retry) {
      config.retry := true;
      var token := store.refreshToken;
      if Truthy(token) {
        posted := token;
        match refresh {
          case Refreshed(access, next) =>
            store.SetTokens(access, next);
            if config.headers.Some? {
              config.headers := WithBearer(config.headers, access);
            }
            return Replay, posted, redirect;
          case RefreshFailed(reason) =>
            store.Logout();
            redirect := Some(LoginPath);
            return Reject(RefreshError(reason)), posted, redirect;
        }
      } else {
        store.Logout();
        redirect := Some(LoginPath);
      }
    }
    decision := Reject(OriginalError);
  }

  /** A request is refreshed at most once: when its replay fails with 401 again, the interceptor
      rejects with that error and neither calls the refresh endpoint nor signs the user out. */
  method SecondUnauthorizedIsFinal(config: RequestConfig, store: AuthState, first: RefreshOutcome, second: RefreshOutcome)
    returns (d1: Decision, d2: Decision, posted2: Option<string>)
    requires config != store as object
    requires !config.retry
    requires Truthy(store.refreshToken) && first.Refreshed?
    modifies config, store
    ensures d1 == Replay
    ensures d2 == Reject(OriginalError) && posted2 == None
    ensures store.Snapshot() == PersistedAuth(Some(first.accessToken), Some(first.refreshToken), old(store.user), true)
  {
    var p1, r1;
    d1, p1, r1 := OnResponseError(Some(401), config, store, first);
    var r2;
    d2, posted2, r2 := OnResponseError(Some(401), config, store, second);
  }
}
