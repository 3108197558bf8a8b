/** The HTTP client wrapper: the request interceptor that attaches the bearer
    token, the response interceptor that passes successes through and turns
    every failure into a `{message, status}` rejection plus at most one
    user-visible effect, the separately exported `extractErrorMessage`, and
    the URL that `get` requests. The transport, the toasts, the browser
    storage and navigation are outside; they appear as effect tags. */
module ApiServices {
  import opened JsValues
  import AuthSlice

  /** Generic message used when a failure carries none. */
  const SOMETHING_WENT_WRONG := "OOPS! Something went wrong"
  const TIMEOUT_MESSAGE := "Request timeout. Please try again."
  const NETWORK_MESSAGE := "Network error. Please check your internet connection."
  /** The transport's error code for a client-side timeout or abort. */
  const ECONNABORTED := "ECONNABORTED"
  /** `status_code.timeout` */
  const STATUS_TIMEOUT := 408
  /** The status that expires the session. */
  const STATUS_UNAUTHORIZED := 401
  const AUTHORIZATION := "Authorization"
  const BEARER_PREFIX := "Bearer "
  /** Where session expiry sends the browser. */
  const ROOT_PATH := "/"

  // ---------------------------------------------------------------------
  // The failure the transport reports, with every field optional

  /** `response.data.error` */
  datatype NestedError = NestedError(message: Option<string>)
  /** `response.data`, the application's error body */
  datatype ResponseBody = ResponseBody(error: Option<NestedError>, message: Option<string>)
  /** `response`, present only when the server answered */
  datatype Response = Response(status: Option<int>, statusText: Option<string>, data: Option<ResponseBody>)
  /** The error object handed to the failure handler. */
  datatype HttpError = HttpError(response: Option<Response>, message: Option<string>, status: Option<int>, code: Option<string>)

  // ---------------------------------------------------------------------
  // What a call settles to

  /** The normalised rejection value `{message, status}`. */
  datatype ApiError = ApiError(message: string, status: int)

  /** The one side effect a failure may trigger. */
  datatype Effect = TimeoutToast(text: string) | InternetToast | SessionExpire | NoEffect

  /** A failure's outcome: the rejection value and its effect. */
  datatype Rejection = Rejection(reason: ApiError, effect: Effect)

  /** What the transport did: answered with a 2xx response, or failed. */
  datatype Settlement<R> = Fulfilled(response: R) | Failed(error: HttpError)

  /** What the caller of the wrapper sees. */
  datatype Outcome<R> = Resolved(response: R) | Rejected(rejection: Rejection)

  /** The primitive actions behind an effect, in the order they happen. */
  datatype Action = ShowErrorToast(text: string) | ShowInternetToast | ClearLocalStorage | ClearSessionStorage | ReplaceLocation(path: string)

  // ---------------------------------------------------------------------
  // Optional chaining into the error object

  /** `error?.response?.data?.error?.message` */
  function NestedErrorMessage(e: HttpError): Option<string> {
    match e.response
    case Some(Response(_, _, Some(ResponseBody(Some(NestedError(m)), _)))) => m
    case _ => None
  }

  /** `error?.response?.data?.message` */
  function BodyMessage(e: HttpError): Option<string> {
    match e.response
    case Some(Response(_, _, Some(ResponseBody(_, m)))) => m
    case _ => None
  }

  /** `error?.response?.statusText` */
  function StatusText(e: HttpError): Option<string> {
    match e.response
    case Some(r) => r.statusText
    case None => None
  }

  /** `error?.response?.status` */
  function ResponseStatus(e: HttpError): Option<int> {
    match e.response
    case Some(r) => r.status
    case None => None
  }

  // ---------------------------------------------------------------------
  // The failure handler of the response interceptor

  /** The message candidates of the failure handler, in precedence order. */
  function InterceptorCandidates(e: HttpError): seq<Option<string>> {
    [NestedErrorMessage(e), BodyMessage(e), StatusText(e), e.message]
  }

  /** The failure handler's message: the `||` chain over the nested error
      message, the body message, the status text and the error's own message,
      ending in the generic message. */
  function DerivedMessage(e: HttpError): (r: string)
    ensures r == FirstTruthy(InterceptorCandidates(e), SOMETHING_WENT_WRONG)
    ensures r != ""
  {
    var chain := Or(Or(Or(Or(NestedErrorMessage(e), BodyMessage(e)), StatusText(e)), e.message), Some(SOMETHING_WENT_WRONG));
    OrChainIsFirstTruthy(NestedErrorMessage(e), BodyMessage(e), StatusText(e), e.message, SOMETHING_WENT_WRONG);
    chain.value
  }

  /** The failure handler's status: `response.status || error.status || 0`. */
  function DerivedStatus(e: HttpError): (s: int)
    ensures TruthyNumber(ResponseStatus(e)) ==> s == ResponseStatus(e).value
    ensures !TruthyNumber(ResponseStatus(e)) && TruthyNumber(e.status) ==> s == e.status.value
    ensures s == 0 <==> !TruthyNumber(ResponseStatus(e)) && !TruthyNumber(e.status)
  {
    if TruthyNumber(ResponseStatus(e)) then ResponseStatus(e).value
    else if TruthyNumber(e.status) then e.status.value
    else 0
  }

  /** The failure handler: every failure is rejected. Without a response, a
      timeout gives the fixed timeout rejection and toast, anything else the
      fixed network rejection and internet toast; with a response, the
      derived message and status are rejected, and a derived 401 expires the
      session. */
  function OnRejected(e: HttpError): (o: Rejection)
    ensures e.response.None? && e.code == Some(ECONNABORTED) ==>
      o == Rejection(ApiError(TIMEOUT_MESSAGE, STATUS_TIMEOUT), TimeoutToast(TIMEOUT_MESSAGE))
    ensures e.response.None? && e.code != Some(ECONNABORTED) ==>
      o == Rejection(ApiError(NETWORK_MESSAGE, 0), InternetToast)
    ensures e.response.Some? ==> o.reason == ApiError(DerivedMessage(e), DerivedStatus(e))
    ensures o.effect == SessionExpire <==> e.response.Some? && DerivedStatus(e) == STATUS_UNAUTHORIZED
    ensures e.response.Some? && DerivedStatus(e) != STATUS_UNAUTHORIZED ==> o.effect == NoEffect
    ensures o.reason.message != ""
  {
    if e.response.None? then
      if e.code == Some(ECONNABORTED) then
        Rejection(ApiError(TIMEOUT_MESSAGE, STATUS_TIMEOUT), TimeoutToast(TIMEOUT_MESSAGE))
      else
        Rejection(ApiError(NETWORK_MESSAGE, 0), InternetToast)
    else
      var message := DerivedMessage(e);
      var status := DerivedStatus(e);
      Rejection(ApiError(message, status), if status == STATUS_UNAUTHORIZED then SessionExpire else NoEffect)
  }

  /** The response interceptor as a whole: a success is passed through
      unchanged and resolves; a failure never resolves. */
  function Intercept<R>(s: Settlement<R>): (o: Outcome<R>)
    ensures o.Resolved? <==> s.Fulfilled?
    ensures s.Fulfilled? ==> o.response == s.response
    ensures s.Failed? ==> o.rejection == OnRejected(s.error)
  {
    match s
    case Fulfilled(response) => Resolved(response)
    case Failed(error) => Rejected(OnRejected(error))
  }

  /** The actions an effect stands for: one toast, or the session-expiry
      handler's three steps (clear local storage, clear session storage,
      navigate to the root path), or nothing. */
  function Actions(effect: Effect): (acts: seq<Action>)
    ensures ReplaceLocation(ROOT_PATH) in acts <==> effect == SessionExpire
    ensures acts == [] <==> effect == NoEffect
  {
    match effect
    case TimeoutToast(text) => [ShowErrorToast(text)]
    case InternetToast => [ShowInternetToast]
    case SessionExpire => [ClearLocalStorage, ClearSessionStorage, ReplaceLocation(ROOT_PATH)]
    case NoEffect => []
  }

  // ---------------------------------------------------------------------
  // Properties of the failure handler

  /** The interceptor's message precedence: the first truthy candidate wins;
      an empty string is skipped like an absent one; with none, the generic
      message. */
  lemma InterceptorMessagePrecedence(e: HttpError, i: int)
    ensures IsFirstTruthy(InterceptorCandidates(e), i) ==> DerivedMessage(e) == InterceptorCandidates(e)[i].value
    ensures (forall j :: 0 <= j < 4 ==> !TruthyString(InterceptorCandidates(e)[j])) ==> DerivedMessage(e) == SOMETHING_WENT_WRONG
  {
    if IsFirstTruthy(InterceptorCandidates(e), i) {
      FirstTruthyPicksFirst(InterceptorCandidates(e), SOMETHING_WENT_WRONG, i);
    }
  }

  /** Exactly one of the four branches is taken, and the effect tells which. */
  lemma BranchesAreExclusive(e: HttpError)
    ensures OnRejected(e).effect.TimeoutToast? <==> e.response.None? && e.code == Some(ECONNABORTED)
    ensures OnRejected(e).effect == InternetToast <==> e.response.None? && e.code != Some(ECONNABORTED)
    ensures OnRejected(e).effect == SessionExpire <==> e.response.Some? && DerivedStatus(e) == STATUS_UNAUTHORIZED
    ensures OnRejected(e).effect == NoEffect <==> e.response.Some? && DerivedStatus(e) != STATUS_UNAUTHORIZED
  {
  }

  /** Session expiry follows the derived status: a response whose own status
      is missing or zero still expires the session when the error object
      carries status 401. */
  lemma ErrorStatusExpiresSession(e: HttpError)
    requires e.response.Some? && !TruthyNumber(ResponseStatus(e)) && e.status == Some(STATUS_UNAUTHORIZED)
    ensures OnRejected(e) == Rejection(ApiError(DerivedMessage(e), STATUS_UNAUTHORIZED), SessionExpire)
  {
  }

  /** Without a response, the rejection depends on the code alone: the error's
      messages and statuses are ignored. */
  lemma NoResponseIgnoresDerived(e1: HttpError, e2: HttpError)
    requires e1.response.None? && e2.response.None?
    requires (e1.code == Some(ECONNABORTED)) == (e2.code == Some(ECONNABORTED))
    ensures OnRejected(e1) == OnRejected(e2)
  {
  }

  /** How often each action happens for one failure: the timeout toast once
      exactly for a timeout, the internet toast once exactly for other
      failures without a response, and each session-expiry step once exactly
      for a response whose derived status is 401, in that order. */
  lemma ActionCounts(e: HttpError)
    ensures var acts := multiset(Actions(OnRejected(e).effect));
      && acts[ShowErrorToast(TIMEOUT_MESSAGE)] == (if e.response.None? && e.code == Some(ECONNABORTED) then 1 else 0)
      && acts[ShowInternetToast] == (if e.response.None? && e.code != Some(ECONNABORTED) then 1 else 0)
      && acts[ClearLocalStorage] == (if e.response.Some? && DerivedStatus(e) == STATUS_UNAUTHORIZED then 1 else 0)
      && acts[ClearSessionStorage] == acts[ClearLocalStorage]
      && acts[ReplaceLocation(ROOT_PATH)] == acts[ClearLocalStorage]
    ensures e.response.Some? && DerivedStatus(e) == STATUS_UNAUTHORIZED ==>
      Actions(OnRejected(e).effect) == [ClearLocalStorage, ClearSessionStorage, ReplaceLocation(ROOT_PATH)]
    ensures |Actions(OnRejected(e).effect)| == if OnRejected(e).effect == SessionExpire then 3 else if OnRejected(e).effect == NoEffect then 0 else 1
  {
  }

  // ---------------------------------------------------------------------
  // extractErrorMessage

  /** The candidates of `extractErrorMessage`, in precedence order: the
      error's own message, the nested error message, the body message, and
      the error's own message again. A missing error has none. */
  function ExtractorCandidates(error: Option<HttpError>): seq<Option<string>> {
    match error
    case None => [None, None, None, None]
    case Some(e) => [e.message, NestedErrorMessage(e), BodyMessage(e), e.message]
  }

  /** `extractErrorMessage(error, fallback)`: the `??` chain, so a present
      message wins even when it is empty; the top-level message comes first. */
  function ExtractErrorMessage(error: Option<HttpError>, fallback: string): (r: string)
    ensures r == FirstPresent(ExtractorCandidates(error), fallback)
    ensures error.Some? && error.value.message.Some? ==> r == error.value.message.value
    ensures r != fallback ==> exists i :: 0 <= i < 4 && ExtractorCandidates(error)[i].Some? && r == ExtractorCandidates(error)[i].value
  {
    var cs := ExtractorCandidates(error);
    var chain := Coalesce(Coalesce(Coalesce(Coalesce(cs[0], cs[1]), cs[2]), cs[3]), Some(fallback));
    CoalesceChainIsFirstPresent(cs[0], cs[1], cs[2], cs[3], fallback);
    assert cs == [cs[0], cs[1], cs[2], cs[3]];
    chain.value
  }

  /** `extractErrorMessage` precedence: the first present candidate wins;
      with every candidate absent, the fallback. */
  lemma ExtractorPrecedence(error: Option<HttpError>, fallback: string, i: int)
    ensures IsFirstPresent(ExtractorCandidates(error), i) ==> ExtractErrorMessage(error, fallback) == ExtractorCandidates(error)[i].value
    ensures (forall j :: 0 <= j < 4 ==> ExtractorCandidates(error)[j].None?) ==> ExtractErrorMessage(error, fallback) == fallback
  {
    if IsFirstPresent(ExtractorCandidates(error), i) {
      FirstPresentPicksFirst(ExtractorCandidates(error), fallback, i);
    }
  }

  /** The fourth candidate of `extractErrorMessage` is the first one again,
      so it never decides the result: three candidates give the same answer. */
  lemma ExtractorLastCandidateIsRedundant(error: Option<HttpError>, fallback: string)
    ensures ExtractErrorMessage(error, fallback) == FirstPresent(ExtractorCandidates(error)[..3], fallback)
  {
    var cs := ExtractorCandidates(error);
    assert cs == [cs[0], cs[1], cs[2], cs[0]];
    assert cs[..3] == [cs[0], cs[1], cs[2]];
    assert [cs[0], cs[1], cs[2], cs[0]][1..] == [cs[1], cs[2], cs[0]];
    assert [cs[0], cs[1], cs[2]][1..] == [cs[1], cs[2]];
    if cs[0].None? {
      assert FirstPresent(cs, fallback) == FirstPresent([cs[1], cs[2], cs[0]], fallback);
      assert FirstPresent(cs[..3], fallback) == FirstPresent([cs[1], cs[2]], fallback);
      if cs[1].None? {
        assert [cs[1], cs[2], cs[0]][1..] == [cs[2], cs[0]];
        assert [cs[1], cs[2]][1..] == [cs[2]];
        assert FirstPresent([cs[1], cs[2], cs[0]], fallback) == FirstPresent([cs[2], cs[0]], fallback);
        assert FirstPresent([cs[1], cs[2]], fallback) == FirstPresent([cs[2]], fallback);
        if cs[2].None? {
          assert [cs[2], cs[0]][1..] == [cs[0]];
          assert [cs[2]][1..] == [];
          assert [cs[0]][1..] == [];
          assert FirstPresent([cs[2], cs[0]], fallback) == FirstPresent([cs[0]], fallback);
          assert FirstPresent([cs[2]], fallback) == FirstPresent([], fallback);
          assert FirstPresent([cs[0]], fallback) == FirstPresent([], fallback);
        }
      }
    }
  }

  /** The two extractors disagree on an empty message: `extractErrorMessage`
      returns it, the failure handler skips it. */
  lemma EmptyMessageSeparatesExtractors(e: HttpError, fallback: string)
    requires e.message == Some("")
    ensures ExtractErrorMessage(Some(e), fallback) == ""
    ensures DerivedMessage(e) != ""
  {
  }

  // ---------------------------------------------------------------------
  // The request interceptor

  /** The outgoing headers after the token rule: a non-empty token sets
      `Authorization: Bearer <token>`, an empty one changes nothing. */
  function WithAuthorization(headers: map<string, string>, token: string): (h: map<string, string>)
    ensures token != "" ==> AUTHORIZATION in h && h[AUTHORIZATION] == BEARER_PREFIX + token
    ensures token == "" ==> h == headers
    ensures forall k :: k != AUTHORIZATION ==> (k in h <==> k in headers)
    ensures forall k :: k != AUTHORIZATION && k in h ==> h[k] == headers[k]
  {
    if token != "" then headers[AUTHORIZATION := BEARER_PREFIX + token] else headers
  }

  /** A request being prepared; the interceptor edits its headers in place. */
  class RequestConfig {
    var headers: map<string, string>

    constructor (headers: map<string, string>)
      ensures this.headers == headers
    {
      this.headers := headers;
    }

    /** The request interceptor: reads the token from the auth slice and,
        when it is non-empty, sets the Authorization header. */
    method AttachToken(auth: AuthSlice.AuthStore)
      modifies this
      ensures headers == WithAuthorization(old(headers), auth.accessToken)
    {
      var accessToken := auth.accessToken;
      if accessToken != "" {
        headers := headers[AUTHORIZATION := BEARER_PREFIX + accessToken];
      }
    }
  }

  /** In every state reachable from the slice's initial state by `login`
      actions the request interceptor leaves the headers as they were, so it
      never attaches Authorization. */
  lemma {:induction false} ReachableStatesNeverAuthorize(payloads: seq<string>, headers: map<string, string>)
    ensures WithAuthorization(headers, AuthSlice.LoginAll(AuthSlice.INITIAL_STATE, payloads).accessToken) == headers
  {
    AuthSlice.ReachableTokenIsEmpty(payloads);
  }

  /** The same fact for the objects: a store that has only seen `login`
      actions holds no token, so the request interceptor sends a request's
      headers exactly as they were given. */
  method LoginsThenRequest(payloads: seq<string>, headers: map<string, string>) returns (sent: map<string, string>)
    ensures sent == headers
    ensures AUTHORIZATION in sent <==> AUTHORIZATION in headers
  {
    var store := new AuthSlice.AuthStore();
    for i := 0 to |payloads|
      invariant store.accessToken == ""
    {
      store.Login(payloads[i]);
    }
    var config := new RequestConfig(headers);
    config.AttachToken(store);
    sent := config.headers;
  }

  // ---------------------------------------------------------------------
  // ApiService.get

  /** The URL `get` requests: the endpoint followed by the query string,
      when one is given. */
  function GetUrl(endPoint: string, params: Option<string>): (url: string)
    ensures |url| >= |endPoint| && url[..|endPoint|] == endPoint
    ensures url[|endPoint|..] == (if params.Some? then params.value else "")
  {
    endPoint + (if TruthyString(params) then params.value else "")
  }

  // ---------------------------------------------------------------------
  // Scenarios

  /** A 401 with body `{message: "expired"}` expires the session and rejects
      with that message and status. */
  lemma ExpiredSessionScenario()
    ensures var e := HttpError(Some(Response(Some(401), None, Some(ResponseBody(None, Some("expired"))))), None, None, None);
      OnRejected(e) == Rejection(ApiError("expired", 401), SessionExpire)
  {
  }
}
