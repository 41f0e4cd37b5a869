/** The authenticated HTTP gateway of the web client (Frontend/src/utils/api.ts
    with the token refresh of Frontend/src/services/api.service.ts).

    Every request goes through a request interceptor that attaches the stored
    access token, and every failure through a response interceptor that either
    signs the user out, passes the failure on, parks the request until a token
    refresh in flight settles, or starts that refresh. The refresh call is an
    ordinary request of the same client, so it passes through both
    interceptors too.

    The model is a state machine over the module-level variables (`isRefreshing`
    with the request that started the refresh, and `failedQueue`) plus the
    credential store. Its events are what the outside world does (a caller
    issues a request, the transport settles a dispatched one); its effects are
    what the gateway does in return (dispatch, resolve or reject a caller's
    promise, assign `window.location.href`). */
module Gateway {
  import opened Wrappers
  import opened Text
  import Uri
  import C = Credentials

  /** `TOKEN_REFRESH_URL` (Frontend/src/constants/api.routes.ts). */
  const TokenRefreshUrl := "auth/token/refresh/"
  /** The substring that marks a URL as a refresh call for the sign-out rule. */
  const RefreshMarker := "token/refresh"
  const LoginPath := "/login"
  /** The query parameter carrying the path to return to after signing in. */
  const RedirectParam := "redirect"

  /** Whose promise a request settles: a caller's (identified by a tag), or the
      refresh call, which carries the refresh token it posts as its body. */
  datatype Purpose = Caller(tag: nat) | RefreshCall(refresh: Option<string>)

  /** A request configuration as the interceptors see it. `url` is `None` when
      unset; `retry` is the `_retry` marker. */
  datatype Descriptor = Descriptor(purpose: Purpose, url: Option<string>, authorization: Option<string>, retry: bool)

  /** The body of a successful response, as far as the refresh reads it: a
      truthy `error` field, and the `access` / `refresh` fields if present. */
  datatype Payload = Payload(hasError: bool, access: Option<string>, refresh: Option<string>)

  /** How the transport settles a dispatched request: a 2xx response, or a
      failure with the response's status (`None` when there is no response). */
  datatype Outcome = Ok(data: Payload) | Err(status: Option<int>)

  /** What a rejected promise carries. */
  datatype Failure =
    | MissingUrl            // "Request URL is missing."
    | HttpError(status: Option<int>)
    | NoNewToken            // "Failed to obtain new token during refresh."
    | RefreshWithoutError   // "Token refresh failed without specific error."

  datatype Effect =
    | Dispatch(d: Descriptor)            // handed to the transport
    | Resolve(d: Descriptor)             // the promise of `d`'s purpose is fulfilled
    | Reject(d: Descriptor, failure: Failure)
    | Navigate(href: string)             // `window.location.href = href`

  /** `awaiting` is the request whose 401 started the refresh in flight
      (`isRefreshing` is `awaiting.Some?`); `queue` is `failedQueue`. */
  datatype State = State(store: C.Store, awaiting: Option<Descriptor>, queue: seq<Descriptor>)

  datatype Event = Issue(d: Descriptor) | Respond(d: Descriptor, outcome: Outcome)

  datatype Transition = Transition(state: State, effects: seq<Effect>)

  function Bearer(token: string): string {
    "Bearer " + token
  }

  /** `config.url` is truthy. */
  predicate HasUrl(d: Descriptor) {
    d.url.Some? && d.url.value != ""
  }

  /** `config.url?.includes("token/refresh")`. */
  predicate TargetsRefresh(d: Descriptor) {
    d.url.Some? && Contains(d.url.value, RefreshMarker)
  }

  /** A request that has used its one retry and waits for a refresh to settle. */
  predicate Parked(d: Descriptor) {
    d.retry && TargetsRefresh(d)
  }

  lemma ParkedHasUrl(d: Descriptor)
    requires TargetsRefresh(d)
    ensures HasUrl(d)
  {
    var i := IndexOf(d.url.value, RefreshMarker).value;
    assert OccursAt(d.url.value, RefreshMarker, i);
  }

  /** The login page a forced sign-out sends the browser to, carrying the
      current path as the `redirect` parameter. */
  function SignOutHref(path: string): string {
    LoginPath + "?" + RedirectParam + "=" + Uri.EncodeUriComponent(path)
  }

  /** The request interceptor: a request without a URL is refused; otherwise a
      non-empty stored access token replaces the Authorization header and
      nothing else changes. */
  function Outbound(store: C.Store, d: Descriptor): (r: Result<Descriptor, Failure>)
    ensures r.Failure? <==> !HasUrl(d)
    ensures r.Failure? ==> r.error == MissingUrl
    ensures r.Success? ==> r.value.purpose == d.purpose && r.value.url == d.url && r.value.retry == d.retry
    ensures r.Success? && C.HasAccessToken(store) ==> r.value.authorization == Some(Bearer(store[C.AccessKey]))
    ensures r.Success? && !C.HasAccessToken(store) ==> r.value == d
  {
    if !HasUrl(d) then Failure(MissingUrl)
    else
      var token := C.GetAccessToken(store);
      if token.Some? && token.value != "" then Success(d.(authorization := Some(Bearer(token.value))))
      else Success(d)
  }

  /** `apiClient(config)`: the request interceptor's verdict, dispatched or rejected. */
  function Send(store: C.Store, d: Descriptor): (e: Effect)
    ensures HasUrl(d) <==> e.Dispatch?
    ensures !HasUrl(d) ==> e == Reject(d, MissingUrl)
  {
    match Outbound(store, d)
    case Success(d') => Dispatch(d')
    case Failure(f) => Reject(d, f)
  }

  /** The refresh call `refreshToken` issues: a POST of the stored refresh token. */
  function RefreshRequest(store: C.Store): (d: Descriptor)
    ensures d.purpose.RefreshCall? && !d.retry && HasUrl(d)
  {
    Descriptor(RefreshCall(C.GetRefreshToken(store)), Some(TokenRefreshUrl), None, false)
  }

  lemma RefreshRequestTargetsRefresh(store: C.Store)
    ensures TargetsRefresh(RefreshRequest(store))
  {
    assert OccursAt(TokenRefreshUrl, RefreshMarker, 5);
    ContainsAt(TokenRefreshUrl, RefreshMarker, 5);
  }

  /** `processQueue(error, token)`: with an error every parked request is
      rejected with it; with a non-empty token every parked request is sent
      again carrying that token, in the order they were parked; otherwise each
      is rejected with a generic failure. */
  function ProcessQueue(store: C.Store, queue: seq<Descriptor>, error: Option<Failure>, token: Option<string>): (fx: seq<Effect>)
    ensures |fx| == |queue|
    ensures error.Some? ==> forall i :: 0 <= i < |queue| ==> fx[i] == Reject(queue[i], error.value)
    ensures error.None? && token.Some? && token.value != "" ==>
      forall i :: 0 <= i < |queue| ==> fx[i] == Send(store, queue[i].(authorization := Some(Bearer(token.value))))
    ensures error.None? && (token.None? || token.value == "") ==>
      forall i :: 0 <= i < |queue| ==> fx[i] == Reject(queue[i], RefreshWithoutError)
  {
    if queue == [] then []
    else
      var q := queue[0];
      var e :=
        if error.Some? then Reject(q, error.value)
        else if token.Some? && token.value != "" then Send(store, q.(authorization := Some(Bearer(token.value))))
        else Reject(q, RefreshWithoutError);
      [e] + ProcessQueue(store, queue[1..], error, token)
  }

  /** What the response interceptor makes of one settled request. */
  datatype Verdict = Resolved(data: Payload) | Rejected(failure: Failure) | Pending

  datatype Reaction = Reaction(state: State, verdict: Verdict, effects: seq<Effect>)

  /** The response interceptor. */
  function Intercept(s: State, d: Descriptor, outcome: Outcome, path: string): (r: Reaction)
    ensures outcome.Ok? ==> r == Reaction(s, Resolved(outcome.data), [])
    ensures r.verdict.Pending? <==> outcome == Err(Some(401)) && TargetsRefresh(d) && !d.retry
    ensures r.verdict.Rejected? ==> r.verdict.failure == HttpError(outcome.status) && r.state.awaiting == s.awaiting && r.state.queue == s.queue
    ensures r.verdict.Rejected? && outcome.status == Some(401) && !TargetsRefresh(d) ==>
      r.state.store == C.ClearAuthTokens(s.store) && r.effects == [Navigate(SignOutHref(path))]
    ensures r.verdict.Pending? && s.awaiting.Some? ==> r == Reaction(s.(queue := s.queue + [d.(retry := true)]), Pending, [])
    ensures r.verdict.Pending? && s.awaiting.None? ==>
      r == Reaction(s.(awaiting := Some(d.(retry := true))), Pending, [Send(s.store, RefreshRequest(s.store))])
  {
    match outcome
    case Ok(data) => Reaction(s, Resolved(data), [])
    case Err(status) =>
      if status == Some(401) && !TargetsRefresh(d) then
        Reaction(s.(store := C.ClearAuthTokens(s.store)), Rejected(HttpError(status)), [Navigate(SignOutHref(path))])
      else if status != Some(401) || d.retry then
        Reaction(s, Rejected(HttpError(status)), [])
      else
        var parked := d.(retry := true);
        if s.awaiting.Some? then Reaction(s.(queue := s.queue + [parked]), Pending, [])
        else Reaction(s.(awaiting := Some(parked)), Pending, [Send(s.store, RefreshRequest(s.store))])
  }

  /** The rest of the interceptor once `await refreshToken()` settles with the
      refresh call's verdict: on a usable token the parked requests and then the
      request that started the refresh are sent again; on a failure only the
      latter is rejected, unless the failure is a 401, which rejects every parked
      request and signs out. `isRefreshing` is cleared in every case. */
  function Settle(s: State, v: Verdict, path: string): (t: Transition)
    requires s.awaiting.Some? && !v.Pending?
    ensures t.state.awaiting.None?
  {
    var original := s.awaiting.value;
    match v
    case Resolved(data) =>
      if data.hasError then
        Transition(s.(awaiting := None), [Reject(original, NoNewToken)])
      else
        var store := C.StoreAuthTokens(s.store, C.StoredText(data.access), C.StoredText(data.refresh));
        if data.access.None? || data.access.value == "" then
          Transition(State(store, None, s.queue), [Reject(original, NoNewToken)])
        else
          var token := data.access.value;
          Transition(State(store, None, []),
            ProcessQueue(store, s.queue, None, Some(token))
            + [Send(store, original.(authorization := Some(Bearer(token))))])
    case Rejected(f) =>
      if f == HttpError(Some(401)) then
        Transition(State(C.ClearAuthTokens(s.store), None, []),
          ProcessQueue(s.store, s.queue, Some(f), None) + [Navigate(SignOutHref(path)), Reject(original, f)])
      else
        Transition(s.(awaiting := None), [Reject(original, f)])
  }

  /** One event. `path` is `location.pathname` of the page the client runs on. */
  function Step(s: State, e: Event, path: string): Transition {
    match e
    case Issue(d) => Transition(s, [Send(s.store, d)])
    case Respond(d, outcome) =>
      var r := Intercept(s, d, outcome, path);
      if d.purpose.RefreshCall? && s.awaiting.Some? && !r.verdict.Pending? then
        var t := Settle(r.state, r.verdict, path);
        Transition(t.state, r.effects + t.effects)
      else
        match r.verdict
        case Resolved(_) => Transition(r.state, r.effects + [Resolve(d)])
        case Rejected(f) => Transition(r.state, r.effects + [Reject(d, f)])
        case Pending => Transition(r.state, r.effects)
  }

  function Run(s: State, events: seq<Event>, path: string): (t: Transition)
    decreases |events|
  {
    if events == [] then Transition(s, [])
    else
      var first := Step(s, events[0], path);
      var rest := Run(first.state, events[1..], path);
      Transition(rest.state, first.effects + rest.effects)
  }

  // ---------------------------------------------------------------------------
  // Invariant
  // ---------------------------------------------------------------------------

  /** Only requests that already used their retry and target a refresh URL are
      ever held: the one that started the refresh and the parked ones. */
  predicate Valid(s: State) {
    (s.awaiting.Some? ==> Parked(s.awaiting.value))
    && forall i :: 0 <= i < |s.queue| ==> Parked(s.queue[i])
  }

  lemma StepPreservesValid(s: State, e: Event, path: string)
    requires Valid(s)
    ensures Valid(Step(s, e, path).state)
  {
    if e.Respond? {
      var r := Intercept(s, e.d, e.outcome, path);
      assert Valid(r.state);
    }
  }

  lemma {:induction false} RunPreservesValid(s: State, events: seq<Event>, path: string)
    requires Valid(s)
    ensures Valid(Run(s, events, path).state)
    decreases |events|
  {
    if events != [] {
      StepPreservesValid(s, events[0], path);
      RunPreservesValid(Step(s, events[0], path).state, events[1..], path);
    }
  }

  // ---------------------------------------------------------------------------
  // Properties of single steps
  // ---------------------------------------------------------------------------

  /** A caller's 401 on any URL that is not a refresh URL signs out at once: the
      credentials are cleared, the browser is sent to the login page with the
      current path, and the request is rejected. No refresh is attempted and
      neither the queue nor a refresh in flight is touched. */
  lemma PlainUnauthorizedSignsOut(s: State, d: Descriptor, path: string)
    requires d.purpose.Caller? && !TargetsRefresh(d)
    ensures Step(s, Respond(d, Err(Some(401))), path)
      == Transition(s.(store := C.ClearAuthTokens(s.store)),
                    [Navigate(SignOutHref(path)), Reject(d, HttpError(Some(401)))])
  {
  }

  /** Responses that are not a first 401 on a refresh URL reach the caller
      unchanged: a success resolves, a failure rejects with its own status. */
  lemma OtherOutcomesPassThrough(s: State, d: Descriptor, outcome: Outcome, path: string)
    requires d.purpose.Caller?
    requires outcome.Ok? || outcome.status != Some(401) || (d.retry && TargetsRefresh(d))
    ensures outcome.Ok? ==> Step(s, Respond(d, outcome), path) == Transition(s, [Resolve(d)])
    ensures outcome.Err? ==> Step(s, Respond(d, outcome), path) == Transition(s, [Reject(d, HttpError(outcome.status))])
  {
  }

  /** The first 401 on a refresh URL while no refresh is in flight starts
      exactly one refresh, posting the stored refresh token. */
  lemma FirstUnauthorizedStartsRefresh(s: State, d: Descriptor, path: string)
    requires s.awaiting.None? && TargetsRefresh(d) && !d.retry
    ensures Step(s, Respond(d, Err(Some(401))), path)
      == Transition(s.(awaiting := Some(d.(retry := true))), [Dispatch(Outbound(s.store, RefreshRequest(s.store)).value)])
  {
  }

  /** While a refresh is in flight a further first 401 on a refresh URL only
      parks the request at the end of the queue. */
  lemma UnauthorizedWhileRefreshingIsParked(s: State, d: Descriptor, path: string)
    requires s.awaiting.Some? && d.purpose.Caller? && TargetsRefresh(d) && !d.retry
    ensures Step(s, Respond(d, Err(Some(401))), path) == Transition(s.(queue := s.queue + [d.(retry := true)]), [])
  {
  }

  /** The refresh call's own 401 is parked like any other request on a refresh
      URL, so `refreshToken` never settles: the refresh stays in flight, and the
      sign-out branch for a 401 refresh is never reached from the refresh call. */
  lemma RefreshCallUnauthorizedIsParked(s: State, path: string)
    requires s.awaiting.Some?
    ensures var d := Outbound(s.store, RefreshRequest(s.store)).value;
      Step(s, Respond(d, Err(Some(401))), path)
        == Transition(s.(queue := s.queue + [d.(retry := true)]), [])
  {
    RefreshRequestTargetsRefresh(s.store);
  }

  /** A successful refresh with a usable token stores both new tokens, then
      sends every parked request again in the order they were parked, and the
      request that started the refresh last, each carrying the new token. */
  lemma RefreshSuccessReplays(s: State, d: Descriptor, data: Payload, path: string)
    requires Valid(s) && s.awaiting.Some? && d.purpose.RefreshCall?
    requires !data.hasError && data.access.Some? && data.access.value != ""
    ensures var t := Step(s, Respond(d, Ok(data)), path);
      var token := data.access.value;
      var store := C.StoreAuthTokens(s.store, token, C.StoredText(data.refresh));
      && t.state == State(store, None, [])
      && |t.effects| == |s.queue| + 1
      && (forall i :: 0 <= i < |s.queue| ==>
            t.effects[i] == Dispatch(s.queue[i].(authorization := Some(Bearer(token)))))
      && t.effects[|s.queue|] == Dispatch(s.awaiting.value.(authorization := Some(Bearer(token))))
  {
    var token := data.access.value;
    var store := C.StoreAuthTokens(s.store, token, C.StoredText(data.refresh));
    assert C.HasAccessToken(store) && store[C.AccessKey] == token;
    var t := Step(s, Respond(d, Ok(data)), path);
    var fx := ProcessQueue(store, s.queue, None, Some(token));
    assert t.effects == fx + [Send(store, s.awaiting.value.(authorization := Some(Bearer(token))))];
    forall i | 0 <= i < |s.queue|
      ensures t.effects[i] == Dispatch(s.queue[i].(authorization := Some(Bearer(token))))
    {
      ParkedHasUrl(s.queue[i]);
      assert t.effects[i] == fx[i];
    }
    ParkedHasUrl(s.awaiting.value);
  }

  /** A refresh whose response carries an error, or no access token, rejects
      only the request that started it; parked requests stay parked. */
  lemma RefreshWithoutTokenRejectsOriginal(s: State, d: Descriptor, data: Payload, path: string)
    requires s.awaiting.Some? && d.purpose.RefreshCall?
    requires data.hasError || data.access.None? || data.access.value == ""
    ensures var t := Step(s, Respond(d, Ok(data)), path);
      t.effects == [Reject(s.awaiting.value, NoNewToken)]
      && t.state.awaiting.None? && t.state.queue == s.queue
      && (data.hasError ==> t.state.store == s.store)
  {
  }

  /** A refresh call that fails with anything but 401 rejects only the request
      that started it: parked requests are neither replayed nor rejected. */
  lemma RefreshFailureLeavesQueue(s: State, d: Descriptor, status: Option<int>, path: string)
    requires s.awaiting.Some? && d.purpose.RefreshCall? && status != Some(401)
    ensures Step(s, Respond(d, Err(status)), path)
      == Transition(s.(awaiting := None), [Reject(s.awaiting.value, HttpError(status))])
  {
  }

  // ---------------------------------------------------------------------------
  // Properties of runs
  // ---------------------------------------------------------------------------

  /** A newly issued refresh call (not a replay). */
  predicate StartsRefresh(e: Effect) {
    e.Dispatch? && e.d.purpose.RefreshCall? && !e.d.retry
  }

  lemma StepStartsNoRefreshWhileRefreshing(s: State, e: Event, path: string)
    requires Valid(s) && s.awaiting.Some?
    requires e.d.purpose.Caller?
    ensures var t := Step(s, e, path);
      t.state.awaiting == s.awaiting && forall k :: 0 <= k < |t.effects| ==> !StartsRefresh(t.effects[k])
  {
  }

  /** Single flight: once a refresh is in flight, no further refresh call is
      issued, whatever requests are issued or settle, until the refresh call
      itself settles (callers never issue refresh calls themselves). */
  lemma {:induction false} NoSecondRefresh(s: State, events: seq<Event>, path: string)
    requires Valid(s) && s.awaiting.Some?
    requires forall i :: 0 <= i < |events| ==> events[i].d.purpose.Caller?
    ensures var t := Run(s, events, path);
      t.state.awaiting == s.awaiting && forall k :: 0 <= k < |t.effects| ==> !StartsRefresh(t.effects[k])
    decreases |events|
  {
    if events != [] {
      var first := Step(s, events[0], path);
      StepStartsNoRefreshWhileRefreshing(s, events[0], path);
      StepPreservesValid(s, events[0], path);
      NoSecondRefresh(first.state, events[1..], path);
      var rest := Run(first.state, events[1..], path);
      assert Run(s, events, path).effects == first.effects + rest.effects;
    }
  }

  lemma SignOutSearch(path: string)
    ensures Uri.SearchOf(SignOutHref(path)) == "?" + RedirectParam + "=" + Uri.EncodeUriComponent(path)
  {
    var enc := Uri.EncodeUriComponent(path);
    var q := "?" + RedirectParam + "=" + enc;
    assert SignOutHref(path) == LoginPath + q;
    assert '?' !in LoginPath by {
      assert forall k :: 0 <= k < |LoginPath| ==> LoginPath[k] != '?';
    }
    assert '#' !in q by {
      assert forall k :: 0 <= k < |enc| ==> enc[k] != '#';
      assert forall k :: 0 <= k < |RedirectParam| ==> RedirectParam[k] != '#';
      assert forall k :: 10 <= k < |q| ==> q[k] == enc[k - 10];
      assert forall k :: 1 <= k < 9 ==> q[k] == RedirectParam[k - 1];
    }
    Uri.SearchOfAppended(LoginPath, q);
  }

  lemma RedirectParamUnescaped()
    ensures RedirectParam != [] && forall k :: 0 <= k < |RedirectParam| ==> Uri.Unescaped(RedirectParam[k])
  {
  }

  /** The login page can read the return path back out of the sign-out URL. */
  lemma SignOutRedirectsBack(path: string)
    ensures Uri.SearchParamsGet(Uri.SearchOf(SignOutHref(path)), RedirectParam) == Some(path)
  {
    SignOutSearch(path);
    RedirectParamUnescaped();
    Uri.SingleParamRoundTrip(RedirectParam, path);
  }
}
