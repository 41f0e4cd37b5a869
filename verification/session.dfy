/** The sign-in, registration, Google sign-in and sign-out services of the web
    client (the `.service.ts` files under Frontend/src/services/auth): each maps the settled
    server calls it makes (inputs here) to an update of the credential store
    and a returned value or a thrown error. */
module Session {
  import opened Wrappers
  import C = Credentials
  import G = Gateway
  import opened Text

  // The routes the services call (Frontend/src/constants/api.routes.ts). None
  // of them contains the gateway's refresh marker.
  const LoginUrl := "/auth/token/login/"
  const UserDataUrl := "auth/user/"
  const RegisterUrl := "/auth/registration/"
  const LogoutUrl := "auth/token/logout"
  const GoogleLoginUrl := "auth/google/login/"
  const CheckUsernameUrl := "user/check-username"

  /** The body of a 2xx answer to a sign-in style call. `error` is `None` when
      the field is absent. */
  datatype AuthReply = AuthReply(error: Option<string>, access: Option<string>, refresh: Option<string>)

  /** Why a service call throws: the HTTP call itself was rejected (with the
      response status, if any), or the server answered with an `error` field
      and the service threw `new Error(error)`. */
  datatype ServiceError = RequestFailed(status: Option<int>) | ServerError(message: string)

  /** A settled HTTP call: the response body, or the rejection's status. */
  type Call<T> = Result<T, Option<int>>

  datatype Outcome<T> = Outcome(store: C.Store, result: Result<T, ServiceError>)

  /** A call the server refused with 401. */
  predicate Unauthorized<T>(call: Call<T>) {
    call.Failure? && call.error == Some(401)
  }

  /** The store by the time a service sees a settled call to one of its
      routes: the gateway has already cleared the credentials for a 401
      (and sent the browser to the sign-in page); any other outcome reaches
      the service with the store untouched. */
  function AfterGateway<T>(store: C.Store, call: Call<T>): C.Store {
    if Unauthorized(call) then C.ClearAuthTokens(store) else store
  }

  predicate ServiceUrl(url: string) {
    url == LoginUrl || url == UserDataUrl || url == RegisterUrl || url == LogoutUrl || url == GoogleLoginUrl
      || url == CheckUsernameUrl
  }

  lemma ServiceUrlOutsideRefresh(url: string)
    requires ServiceUrl(url)
    ensures !Contains(url, G.RefreshMarker)
  {
    assert G.RefreshMarker[8] == 'f';
    assert forall k :: 0 <= k < |url| ==> url[k] != 'f';
    MissingCharNotContains(url, G.RefreshMarker, 8);
  }

  /** How the gateway settles a service call, which `AfterGateway` and the
      services rely on: a failure with any status other than 401 reaches the
      service with the gateway's state untouched; a 401 clears the stored
      credentials, navigates to the sign-in page carrying the current path,
      and then rejects. */
  lemma ServiceCallThroughGateway(s: G.State, url: string, tag: nat, authorization: Option<string>, status: Option<int>, path: string)
    requires ServiceUrl(url)
    ensures var d := G.Descriptor(G.Caller(tag), Some(url), authorization, false);
      var t := G.Step(s, G.Respond(d, G.Err(status)), path);
      t.state == s.(store := AfterGateway<()>(s.store, Failure(status)))
      && (status == Some(401) ==> t.effects == [G.Navigate(G.SignOutHref(path)), G.Reject(d, G.HttpError(Some(401)))])
      && (status != Some(401) ==> t.effects == [G.Reject(d, G.HttpError(status))])
  {
    var d := G.Descriptor(G.Caller(tag), Some(url), authorization, false);
    ServiceUrlOutsideRefresh(url);
    if status == Some(401) {
      G.PlainUnauthorizedSignsOut(s, d, path);
    } else {
      G.OtherOutcomesPassThrough(s, d, G.Err(status), path);
    }
  }

  /** A JavaScript string field that is truthy. */
  predicate Truthy(v: Option<string>) {
    v.Some? && v.value != ""
  }

  /** The store after `storeAuthTokens(reply.access, reply.refresh)`. */
  function StoreReplyTokens(store: C.Store, reply: AuthReply): C.Store {
    C.StoreAuthTokens(store, C.StoredText(reply.access), C.StoredText(reply.refresh))
  }

  /** The flow shared by `loginUser` and `registerUser`: an error reply throws
      and stores nothing; otherwise the tokens are stored first, then the user
      record fetched with them, and the reply is returned unchanged. A 401 on
      the post or on the user fetch has the gateway clear the credentials
      before the rejection reaches the service. */
  function SignIn(store: C.Store, post: Call<AuthReply>, fetchedUser: Call<string>): (r: Outcome<AuthReply>)
    ensures post.Failure? ==> r == Outcome(AfterGateway(store, post), Failure(RequestFailed(post.error)))
    ensures post.Success? && Truthy(post.value.error) ==> r == Outcome(store, Failure(ServerError(post.value.error.value)))
    ensures r.result.Success? <==> post.Success? && !Truthy(post.value.error) && fetchedUser.Success?
    ensures r.result.Success? ==> r.result.value == post.value
    ensures r.result.Success? ==>
      C.GetAccessToken(r.store) == Some(C.StoredText(post.value.access))
      && C.GetRefreshToken(r.store) == Some(C.StoredText(post.value.refresh))
      && C.GetItem(r.store, C.UserKey) == Some(fetchedUser.value)
    ensures post.Success? && !Truthy(post.value.error) && fetchedUser.Failure? ==>
      r == Outcome(AfterGateway(StoreReplyTokens(store, post.value), fetchedUser), Failure(RequestFailed(fetchedUser.error)))
  {
    match post
    case Failure(status) => Outcome(AfterGateway(store, post), Failure(RequestFailed(status)))
    case Success(reply) =>
      if Truthy(reply.error) then Outcome(store, Failure(ServerError(reply.error.value)))
      else
        var withTokens := StoreReplyTokens(store, reply);
        match fetchedUser
        case Failure(status) => Outcome(AfterGateway(withTokens, fetchedUser), Failure(RequestFailed(status)))
        case Success(user) => Outcome(C.StoreUserData(withTokens, user), Success(reply))
  }

  /** A completed sign-in leaves the client authenticated, reporting the
      fetched user record; a request refused with 401, on the post or on the
      user fetch, leaves it signed out; any other refusal of the post, or an
      error reply, leaves the store as it was. */
  lemma SignInAuthenticates(store: C.Store, post: Call<AuthReply>, fetchedUser: Call<string>)
    ensures var r := SignIn(store, post, fetchedUser);
      (r.result.Success? && fetchedUser.value != "" ==>
         C.CheckAuth(r.store) == C.AuthStatus(true, Some(fetchedUser.value)))
      && ((post.Failure? && !Unauthorized(post)) || (post.Success? && Truthy(post.value.error)) ==> r.store == store)
      && (Unauthorized(post) || (post.Success? && !Truthy(post.value.error) && Unauthorized(fetchedUser)) ==>
         C.CheckAuth(r.store) == C.AuthStatus(false, None))
  {
  }

  datatype RegisterForm = RegisterForm(email: string, password: string, confirmPassword: string)
  datatype RegisterBody = RegisterBody(email: string, password1: string, password2: string)

  /** The body `registerUser` posts: the field names the server's registration
      endpoint expects. */
  function RegisterPayload(form: RegisterForm): (b: RegisterBody)
    ensures b.email == form.email && b.password1 == form.password && b.password2 == form.confirmPassword
  {
    RegisterBody(form.email, form.password, form.confirmPassword)
  }

  datatype Registration = Registration(body: RegisterBody, outcome: Outcome<AuthReply>)

  /** `registerUser`: the renamed body is posted; the rest is `SignIn`. */
  function RegisterUser(store: C.Store, form: RegisterForm, post: Call<AuthReply>, fetchedUser: Call<string>): (r: Registration)
    ensures r.body == RegisterPayload(form)
    ensures r.outcome == SignIn(store, post, fetchedUser)
  {
    Registration(RegisterPayload(form), SignIn(store, post, fetchedUser))
  }

  /** What `googleSuccess` does: the request it sends, the store afterwards,
      its result, and the navigations it performs. */
  datatype GoogleRun = GoogleRun(idToken: string, outcome: Outcome<AuthReply>, navigations: seq<string>)

  /** `googleSuccess` as written: the store is cleared before the call, and
      the reply's tokens are stored before its `error` field is examined, so an
      error reply still writes both token entries. */
  function GoogleSuccess(store: C.Store, credential: string, post: Call<AuthReply>, redirectTo: string): (r: GoogleRun)
    ensures r.idToken == credential
    ensures post.Failure? ==> r == GoogleRun(credential, Outcome(C.ClearAuthTokens(store), Failure(RequestFailed(post.error))), [])
    ensures post.Success? ==> r.outcome.store == StoreReplyTokens(C.ClearAuthTokens(store), post.value)
    ensures post.Success? && Truthy(post.value.error) ==>
      r.outcome.result == Failure(ServerError(post.value.error.value)) && r.navigations == []
    ensures post.Success? && !Truthy(post.value.error) ==>
      r.outcome.result == Success(post.value) && r.navigations == [redirectTo]
  {
    var cleared := C.ClearAuthTokens(store);
    match post
    case Failure(status) =>
      C.ClearForgetsTokens(store, "", "");
      GoogleRun(credential, Outcome(AfterGateway(cleared, post), Failure(RequestFailed(status))), [])
    case Success(reply) =>
      var stored := StoreReplyTokens(cleared, reply);
      if Truthy(reply.error) then GoogleRun(credential, Outcome(stored, Failure(ServerError(reply.error.value))), [])
      else
        GoogleRun(credential, Outcome(StoreReplyTokens(stored, reply), Success(reply)), [redirectTo])
  }

  /** An error reply without tokens leaves the literal text "undefined" as the
      stored access token, which the request interceptor then sends as a
      bearer token on every later request; the client is still reported as
      signed out, because the user entry was cleared. */
  lemma GoogleErrorStoresUndefined(store: C.Store, credential: string, message: string, redirectTo: string, d: G.Descriptor)
    requires message != "" && G.HasUrl(d)
    ensures var r := GoogleSuccess(store, credential, Success(AuthReply(Some(message), None, None)), redirectTo);
      C.GetAccessToken(r.outcome.store) == Some("undefined")
      && G.Outbound(r.outcome.store, d).value.authorization == Some("Bearer undefined")
      && !C.CheckAuth(r.outcome.store).isAuthenticated
  {
    var r := GoogleSuccess(store, credential, Success(AuthReply(Some(message), None, None)), redirectTo);
    assert C.GetAccessToken(r.outcome.store) == Some("undefined");
    assert C.HasAccessToken(r.outcome.store);
    assert G.Bearer("undefined") == "Bearer undefined";
  }

  /** `googleSuccess` with the error check ahead of the first store, as the
      second `storeAuthTokens` after the check evidently intends: an error
      reply leaves the cleared store as it is. */
  function GoogleSuccessChecked(store: C.Store, credential: string, post: Call<AuthReply>, redirectTo: string): (r: GoogleRun)
    ensures r.idToken == credential
    ensures post.Success? && Truthy(post.value.error) ==>
      r == GoogleRun(credential, Outcome(C.ClearAuthTokens(store), Failure(ServerError(post.value.error.value))), [])
    ensures !(post.Success? && Truthy(post.value.error)) ==> r == GoogleSuccess(store, credential, post, redirectTo)
  {
    var cleared := C.ClearAuthTokens(store);
    match post
    case Failure(status) => GoogleRun(credential, Outcome(cleared, Failure(RequestFailed(status))), [])
    case Success(reply) =>
      if Truthy(reply.error) then GoogleRun(credential, Outcome(cleared, Failure(ServerError(reply.error.value))), [])
      else
        var stored := StoreReplyTokens(cleared, reply);
        GoogleRun(credential, Outcome(StoreReplyTokens(stored, reply), Success(reply)), [redirectTo])
  }

  /** With the check first, a refused Google sign-in leaves no token behind,
      so later requests carry no Authorization header from it. */
  lemma CheckedGoogleErrorStoresNothing(store: C.Store, credential: string, message: string, redirectTo: string, d: G.Descriptor)
    requires message != "" && G.HasUrl(d)
    ensures var r := GoogleSuccessChecked(store, credential, Success(AuthReply(Some(message), None, None)), redirectTo);
      C.GetAccessToken(r.outcome.store).None? && C.GetRefreshToken(r.outcome.store).None?
      && G.Outbound(r.outcome.store, d).value == d
  {
    var r := GoogleSuccessChecked(store, credential, Success(AuthReply(Some(message), None, None)), redirectTo);
    assert C.AccessKey !in r.outcome.store;
  }

  datatype LogoutRun = LogoutRun(refreshSent: Option<string>, store: C.Store, loggedOut: bool)

  /** `Logout`: posts the stored refresh token; on success clears the
      credentials and returns true; on any failure returns false and never
      throws. The service itself leaves the store alone on failure, but a 401
      has already had the gateway clear it. */
  function Logout(store: C.Store, post: Call<()>): (r: LogoutRun)
    ensures r.refreshSent == C.GetRefreshToken(store)
    ensures r.loggedOut <==> post.Success?
    ensures r.loggedOut || Unauthorized(post) ==> r.store == C.ClearAuthTokens(store)
    ensures !r.loggedOut && !Unauthorized(post) ==> r.store == store
  {
    if post.Success? then LogoutRun(C.GetRefreshToken(store), C.ClearAuthTokens(store), true)
    else LogoutRun(C.GetRefreshToken(store), AfterGateway(store, post), false)
  }

  /** After a successful sign-out, or one the server refused with 401, the
      client is signed out, whatever it held. */
  lemma LogoutSignsOut(store: C.Store, post: Call<()>)
    requires post.Success? || Unauthorized(post)
    ensures var r := Logout(store, post);
      C.CheckAuth(r.store) == C.AuthStatus(false, None)
      && C.GetAccessToken(r.store).None? && C.GetRefreshToken(r.store).None?
  {
  }
}
