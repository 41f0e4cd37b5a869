/** The sign-in page, Frontend/src/pages/auth/Login.tsx: where it sends the
    user after signing in, and how it reports a failed sign-in. */
module LoginPage {
  import opened Wrappers
  import opened Text
  import Uri
  import C = Credentials
  import G = Gateway
  import S = Session
  import FV = FormValidation

  const DefaultTarget := "/dashboard"
  const UnexpectedMessage := "An unexpected error occurred"
  const InvalidCredentialsMessage := "Invalid email or password"
  const LoginFailedMessage := "An error occurred during login"
  /** The error toast `validateLoginForm` raises when the schema rejects the
      form (Frontend/src/utils/validate-form.ts). */
  const FixFormMessage := "Please fix the form errors before submitting"

  /** The path the sign-in request is posted to. */
  const LoginUrl := S.LoginUrl

  /** `searchParams.get("redirect") || "/dashboard"`: the `redirect` query
      parameter when present and non-empty, the dashboard otherwise. The
      target is never empty, so the `|| "/feed"` fallback applied when
      navigating is dead code. */
  function RedirectTarget(search: string): (r: string)
    ensures r != ""
    ensures var v := Uri.SearchParamsGet(search, "redirect");
      (v.Some? && v.value != "" ==> r == v.value) && (v.None? || v.value == "" ==> r == DefaultTarget)
  {
    var v := Uri.SearchParamsGet(search, "redirect");
    if v.Some? && v.value != "" then v.value else DefaultTarget
  }

  /** What the thrown value looks like to the page's `catch`: an object that
      may carry a numeric `status`, whether it is an `Error` and its
      `message`; or something that is not an object at all. */
  datatype Thrown = ErrorObject(status: Option<int>, isError: bool, message: string) | NotAnObject

  /** The value `loginUser` throws for a service error: the HTTP client's
      rejection (an `Error` carrying the response status, with the client's
      own `message`, an input here), or the `new Error(error)` the service
      throws for an `error` field in the reply. */
  function ThrownBy(e: S.ServiceError, clientMessage: string): (t: Thrown)
    ensures t.ErrorObject? && t.isError
    ensures e.RequestFailed? ==> t.status == e.status
    ensures e.ServerError? ==> t.status.None? && t.message == e.message
  {
    match e
    case RequestFailed(status) => ErrorObject(status, true, clientMessage)
    case ServerError(message) => ErrorObject(None, true, message)
  }

  /** The `catch` block: the toast's description, and the value put in
      `serverError` (only for a 401). */
  datatype Report = Report(toast: string, serverError: Option<string>)

  function Describe(t: Thrown): (r: Report)
    ensures r.serverError.Some? <==> t.ErrorObject? && t.status == Some(401)
    ensures r.serverError.Some? ==> r.serverError.value == InvalidCredentialsMessage && r.toast == InvalidCredentialsMessage
    ensures t.ErrorObject? && t.status != Some(401) && t.isError ==>
      r.toast == (if t.message != "" then t.message else LoginFailedMessage)
    ensures t.NotAnObject? || (t.status != Some(401) && !t.isError) ==> r.toast == UnexpectedMessage
    ensures r.toast != ""
  {
    match t
    case NotAnObject => Report(UnexpectedMessage, None)
    case ErrorObject(status, isError, message) =>
      if status == Some(401) then Report(InvalidCredentialsMessage, Some(InvalidCredentialsMessage))
      else if isError then Report(if message != "" then message else LoginFailedMessage, None)
      else Report(UnexpectedMessage, None)
  }

  datatype Page = Page(form: FV.LoginForm, errors: FV.LoginErrors, serverError: string, isLoading: bool, store: C.Store)

  /** The toasts of a submission: the form rejected before anything is sent
      (an error toast titled `FixFormMessage`), and the success or failure of
      the sign-in once it settles. */
  datatype Toast = FormRejected | Succeeded | Failed(description: string)

  datatype Transition = Transition(page: Page, requested: bool, toast: Option<Toast>, navigations: seq<string>)

  /** `handleSubmit` up to the request: an invalid form shows its field
      errors, raises the fix-the-form toast and sends nothing; a valid one
      clears the server error and starts loading, with no toast yet. */
  function Submit(p: Page, emailAccepted: bool): (t: Transition)
    ensures t.requested <==> FV.ValidateLoginForm(p.form, emailAccepted).0
    ensures t.page.errors == FV.ValidateLoginForm(p.form, emailAccepted).1
    ensures !t.requested ==> t.page == p.(errors := t.page.errors) && t.navigations == []
    ensures t.requested ==> t.page.serverError == "" && t.page.isLoading && t.page.store == p.store
    ensures t.navigations == []
    ensures !t.requested ==> t.toast == Some(FormRejected)
    ensures t.requested ==> t.toast.None?
  {
    var (valid, errors) := FV.ValidateLoginForm(p.form, emailAccepted);
    if !valid then Transition(p.(errors := errors), false, Some(FormRejected), [])
    else Transition(p.(errors := errors, serverError := "", isLoading := true), true, None, [])
  }

  /** The rest of `handleSubmit`, once `loginUser` settles (its outcome as
      modelled by the sign-in service, over the page's store): success toasts
      and navigates to the redirect target; failure toasts the description of
      the thrown value. Loading stops either way. */
  function Settled(p: Page, search: string, outcome: S.Outcome<S.AuthReply>, clientMessage: string): (t: Transition)
    ensures !t.page.isLoading && !t.requested && t.page.store == outcome.store
    ensures outcome.result.Success? ==> t.toast == Some(Succeeded) && t.navigations == [RedirectTarget(search)]
    ensures outcome.result.Failure? ==> t.navigations == [] && t.toast.Some? && t.toast.value.Failed?
    ensures outcome.result.Failure? ==>
      t.toast.value.description == Describe(ThrownBy(outcome.result.error, clientMessage)).toast
    ensures t.page.serverError != p.serverError ==>
      outcome.result == Failure(S.RequestFailed(Some(401))) && t.page.serverError == InvalidCredentialsMessage
  {
    match outcome.result
    case Success(_) =>
      Transition(p.(isLoading := false, store := outcome.store), false, Some(Succeeded), [RedirectTarget(search)])
    case Failure(e) =>
      var r := Describe(ThrownBy(e, clientMessage));
      var serverError := if r.serverError.Some? then r.serverError.value else p.serverError;
      Transition(p.(isLoading := false, store := outcome.store, serverError := serverError), false, Some(Failed(r.toast)), [])
  }

  /** After the gateway signs a user out from `path`, signing in again
      returns there: the sign-in page reads `path` back from the redirect
      parameter of the sign-out address. */
  lemma SignOutThenSignInReturns(path: string)
    requires path != ""
    ensures RedirectTarget(Uri.SearchOf(G.SignOutHref(path))) == path
  {
    G.SignOutRedirectsBack(path);
  }

  /** Every thrown value the sign-in service produces is an `Error`, so the
      generic "unexpected error" description never appears, and a 401 is the
      only failure that fills the inline server error. */
  lemma ServiceErrorsAreDescribed(e: S.ServiceError, clientMessage: string)
    ensures Describe(ThrownBy(e, clientMessage)).toast != UnexpectedMessage || clientMessage == UnexpectedMessage
      || (e.ServerError? && e.message == UnexpectedMessage)
    ensures Describe(ThrownBy(e, clientMessage)).serverError.Some? <==> e == S.RequestFailed(Some(401))
  {
  }

  /** The sign-in URL is not a refresh URL, so the gateway treats a 401 on it
      as an expired session: the tokens are cleared and the browser is sent
      to the sign-in address, before the page's own 401 message can matter. */
  lemma LoginUnauthorizedSignsOut(s: G.State, tag: nat, authorization: Option<string>, path: string)
    ensures var d := G.Descriptor(G.Caller(tag), Some(LoginUrl), authorization, false);
      G.Step(s, G.Respond(d, G.Err(Some(401))), path)
        == G.Transition(s.(store := C.ClearAuthTokens(s.store)),
                        [G.Navigate(G.SignOutHref(path)), G.Reject(d, G.HttpError(Some(401)))])
  {
    var d := G.Descriptor(G.Caller(tag), Some(LoginUrl), authorization, false);
    assert !Contains(LoginUrl, G.RefreshMarker) by {
      forall j | 0 <= j <= |LoginUrl|
        ensures !OccursAt(LoginUrl, G.RefreshMarker, j)
      {
        if j + |G.RefreshMarker| <= |LoginUrl| {
          assert LoginUrl[j..j + |G.RefreshMarker|][0] == LoginUrl[j];
          assert LoginUrl[j..j + |G.RefreshMarker|][1] == LoginUrl[j + 1];
        }
      }
    }
    G.PlainUnauthorizedSignsOut(s, d, path);
  }
}
