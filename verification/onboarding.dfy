/** The username onboarding page, Frontend/src/pages/auth/Onboarding.tsx,
    together with the `checkUsername` service it calls
    (Frontend/src/services/auth/user.ts). */
module Onboarding {
  import opened Wrappers
  import Uri
  import U = Usernames
  import C = Credentials
  import S = Session
  import G = Gateway

  const TakenMessage := "Username is already taken"
  const CheckFailedMessage := "Failed to check username availability"
  const ChooseAvailableMessage := "Please choose an available username"
  const RandomBase := "founder"
  const Destination := "/dashboard"
  /** The route the page is served at (Frontend/src/Route.tsx). */
  const PagePath := "/onboarding"

  /** The page's `isAvailable`: `null` before any answer, `undefined` when an
      answer lacked the field, or a boolean. */
  datatype Availability = Unknown | Undefined | Known(available: bool)

  /** JavaScript `!!isAvailable`. */
  predicate IsTruthy(a: Availability) {
    a == Known(true)
  }

  /** The body the server's availability endpoint sends with a 2xx status. */
  datatype CheckBody = CheckBody(available: bool, message: string)

  /** What `checkUsername` resolves to: the body's `message` string, or the
      body itself. */
  datatype ServiceValue = Text(s: string) | Body(body: CheckBody)

  /** `checkUsername` as written: it returns `data.message`. */
  function CheckUsernameAsWritten(body: CheckBody): (v: ServiceValue)
    ensures v.Text? && v.s == body.message
  {
    Text(body.message)
  }

  /** `checkUsername` returning the whole body, so that the page's
      `const { available } = …` finds the field. */
  function CheckUsername(body: CheckBody): (v: ServiceValue)
    ensures v.Body? && v.body.available == body.available
  {
    Body(body)
  }

  /** `const { available } = v`: a string has no `available` property. */
  function AvailableOf(v: ServiceValue): (a: Availability)
    ensures v.Text? ==> a == Undefined
    ensures v.Body? ==> a == Known(v.body.available)
  {
    match v
    case Text(_) => Undefined
    case Body(b) => Known(b.available)
  }

  /** Which `checkUsername` the page is wired to. */
  datatype Wiring = AsWritten | Corrected

  function Service(w: Wiring, body: CheckBody): ServiceValue {
    match w
    case AsWritten => CheckUsernameAsWritten(body)
    case Corrected => CheckUsername(body)
  }

  datatype Page = Page(
    username: string,
    error: string,
    isLoading: bool,
    isChecking: bool,
    isAvailable: Availability,
    showConfetti: bool)

  const Initial := Page("", "", false, false, Unknown, false)

  /** User actions and the settling of the availability request. `random` is
      the value `Math.random()` would return; a rejected request carries its
      status, if any. */
  datatype Event =
    | Edit(value: string)
    | Generate(random: real)
    | PressCheck
    | CheckAnswered(reply: Result<CheckBody, Option<int>>)
    | PressClaim

  predicate WellFormedEvent(e: Event) {
    e.Generate? ==> 0.0 <= e.random < 1.0
  }

  /** Where a step sends the browser: a route of the client, or the sign-in
      page the gateway assigns to `window.location.href` after a 401, which
      returns to `from` afterwards. */
  datatype Navigation = Route(path: string) | SignIn(from: string)

  /** The address the browser is sent to. */
  function Href(n: Navigation): (h: string)
    ensures n.SignIn? ==> h == G.SignOutHref(n.from)
    ensures n.Route? ==> h == n.path
  {
    match n
    case Route(path) => path
    case SignIn(from) => G.SignOutHref(from)
  }

  /** The state after a step and where it navigates. */
  datatype Transition = Transition(page: Page, requested: bool, navigations: seq<Navigation>)

  /** "Check Availability" is enabled for a non-empty name while no check runs. */
  predicate CheckEnabled(p: Page) {
    p.username != "" && !p.isChecking
  }

  /** "Claim" is enabled only once the name is known to be available and no
      save runs. */
  predicate ClaimEnabled(p: Page) {
    IsTruthy(p.isAvailable) && !p.isLoading
  }

  /** `handleCheckUsername` up to the request: a format error is shown and no
      request is made; otherwise the check starts. */
  function HandleCheckUsername(p: Page): (t: Transition)
    ensures t.navigations == []
    ensures t.requested <==> U.ValidateUsernameFormat(p.username).None?
    ensures !t.requested ==> t.page == p.(error := U.ValidateUsernameFormat(p.username).value)
    ensures t.requested ==> t.page == p.(isChecking := true)
  {
    match U.ValidateUsernameFormat(p.username)
    case Some(message) => Transition(p.(error := message), false, [])
    case None => Transition(p.(isChecking := true), true, [])
  }

  /** The rest of `handleCheckUsername`, once the request settles: a rejected
      request shows the failure message; an answer sets `isAvailable` and
      clears the error exactly when the value is truthy. */
  function CheckSettled(p: Page, w: Wiring, reply: Result<CheckBody, Option<int>>): (r: Page)
    ensures !r.isChecking
    ensures reply.Failure? ==> r == p.(error := CheckFailedMessage, isChecking := false)
    ensures reply.Success? ==> r.isAvailable == AvailableOf(Service(w, reply.value))
    ensures reply.Success? ==> (r.error == "" <==> IsTruthy(r.isAvailable))
    ensures reply.Success? && !IsTruthy(r.isAvailable) ==> r.error == TakenMessage
    ensures r.username == p.username
  {
    match reply
    case Failure(_) => p.(error := CheckFailedMessage, isChecking := false)
    case Success(body) =>
      var a := AvailableOf(Service(w, body));
      p.(isAvailable := a, error := if IsTruthy(a) then "" else TakenMessage, isChecking := false)
  }

  /** `handleSubmit`: refused with a message when the name is known to be
      taken; otherwise the save (a placeholder delay) completes, confetti is
      shown and the page moves on to the dashboard. */
  function HandleSubmit(p: Page): (t: Transition)
    ensures p.isAvailable == Known(false) ==> t == Transition(p.(error := ChooseAvailableMessage), false, [])
    ensures p.isAvailable != Known(false) ==> t.navigations == [Route(Destination)] && t.page.showConfetti && !t.page.isLoading
  {
    if p.isAvailable == Known(false) then Transition(p.(error := ChooseAvailableMessage), false, [])
    else Transition(p.(showConfetti := true, isLoading := false), false, [Route(Destination)])
  }

  /** Where the gateway sends the browser when the availability request is
      refused with 401: the sign-in page, to return here afterwards. */
  function ForcedSignOut(): Navigation {
    SignIn(PagePath)
  }

  /** One event. Buttons that are disabled do nothing; an answer with no check
      outstanding is ignored. An availability request refused with 401 also
      carries the gateway's navigation. */
  function Step(p: Page, w: Wiring, e: Event): (t: Transition)
    requires WellFormedEvent(e)
    ensures e.Edit? ==> t.page == p.(username := e.value, isAvailable := Unknown) && !t.requested
    ensures e.Generate? ==> (t.page.error == "" && t.page.isAvailable == Unknown
      && U.ValidateUsernameFormat(t.page.username).None?)
    ensures t.navigations != [] ==>
      (e.PressClaim? && ClaimEnabled(p))
      || (e.CheckAnswered? && p.isChecking && S.Unauthorized(e.reply) && t.navigations == [ForcedSignOut()])
  {
    match e
    case Edit(value) => Transition(p.(username := value, isAvailable := Unknown), false, [])
    case Generate(random) =>
      U.GeneratedIsWellFormed(RandomBase, random);
      Transition(p.(username := U.GenerateRandomUsername(RandomBase, random), error := "", isAvailable := Unknown), false, [])
    case PressCheck => if CheckEnabled(p) then HandleCheckUsername(p) else Transition(p, false, [])
    case CheckAnswered(reply) =>
      if p.isChecking then Transition(CheckSettled(p, w, reply), false, if S.Unauthorized(reply) then [ForcedSignOut()] else [])
      else Transition(p, false, [])
    case PressClaim => if ClaimEnabled(p) then HandleSubmit(p) else Transition(p, false, [])
  }

  function Run(p: Page, w: Wiring, events: seq<Event>): (t: Transition)
    requires forall k :: 0 <= k < |events| ==> WellFormedEvent(events[k])
    decreases |events|
  {
    if events == [] then Transition(p, false, [])
    else
      var first := Step(p, w, events[0]);
      var rest := Run(first.page, w, events[1..]);
      Transition(rest.page, first.requested || rest.requested, first.navigations + rest.navigations)
  }

  /** A malformed name shows its format error and sends no request. */
  lemma FormatErrorSendsNothing(p: Page)
    requires U.ValidateUsernameFormat(p.username).Some? && CheckEnabled(p)
    ensures var t := Step(p, Corrected, PressCheck);
      !t.requested && t.page.error == U.ValidateUsernameFormat(p.username).value
  {
  }

  /** As written, every answered check reports the name as taken, whatever
      the server said, and leaves the claim button disabled. */
  lemma AsWrittenAlwaysTaken(p: Page, body: CheckBody)
    requires p.isChecking
    ensures var q := Step(p, AsWritten, CheckAnswered(Success(body))).page;
      q.error == TakenMessage && q.isAvailable == Undefined && !ClaimEnabled(q)
  {
  }

  /** As written, no sequence of events ever enables the claim button, so the
      page never reaches the dashboard: the only place it can send the browser
      is the sign-in page, after a check refused with 401. */
  lemma {:induction false} AsWrittenNeverClaims(p: Page, events: seq<Event>)
    requires forall k :: 0 <= k < |events| ==> WellFormedEvent(events[k])
    requires !IsTruthy(p.isAvailable)
    ensures !IsTruthy(Run(p, AsWritten, events).page.isAvailable)
    ensures forall k :: 0 <= k < |Run(p, AsWritten, events).navigations| ==>
      Run(p, AsWritten, events).navigations[k] == ForcedSignOut()
    ensures Route(Destination) !in Run(p, AsWritten, events).navigations
    decreases |events|
  {
    if events != [] {
      var first := Step(p, AsWritten, events[0]);
      AsWrittenStepNeverClaims(p, events[0]);
      AsWrittenNeverClaims(first.page, events[1..]);
      AllSignOuts(first.navigations, Run(first.page, AsWritten, events[1..]).navigations);
    }
  }

  /** Two lists of sign-in navigations join into one. */
  lemma AllSignOuts(a: seq<Navigation>, b: seq<Navigation>)
    requires forall k :: 0 <= k < |a| ==> a[k] == ForcedSignOut()
    requires forall k :: 0 <= k < |b| ==> b[k] == ForcedSignOut()
    ensures forall k :: 0 <= k < |a + b| ==> (a + b)[k] == ForcedSignOut()
  {
  }

  /** One step of `AsWrittenNeverClaims`: the answer stays untruthy, and the
      only place the page can send the browser is the sign-in page, after a
      check refused with 401. */
  lemma AsWrittenStepNeverClaims(p: Page, e: Event)
    requires WellFormedEvent(e) && !IsTruthy(p.isAvailable)
    ensures !IsTruthy(Step(p, AsWritten, e).page.isAvailable)
    ensures Step(p, AsWritten, e).navigations == [] || Step(p, AsWritten, e).navigations == [ForcedSignOut()]
  {
    match e
    case CheckAnswered(reply) =>
      if p.isChecking && reply.Success? {
        assert CheckSettled(p, AsWritten, reply).isAvailable == Undefined;
      }
    case _ =>
  }

  /** With the corrected service, an answered check reports exactly what the
      server said: no error and an enabled claim button when the name is
      free, the "taken" message otherwise. */
  lemma CorrectedReportsAvailability(p: Page, body: CheckBody)
    requires p.isChecking && !p.isLoading
    ensures var q := Step(p, Corrected, CheckAnswered(Success(body))).page;
      q.isAvailable == Known(body.available)
      && (q.error == "" <==> body.available)
      && (ClaimEnabled(q) <==> body.available)
  {
  }

  /** With the corrected service, a free name can be claimed: check it, get
      the answer, claim, and the page navigates to the dashboard. */
  lemma CorrectedCanClaim(p: Page, message: string)
    requires U.ValidateUsernameFormat(p.username).None? && p.username != ""
    requires !p.isChecking && !p.isLoading
    ensures var t1 := Step(p, Corrected, PressCheck);
      var t2 := Step(t1.page, Corrected, CheckAnswered(Success(CheckBody(true, message))));
      t1.requested && Step(t2.page, Corrected, PressClaim).navigations == [Route(Destination)]
  {
    var t1 := Step(p, Corrected, PressCheck);
    WellFormedNameStartsCheck(p);
    var t2 := Step(t1.page, Corrected, CheckAnswered(Success(CheckBody(true, message))));
    CorrectedReportsAvailability(t1.page, CheckBody(true, message));
    SubmitGuardUnreachableFromButton(t2.page);
  }

  /** A well-formed name with the button enabled starts a check. */
  lemma WellFormedNameStartsCheck(p: Page)
    requires U.ValidateUsernameFormat(p.username).None? && CheckEnabled(p)
    ensures Step(p, Corrected, PressCheck) == Transition(p.(isChecking := true), true, [])
  {
  }

  /** Editing the name forgets any earlier answer, so right after an edit the
      claim button is disabled; an answer still in flight can enable it again
      (see `StaleAnswerEnablesClaim`). */
  lemma EditDisablesClaim(p: Page, value: string)
    ensures !ClaimEnabled(Step(p, Corrected, Edit(value)).page)
    ensures Step(p, Corrected, Edit(value)).page.error == p.error
  {
  }

  /** The answer is not tied to the name it was asked for: a name edited while
      a check runs takes the old name's answer, so a "free" answer for the old
      name enables Claim for a name nobody checked, malformed or not. */
  lemma StaleAnswerEnablesClaim(p: Page, value: string, message: string)
    requires p.isChecking && !p.isLoading
    ensures var edited := Step(p, Corrected, Edit(value)).page;
      var answered := Step(edited, Corrected, CheckAnswered(Success(CheckBody(true, message)))).page;
      !ClaimEnabled(edited) && answered.username == value && ClaimEnabled(answered)
      && Step(answered, Corrected, PressClaim).navigations == [Route(Destination)]
  {
  }

  /** The submit guard never fires through the button: the button is enabled
      only when the name is known to be available. */
  lemma SubmitGuardUnreachableFromButton(p: Page)
    requires ClaimEnabled(p)
    ensures Step(p, Corrected, PressClaim).page.error == p.error
    ensures Step(p, Corrected, PressClaim).navigations == [Route(Destination)]
  {
  }

  /** A refused availability request shows the failure message. Refused with
      any status but 401, nothing else happens; refused with 401, the page
      also navigates to the sign-in page, which returns here afterwards. */
  lemma CheckFailureShowsMessage(p: Page, w: Wiring, status: Option<int>)
    requires p.isChecking
    ensures var t := Step(p, w, CheckAnswered(Failure(status)));
      t.page == p.(error := CheckFailedMessage, isChecking := false) && !t.requested
      && (status != Some(401) ==> t.navigations == [])
      && (status == Some(401) ==>
            t.navigations == [ForcedSignOut()]
            && Uri.SearchParamsGet(Uri.SearchOf(Href(t.navigations[0])), G.RedirectParam) == Some(PagePath))
  {
    var t := Step(p, w, CheckAnswered(Failure(status)));
    assert t.page == CheckSettled(p, w, Failure(status));
    ForcedSignOutReturnsHere();
  }

  /** The sign-in page the gateway sends the browser to returns to this page. */
  lemma ForcedSignOutReturnsHere()
    ensures Uri.SearchParamsGet(Uri.SearchOf(Href(ForcedSignOut())), G.RedirectParam) == Some(PagePath)
  {
    G.SignOutRedirectsBack(PagePath);
  }

  /** The availability request goes through the gateway, and its route is not
      the refresh route: a 401 clears the stored credentials and sends the
      browser to the sign-in page with the current path before the request
      rejects. */
  lemma CheckUnauthorizedSignsOut(s: G.State, tag: nat, authorization: Option<string>)
    ensures var d := G.Descriptor(G.Caller(tag), Some(S.CheckUsernameUrl), authorization, false);
      var t := G.Step(s, G.Respond(d, G.Err(Some(401))), PagePath);
      t.state == s.(store := C.ClearAuthTokens(s.store))
      && t.effects == [G.Navigate(Href(ForcedSignOut())), G.Reject(d, G.HttpError(Some(401)))]
  {
    S.ServiceCallThroughGateway(s, S.CheckUsernameUrl, tag, authorization, Some(401), PagePath);
  }
}
