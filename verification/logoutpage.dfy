/** The sign-out page, Frontend/src/pages/auth/Logout.tsx: its status, the
    countdown to the automatic redirect, and the buttons of each status. */
module LogoutPage {
  import opened Wrappers
  import Uri
  import C = Credentials
  import S = Session
  import G = Gateway

  /** The route the page is served at (Frontend/src/Route.tsx). */
  const PagePath := "/logout"

  datatype Status = Idle | LoggingOut | Succeeded | Failed

  datatype Page = Page(status: Status, countdown: int, autoRedirect: bool, store: C.Store)

  /** The page as it opens, over the current credential store. */
  function Initial(store: C.Store): (p: Page)
    ensures p.status == Idle && p.countdown == 5 && p.autoRedirect
  {
    Page(Idle, 5, true, store)
  }

  /** Where a step sends the browser: a route, or one entry back in history.
      The gateway's forced sign-out assigns `window.location.href`, which is
      also a route here. */
  datatype Navigation = Route(path: string) | Back

  /** Button presses, the settling of the sign-out call, and the one-second
      timer. */
  datatype Event =
    | PressSignOut
    | SignOutSettled(post: S.Call<()>)
    | Tick
    | PressCancel
    | PressStay
    | PressSignInAgain
    | PressHome
    | PressDashboard

  datatype Transition = Transition(page: Page, requested: bool, navigations: seq<Navigation>)

  /** The countdown timer runs while this holds. */
  predicate Counting(p: Page) {
    p.status == Succeeded && p.autoRedirect && p.countdown > 0
  }

  /** The effect navigates to the sign-in page once this holds. */
  predicate Redirecting(p: Page) {
    p.status == Succeeded && p.autoRedirect && p.countdown == 0
  }

  /** The effect, run after every change: the redirect, or nothing. */
  function Effect(p: Page): (n: seq<Navigation>)
    ensures n == [Route("/login")] <==> Redirecting(p)
    ensures n == [] <==> !Redirecting(p)
  {
    if Redirecting(p) then [Route("/login")] else []
  }

  /** `handleLogout`, once the call settles: the status is "success" exactly
      when the service returned true, else "error". A 401 still ends in
      "error", but the gateway has signed the client out by then. */
  function SignOutDone(p: Page, post: S.Call<()>): (r: Page)
    ensures r.status == Succeeded <==> post.Success?
    ensures r.status == Succeeded || r.status == Failed
    ensures r.countdown == p.countdown && r.autoRedirect == p.autoRedirect
    ensures r.status == Succeeded || S.Unauthorized(post) ==> C.CheckAuth(r.store) == C.AuthStatus(false, None)
    ensures r.status == Failed && !S.Unauthorized(post) ==> r.store == p.store
  {
    var run := S.Logout(p.store, post);
    assert post.Success? || S.Unauthorized(post) ==> C.CheckAuth(run.store) == C.AuthStatus(false, None) by {
      if post.Success? || S.Unauthorized(post) {
        S.LogoutSignsOut(p.store, post);
      }
    }
    p.(status := if run.loggedOut then Succeeded else Failed, store := run.store)
  }

  /** Where the gateway sends the browser when the sign-out call is refused
      with 401: the sign-in page, to return here afterwards. */
  function ForcedSignOut(): Navigation {
    Route(G.SignOutHref(PagePath))
  }

  /** One event, then the effect. Buttons act only in the status that shows
      them; the timer only while counting. A sign-out call refused with 401
      also carries the gateway's navigation. */
  function Step(p: Page, e: Event): (t: Transition)
    ensures t.requested <==> e.PressSignOut? && (p.status == Idle || p.status == Failed)
    ensures t.requested ==> t.page == p.(status := LoggingOut)
    ensures e.Tick? && Counting(p) ==> t.page == p.(countdown := p.countdown - 1)
    ensures e.Tick? && !Counting(p) ==> t.page == p
    ensures e.PressStay? && p.status == Succeeded && p.autoRedirect ==> !t.page.autoRedirect && t.page.countdown == 0
    ensures Route("/login") in t.navigations ==> Redirecting(t.page) || e.PressSignInAgain?
  {
    var (q, requested, pressed) := match e
      case PressSignOut =>
        if p.status == Idle || p.status == Failed then (p.(status := LoggingOut), true, []) else (p, false, [])
      case SignOutSettled(post) =>
        if p.status == LoggingOut then
          (SignOutDone(p, post), false, if S.Unauthorized(post) then [ForcedSignOut()] else [])
        else (p, false, [])
      case Tick =>
        if Counting(p) then (p.(countdown := p.countdown - 1), false, []) else (p, false, [])
      case PressCancel =>
        if p.status == Idle then (p, false, [Back]) else (p, false, [])
      case PressStay =>
        if p.status == Succeeded && p.autoRedirect then (p.(autoRedirect := false, countdown := 0), false, []) else (p, false, [])
      case PressSignInAgain =>
        if p.status == Succeeded then (p, false, [Route("/login")]) else (p, false, [])
      case PressHome =>
        if p.status == Succeeded then (p, false, [Route("/")]) else (p, false, [])
      case PressDashboard =>
        if p.status == Failed then (p, false, [Route("/dashboard")]) else (p, false, []);
    Transition(q, requested, pressed + Effect(q))
  }

  function Run(p: Page, events: seq<Event>): (t: Transition)
    decreases |events|
  {
    if events == [] then Transition(p, false, [])
    else
      var first := Step(p, events[0]);
      var rest := Run(first.page, events[1..]);
      Transition(rest.page, first.requested || rest.requested, first.navigations + rest.navigations)
  }

  /** The countdown stays between 0 and 5. */
  predicate Valid(p: Page) {
    0 <= p.countdown <= 5
  }

  lemma StepPreservesValid(p: Page, e: Event)
    requires Valid(p)
    ensures Valid(Step(p, e).page)
  {
  }

  lemma {:induction false} RunPreservesValid(p: Page, events: seq<Event>)
    requires Valid(p)
    ensures Valid(Run(p, events).page)
    decreases |events|
  {
    if events != [] {
      StepPreservesValid(p, events[0]);
      RunPreservesValid(Step(p, events[0]).page, events[1..]);
    }
  }

  /** After a successful sign-out, five ticks bring the countdown to zero and
      the fifth one redirects to the sign-in page. */
  lemma FiveTicksRedirect(p: Page)
    requires p.status == Succeeded && p.autoRedirect && p.countdown == 5
    ensures Run(p, [Tick, Tick, Tick, Tick, Tick]).navigations == [Route("/login")]
    ensures Run(p, [Tick, Tick, Tick, Tick]).navigations == []
  {
    var ticks := [Tick, Tick, Tick, Tick, Tick];
    assert ticks[1..] == ticks[..4];
    assert ticks[..4][1..] == ticks[..3] && ticks[..3][1..] == ticks[..2] && ticks[..2][1..] == ticks[..1];
    assert ticks[..1][1..] == [];
    var p4 := p.(countdown := 4);
    var p3 := p.(countdown := 3);
    var p2 := p.(countdown := 2);
    var p1 := p.(countdown := 1);
    assert Run(p1, ticks[..1]).navigations == [Route("/login")];
    assert Run(p1, []).navigations == [];
    assert Run(p2, ticks[..1]).navigations == [];
    assert Run(p2, ticks[..2]).navigations == [Route("/login")];
    assert Run(p3, ticks[..2]).navigations == [];
    assert Run(p3, ticks[..3]).navigations == [Route("/login")];
    assert Run(p4, ticks[..3]).navigations == [];
    assert Run(p4, ticks[..4]).navigations == [Route("/login")];
    assert Run(p, ticks[..4]).navigations == [];
  }

  /** "Stay on this page" stops the countdown for good: afterwards no event
      sequence redirects on its own; the only way to the sign-in page is its
      button. */
  lemma {:induction false} StayedNeverRedirects(p: Page, events: seq<Event>)
    requires p.status == Succeeded && !p.autoRedirect
    ensures forall k :: 0 <= k < |Run(p, events).navigations| ==>
      Run(p, events).navigations[k] != Route("/login") || PressSignInAgain in events
    decreases |events|
  {
    if events != [] {
      var first := Step(p, events[0]);
      assert first.page.status == Succeeded && !first.page.autoRedirect;
      StayedNeverRedirects(first.page, events[1..]);
      var rest := Run(first.page, events[1..]);
      assert events == [events[0]] + events[1..];
      forall k | 0 <= k < |Run(p, events).navigations|
        ensures Run(p, events).navigations[k] != Route("/login") || PressSignInAgain in events
      {
        if k >= |first.navigations| {
          assert Run(p, events).navigations[k] == rest.navigations[k - |first.navigations|];
          if Run(p, events).navigations[k] == Route("/login") {
            assert PressSignInAgain in events[1..];
          }
        }
      }
    }
  }

  /** From a failure, "Try Again" starts another sign-out call. */
  lemma RetryAfterFailure(p: Page)
    requires p.status == Failed
    ensures Step(p, PressSignOut) == Transition(p.(status := LoggingOut), true, [])
  {
  }

  /** A failed call shows the error. Refused with any status but 401, it
      leaves the session in place and redirects nowhere; refused with 401, the
      gateway has cleared the credentials and sends the browser to the sign-in
      page, which returns to this page afterwards. */
  lemma FailureKeepsSession(p: Page, status: Option<int>)
    requires p.status == LoggingOut
    ensures var t := Step(p, SignOutSettled(Failure(status)));
      t.page.status == Failed
      && (status != Some(401) ==> t.page.store == p.store && t.navigations == [])
      && (status == Some(401) ==>
            t.page.store == C.ClearAuthTokens(p.store) && t.navigations == [ForcedSignOut()]
            && Uri.SearchParamsGet(Uri.SearchOf(t.navigations[0].path), G.RedirectParam) == Some(PagePath))
  {
    G.SignOutRedirectsBack(PagePath);
  }
}
