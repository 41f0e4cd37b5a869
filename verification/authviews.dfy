/** The authentication endpoints of the back end, FoundrCard/apps/auth/views.py:
    the Google sign-in view's mapping of failures to statuses, the profile
    view's permissions and ownership rule, and the username and e-mail
    availability checks. */
module AuthViews {
  import opened Wrappers
  import opened Text
  import UM = UserModel
  import GA = GoogleAuth
  import U = Usernames

  // ---------------------------------------------------------------------------
  // GoogleAuthAPIView.post
  // ---------------------------------------------------------------------------

  const MissingTokenMessage := "Missing required token parameter."
  const BadTokenMessage := "Invalid or expired token."
  const ValueFailureMessage := "Authentication failed. Please try again."
  const UnexpectedFailureMessage := "An unexpected error occurred during authentication."

  /** The two token fields of the request body, each possibly absent. */
  datatype TokenFields = TokenFields(idToken: Option<string>, accessToken: Option<string>)

  /** An exception raised while signing in: the library's `AuthenticationFailed`,
      a `ValueError`, or any other exception (the framework's
      `ValidationError` among them). */
  datatype Raised = AuthFailed(message: string) | ValueErr(message: string) | OtherErr(message: string)

  /** Which exceptions the view's first handler catches: as written only
      `ValueError`; corrected, `AuthenticationFailed` as well, which is what
      the token check raises. */
  datatype Catch = AsWrittenCatch | CorrectedCatch

  datatype Reply = Reply(status: int, error: string)

  predicate MentionsBadToken(message: string) {
    Contains(Lower(message), "invalid") || Contains(Lower(message), "expired")
  }

  /** The view's two handlers: a caught exception mentioning "invalid" or
      "expired" (in any case) is a 401, another caught one a 500 with the
      retry message; anything else a 500 with the generic message. */
  function StatusFor(c: Catch, e: Raised): (r: Reply)
    ensures r.status == 401 || r.status == 500
    ensures r.status == 401 <==> (e.ValueErr? || (c.CorrectedCatch? && e.AuthFailed?)) && MentionsBadToken(e.message)
    ensures r.status == 401 ==> r.error == BadTokenMessage
    ensures e.OtherErr? ==> r == Reply(500, UnexpectedFailureMessage)
    ensures e.ValueErr? && !MentionsBadToken(e.message) ==> r == Reply(500, ValueFailureMessage)
  {
    if e.ValueErr? || (c.CorrectedCatch? && e.AuthFailed?) then
      if MentionsBadToken(e.message) then Reply(401, BadTokenMessage)
      else Reply(500, ValueFailureMessage)
    else Reply(500, UnexpectedFailureMessage)
  }

  /** `request.data.get("id_token") or request.data.get("access_token")`. */
  function ChosenToken(data: TokenFields): (t: Option<string>)
    ensures data.idToken.Some? && data.idToken.value != "" ==> t == data.idToken
    ensures t.Some? && t.value != "" ==> t == data.idToken || t == data.accessToken
  {
    if data.idToken.Some? && data.idToken.value != "" then data.idToken else data.accessToken
  }

  /** What the view answers with, and the user table and cache afterwards. */
  datatype GoogleResponse = Rejected(reply: Reply) | SignedIn(user: UM.User, created: bool, store: GA.Store)

  /** `GoogleAuthAPIView.post`, with the Google library's verdict on a token
      (`verify`), the configured client id, the stored users, and the
      generated default username and address normalisation of a new user as
      inputs. The request's token is chosen first; the rest is `SignInWith`. */
  function GooglePost(c: Catch, keys: GA.UpdateKeys, data: TokenFields, verify: string -> Result<GA.Payload, string>,
                      clientId: string, st: GA.Store, username: string, normalize: string -> string): (r: GoogleResponse)
    ensures (data.idToken.None? || data.idToken.value == "") && (data.accessToken.None? || data.accessToken.value == "") ==>
      r == Rejected(Reply(400, MissingTokenMessage))
    ensures data.idToken.Some? && data.idToken.value != "" ==>
      r == SignInWith(c, keys, data.idToken, verify, clientId, st, username, normalize)
    ensures data.idToken.None? || data.idToken.value == "" ==>
      r == SignInWith(c, keys, data.accessToken, verify, clientId, st, username, normalize)
  {
    SignInWith(c, keys, ChosenToken(data), verify, clientId, st, username, normalize)
  }

  /** The view once the token is chosen. No usable token is a 400; a token
      that fails the checks raises `AuthenticationFailed`; an empty address
      raises the framework's `ValidationError`; otherwise the user is found or
      created and signed in. */
  function SignInWith(c: Catch, keys: GA.UpdateKeys, token: Option<string>, verify: string -> Result<GA.Payload, string>,
                      clientId: string, st: GA.Store, username: string, normalize: string -> string): (r: GoogleResponse)
    ensures token.None? || token.value == "" ==> r == Rejected(Reply(400, MissingTokenMessage))
    ensures r.Rejected? && r.reply.status != 400 ==>
      r.reply == StatusFor(c, AuthFailed(GA.InvalidTokenMessage)) || r.reply == StatusFor(c, OtherErr(GA.EmailRequiredMessage))
    ensures r.SignedIn? ==>
      var info := GA.GetUserInfo(verify(token.value), clientId);
      info.Success? && var u := GA.GetOrCreateUser(keys, info.value, st, username, normalize);
      u.Success? && r.user == u.value.user && r.created == u.value.created && r.store == u.value.store
    ensures token.Some? && token.value != "" ==>
      var info := GA.GetUserInfo(verify(token.value), clientId);
      (info.Failure? ==> r == Rejected(StatusFor(c, AuthFailed(info.error))))
      && (info.Success? ==> var u := GA.GetOrCreateUser(keys, info.value, st, username, normalize);
            (u.Failure? ==> r == Rejected(StatusFor(c, OtherErr(u.error))))
            && (u.Success? ==> r == SignedIn(u.value.user, u.value.created, u.value.store)))
  {
    if token.None? || token.value == "" then Rejected(Reply(400, MissingTokenMessage))
    else
      match GA.GetUserInfo(verify(token.value), clientId)
      case Failure(message) => Rejected(StatusFor(c, AuthFailed(message)))
      case Success(info) =>
        match GA.GetOrCreateUser(keys, info, st, username, normalize)
        case Failure(message) => Rejected(StatusFor(c, OtherErr(message)))
        case Success(u) =>
          match GA.TokenSubject(GA.Instance(u.user), u.store.db)
          case Failure(message) => Rejected(StatusFor(c, AuthFailed(message)))
          case Success(_) => SignedIn(u.user, u.created, u.store)
  }

  /** The lower-cased token-check message names an invalid token. */
  lemma InvalidTokenMessageMentionsInvalid()
    ensures MentionsBadToken(GA.InvalidTokenMessage)
  {
    var m := GA.InvalidTokenMessage;
    assert m[9..16] == "invalid";
    assert Lower(m)[9..16] == Lower("invalid") by { LowerSlice(m, 9, 16); }
    assert Lower("invalid") == "invalid" by { LowerKeepsLowercase("invalid"); }
    ContainsAt(Lower(m), "invalid", 9);
  }

  /** As written, a token that fails Google's checks is answered with a 500:
      the `AuthenticationFailed` it raises is not a `ValueError`, so the 401
      branch is never reached for it. */
  lemma AsWrittenBadTokenIs500(keys: GA.UpdateKeys, data: TokenFields, verify: string -> Result<GA.Payload, string>,
                               clientId: string, st: GA.Store, username: string, normalize: string -> string)
    requires ChosenToken(data).Some? && ChosenToken(data).value != ""
    requires GA.ValidateGoogleToken(verify(ChosenToken(data).value), clientId).Failure?
    ensures GooglePost(AsWrittenCatch, keys, data, verify, clientId, st, username, normalize)
      == Rejected(Reply(500, UnexpectedFailureMessage))
  {
  }

  /** Catching `AuthenticationFailed` too, the same token gets the intended
      401 "Invalid or expired token." */
  lemma CorrectedBadTokenIs401(keys: GA.UpdateKeys, data: TokenFields, verify: string -> Result<GA.Payload, string>,
                               clientId: string, st: GA.Store, username: string, normalize: string -> string)
    requires ChosenToken(data).Some? && ChosenToken(data).value != ""
    requires GA.ValidateGoogleToken(verify(ChosenToken(data).value), clientId).Failure?
    ensures GooglePost(CorrectedCatch, keys, data, verify, clientId, st, username, normalize)
      == Rejected(Reply(401, BadTokenMessage))
  {
    InvalidTokenMessageMentionsInvalid();
  }

  /** The ID token wins over the access token whenever it is non-empty. */
  lemma IdTokenPreferred(c: Catch, keys: GA.UpdateKeys, data: TokenFields, other: Option<string>,
                         verify: string -> Result<GA.Payload, string>, clientId: string, st: GA.Store,
                         username: string, normalize: string -> string)
    requires data.idToken.Some? && data.idToken.value != ""
    ensures GooglePost(c, keys, data, verify, clientId, st, username, normalize)
      == GooglePost(c, keys, data.(accessToken := other), verify, clientId, st, username, normalize)
  {
    assert ChosenToken(data) == ChosenToken(data.(accessToken := other));
  }

  // ---------------------------------------------------------------------------
  // UserDetailView
  // ---------------------------------------------------------------------------

  const ForbiddenMessage := "You do not have permission to perform this action."
  const UpdateFailedMessage := "Failed to update profile. Please try again."

  datatype Method = Get | Head | Options | Patch | OtherMethod

  /** The profile view's answer, and whether a profile was changed. */
  datatype DetailReply = DetailReply(status: int, updated: bool)

  /** `UserDetailView` for the profile named in the URL. `requester` is the
      signed-in user's username, `None` for an anonymous request;
      `activeUsernames` are the usernames of active users; `updateSucceeds`
      says whether the serializer accepts and saves the change. Only GET,
      HEAD, OPTIONS and PATCH are served; PATCH needs a signed-in user, and
      only the profile's owner may change it. The owner's update catches every
      exception, the not-found of an inactive profile included, as a 400. */
  function UserDetail(verb: Method, requester: Option<string>, urlUsername: string,
                      activeUsernames: set<string>, updateSucceeds: bool): (r: DetailReply)
    ensures r.updated ==> verb == Patch && requester == Some(urlUsername)
    ensures verb == Patch && requester.None? ==> r == DetailReply(401, false)
    ensures verb == Patch && requester.Some? && requester.value != urlUsername ==> r == DetailReply(403, false)
    ensures verb == Patch && requester == Some(urlUsername) ==>
      r == (if urlUsername in activeUsernames && updateSucceeds then DetailReply(200, true) else DetailReply(400, false))
    ensures verb == Get || verb == Head ==> r == DetailReply(if urlUsername in activeUsernames then 200 else 404, false)
    ensures verb == OtherMethod ==> r.status == 405
  {
    match verb
    case OtherMethod => DetailReply(405, false)
    case Options => DetailReply(200, false)
    case Get => DetailReply(if urlUsername in activeUsernames then 200 else 404, false)
    case Head => DetailReply(if urlUsername in activeUsernames then 200 else 404, false)
    case Patch =>
      if requester.None? then DetailReply(401, false)
      else if requester.value != urlUsername then DetailReply(403, false)
      else if urlUsername in activeUsernames && updateSucceeds then DetailReply(200, true)
      else DetailReply(400, false)
  }

  /** Reading a profile never requires signing in, and nobody changes a
      profile other than their own, whatever the request. */
  lemma OnlyOwnersUpdate(verb: Method, requester: Option<string>, urlUsername: string,
                         activeUsernames: set<string>, updateSucceeds: bool)
    ensures verb != Patch ==> !UserDetail(verb, requester, urlUsername, activeUsernames, updateSucceeds).updated
    ensures verb == Get ==>
      (UserDetail(verb, requester, urlUsername, activeUsernames, updateSucceeds)
         == UserDetail(verb, None, urlUsername, activeUsernames, updateSucceeds))
    ensures requester != Some(urlUsername) ==> !UserDetail(verb, requester, urlUsername, activeUsernames, updateSucceeds).updated
  {
  }

  // ---------------------------------------------------------------------------
  // UsernameCheckView and CheckEmailView
  // ---------------------------------------------------------------------------

  const UsernameRequiredMessage := "Username parameter is required."
  const UsernameShortMessage := "Username must be at least 3 characters long."
  const UsernameCharsetMessage := "Username can only contain letters, numbers, and underscores."
  const UsernameFreeMessage := "Username is available."
  const UsernameTakenMessage := "Username is already taken."
  const UsernameErrorMessage := "An error occurred while checking username availability."
  const NotAuthenticatedMessage := "Authentication credentials were not provided."
  const EmailRequiredMessage := "Email parameter is required."
  const EmailFreeMessage := "Email is available."
  const EmailTakenMessage := "Email is already registered."
  const EmailErrorMessage := "An error occurred while checking email availability."

  datatype CheckReply = CheckReply(status: int, available: bool, message: string)

  /** `s.replace('_', '')`. */
  function RemoveUnderscores(s: string): (r: string)
    ensures '_' !in r
    ensures forall c :: c in r <==> c in s && c != '_'
  {
    if s == [] then []
    else (if s[0] == '_' then [] else [s[0]]) + RemoveUnderscores(s[1..])
  }

  /** Python's `str.isalnum()`: non-empty, every character alphanumeric in
      the sense of `alnum` (the Unicode letter and digit classes). */
  predicate IsAlnum(s: string, alnum: char -> bool) {
    s != [] && forall k :: 0 <= k < |s| ==> alnum(s[k])
  }

  /** The three format checks of the username view, in order, on the
      stripped name: required, at least three characters, letters, digits
      and underscores only (with at least one that is not an underscore). */
  function UsernameFormatError(name: string, alnum: char -> bool): (r: Option<string>)
    ensures r == Some(UsernameRequiredMessage) <==> name == ""
    ensures r == Some(UsernameShortMessage) <==> name != "" && |name| < 3
    ensures r == Some(UsernameCharsetMessage) <==> |name| >= 3 && !IsAlnum(RemoveUnderscores(name), alnum)
    ensures r.None? <==> |name| >= 3 && IsAlnum(RemoveUnderscores(name), alnum)
  {
    if name == "" then Some(UsernameRequiredMessage)
    else if |name| < 3 then Some(UsernameShortMessage)
    else if !IsAlnum(RemoveUnderscores(name), alnum) then Some(UsernameCharsetMessage)
    else None
  }

  /** Another user, compared case-insensitively, already holds `name`. */
  predicate UsernameTaken(users: seq<UM.User>, name: string, requester: int) {
    exists k :: 0 <= k < |users| && Lower(users[k].username) == Lower(name) && users[k].id != Some(requester)
  }

  /** `UsernameCheckView.get`. `requester` is the signed-in user's key
      (`None` when anonymous, which the view's permission refuses);
      `dbFails` says whether the lookup raised. */
  function UsernameCheck(param: Option<string>, alnum: char -> bool, users: seq<UM.User>,
                         requester: Option<int>, dbFails: bool): (r: CheckReply)
    ensures requester.None? ==> r == CheckReply(401, false, NotAuthenticatedMessage)
    ensures requester.Some? ==> var name := PyStrip(if param.Some? then param.value else "");
      && (UsernameFormatError(name, alnum).Some? ==> r == CheckReply(400, false, UsernameFormatError(name, alnum).value))
      && (UsernameFormatError(name, alnum).None? && dbFails ==> r == CheckReply(500, false, UsernameErrorMessage))
      && (UsernameFormatError(name, alnum).None? && !dbFails ==>
            r.status == 200 && (r.available <==> !UsernameTaken(users, name, requester.value))
            && r.message == (if r.available then UsernameFreeMessage else UsernameTakenMessage))
  {
    if requester.None? then CheckReply(401, false, NotAuthenticatedMessage)
    else
      var name := PyStrip(if param.Some? then param.value else "");
      match UsernameFormatError(name, alnum)
      case Some(message) => CheckReply(400, false, message)
      case None =>
        if dbFails then CheckReply(500, false, UsernameErrorMessage)
        else if UsernameTaken(users, name, requester.value) then CheckReply(200, false, UsernameTakenMessage)
        else CheckReply(200, true, UsernameFreeMessage)
  }

  /** Python's `strip` leaves a non-empty run of word characters alone. */
  lemma WordCharsUnstripped(u: string)
    requires u != [] && U.AllWordChars(u)
    ensures PyStrip(u) == u
  {
    assert U.IsWordChar(u[0]) && U.IsWordChar(u[|u| - 1]);
    StripKeeps(u, IsPySpace);
  }

  /** A name the web client accepts passes the view's format checks exactly
      when it is not all underscores (given that `alnum` admits ASCII letters
      and digits): the client lets "___" through, the view refuses it. */
  lemma ClientAndServerFormats(u: string, alnum: char -> bool)
    requires U.ValidateUsernameFormat(u).None?
    requires forall c :: IsAsciiAlnum(c) ==> alnum(c)
    ensures UsernameFormatError(PyStrip(u), alnum).None? <==> exists k :: 0 <= k < |u| && u[k] != '_'
  {
    U.WellFormedIffWordChars(u);
    WordCharsUnstripped(u);
    WordCharsAlnum(u, alnum);
  }

  /** Without its underscores, a run of word characters is alphanumeric
      exactly when something remains. */
  lemma WordCharsAlnum(u: string, alnum: char -> bool)
    requires U.AllWordChars(u)
    requires forall c :: IsAsciiAlnum(c) ==> alnum(c)
    ensures IsAlnum(RemoveUnderscores(u), alnum) <==> exists k :: 0 <= k < |u| && u[k] != '_'
  {
    var r := RemoveUnderscores(u);
    forall k | 0 <= k < |r|
      ensures alnum(r[k])
    {
      assert r[k] in u;
    }
    if exists k :: 0 <= k < |u| && u[k] != '_' {
      var k :| 0 <= k < |u| && u[k] != '_';
      assert u[k] in r;
    }
    if r != [] {
      assert r[0] in u;
      var k :| 0 <= k < |u| && u[k] == r[0];
      assert u[k] != '_';
    }
  }

  /** The requester's own record never makes a name taken, and names match
      whatever their case. */
  lemma TakenIgnoresOwnRecordAndCase(users: seq<UM.User>, name: string, requester: int)
    ensures (forall k :: 0 <= k < |users| ==> users[k].id == Some(requester)) ==> !UsernameTaken(users, name, requester)
    ensures UsernameTaken(users, name, requester) <==> UsernameTaken(users, Lower(name), requester)
  {
    LowerIdempotent(name);
  }

  /** The address `CheckEmailView.get` looks up: the `email` parameter
      (empty when absent), stripped, then lower-cased. */
  function EmailQuery(param: Option<string>): string {
    Lower(PyStrip(if param.Some? then param.value else ""))
  }

  /** `CheckEmailView.get`. `dbFails` says whether the lookup raised. */
  function EmailCheck(param: Option<string>, users: seq<UM.User>, dbFails: bool): (r: CheckReply)
    ensures param.None? ==> r == CheckReply(400, false, EmailRequiredMessage)
    ensures r.status == 200 ==> !dbFails && (r.available <==>
      forall k :: 0 <= k < |users| ==> Lower(users[k].email) != Lower(PyStrip(param.value)))
    ensures r.status == 200 || r.status == 400 || r.status == 500
  {
    EmailAnswer(EmailQuery(param), users, dbFails)
  }

  /** The view's answer for the normalised address: an empty one is a 400;
      otherwise available exactly when no stored address matches it
      case-insensitively. */
  function EmailAnswer(email: string, users: seq<UM.User>, dbFails: bool): (r: CheckReply)
    ensures email == "" ==> r == CheckReply(400, false, EmailRequiredMessage)
    ensures email != "" && dbFails ==> r == CheckReply(500, false, EmailErrorMessage)
    ensures email != "" && !dbFails ==>
      r.status == 200
      && (r.available <==> forall k :: 0 <= k < |users| ==> Lower(users[k].email) != email)
      && r.message == (if r.available then EmailFreeMessage else EmailTakenMessage)
  {
    if email == "" then CheckReply(400, false, EmailRequiredMessage)
    else if dbFails then CheckReply(500, false, EmailErrorMessage)
    else if exists k :: 0 <= k < |users| && Lower(users[k].email) == email then CheckReply(200, false, EmailTakenMessage)
    else CheckReply(200, true, EmailFreeMessage)
  }

  /** Any runs of white space around an address, and its letter case, do not
      change the answer. */
  lemma EmailCheckNormalises(pre: string, email: string, post: string, users: seq<UM.User>, dbFails: bool)
    requires forall k :: 0 <= k < |pre| ==> IsPySpace(pre[k])
    requires forall k :: 0 <= k < |post| ==> IsPySpace(post[k])
    requires email != "" && !IsPySpace(email[0]) && !IsPySpace(email[|email| - 1])
    ensures EmailCheck(Some(pre + email + post), users, dbFails) == EmailCheck(Some(Lower(email)), users, dbFails)
  {
    EmailQueryNormalises(pre, email, post);
  }

  lemma EmailQueryNormalises(pre: string, email: string, post: string)
    requires forall k :: 0 <= k < |pre| ==> IsPySpace(pre[k])
    requires forall k :: 0 <= k < |post| ==> IsPySpace(post[k])
    requires email != "" && !IsPySpace(email[0]) && !IsPySpace(email[|email| - 1])
    ensures EmailQuery(Some(pre + email + post)) == Lower(email)
    ensures EmailQuery(Some(Lower(email))) == Lower(email)
  {
    PaddingStripped(pre, email, post);
    LowerUnstripped(email);
    LowerIdempotent(email);
  }

  /** Stripping removes exactly the white space around a text that neither
      starts nor ends with white space. */
  lemma PaddingStripped(pre: string, s: string, post: string)
    requires forall k :: 0 <= k < |pre| ==> IsPySpace(pre[k])
    requires forall k :: 0 <= k < |post| ==> IsPySpace(post[k])
    requires s != [] && !IsPySpace(s[0]) && !IsPySpace(s[|s| - 1])
    ensures PyStrip(pre + s + post) == s
  {
    var padded := pre + s + post;
    var i := |pre|;
    var j := |pre| + |s|;
    assert forall k :: 0 <= k < i ==> padded[k] == pre[k];
    assert forall k :: i <= k < j ==> padded[k] == s[k - i];
    assert forall k :: j <= k < |padded| ==> padded[k] == post[k - j];
    assert !IsPySpace(padded[i]) && !IsPySpace(padded[j - 1]);
    assert StartOf(padded, IsPySpace, 0) == i;
    assert EndOf(padded, IsPySpace, i, |padded|) == j;
    assert padded[i..j] == s;
  }

  lemma LowerUnstripped(s: string)
    requires s != [] && !IsPySpace(s[0]) && !IsPySpace(s[|s| - 1])
    ensures PyStrip(Lower(s)) == Lower(s)
  {
    LowerKeepsSpace(s[0]);
    LowerKeepsSpace(s[|s| - 1]);
    StripKeeps(Lower(s), IsPySpace);
  }
}
