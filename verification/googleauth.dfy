/** Google sign-in helpers of the back end, FoundrCard/apps/auth/utils.py: the
    claim checks on a verified ID token, the user information read from it,
    the find-or-create of the matching user over the user table and the
    cache, and the guards before tokens are minted. */
module GoogleAuth {
  import opened Wrappers
  import opened Text
  import UM = UserModel

  const InvalidTokenMessage := "Token is invalid or expired."
  const EmailRequiredMessage := "Email is required"
  const NoUserMessage := "User is not provided"
  const UserNotFoundMessage := "User not found"

  const GoogleIssuer := "accounts.google.com"
  const GoogleIssuerUrl := "https://accounts.google.com"

  /** The claims of a token the Google library verified; a claim the token
      lacks is `None`. */
  datatype Payload = Payload(
    iss: Option<string>,
    aud: Option<string>,
    email: Option<string>,
    name: Option<string>,
    givenName: Option<string>,
    familyName: Option<string>,
    sub: Option<string>,
    picture: Option<string>,
    emailVerified: Option<bool>,
    locale: Option<string>)

  /** `validate_google_token`. `verified` is the library's verdict on the
      token: its payload, or the reason it refused. The issuer must be one of
      Google's two spellings and the audience the configured client id; every
      failure, including a missing claim, surfaces as the one "invalid or
      expired" message. */
  function ValidateGoogleToken(verified: Result<Payload, string>, clientId: string): (r: Result<Payload, string>)
    ensures r.Failure? ==> r.error == InvalidTokenMessage
    ensures r.Success? <==>
      && verified.Success?
      && verified.value.iss in {Some(GoogleIssuer), Some(GoogleIssuerUrl)}
      && verified.value.aud == Some(clientId)
    ensures r.Success? ==> r.value == verified.value
  {
    match verified
    case Failure(_) => Failure(InvalidTokenMessage)
    case Success(p) =>
      if p.iss.None? || (p.iss.value != GoogleIssuer && p.iss.value != GoogleIssuerUrl) then Failure(InvalidTokenMessage)
      else if p.aud != Some(clientId) then Failure(InvalidTokenMessage)
      else Success(p)
  }

  /** The dictionary `get_user_info_from_id_token` returns. */
  datatype UserInfo = UserInfo(
    email: string,
    name: string,
    givenName: string,
    familyName: string,
    sub: string,
    picture: string,
    emailVerified: bool,
    locale: string)

  /** `.lower().strip()` (ASCII case mapping). */
  function NormalizeEmail(e: string): (r: string)
    ensures |r| <= |e|
  {
    PyStrip(Lower(e))
  }

  /** Normalising twice is normalising once. */
  lemma NormalizeEmailIdempotent(e: string)
    ensures NormalizeEmail(NormalizeEmail(e)) == NormalizeEmail(e)
  {
    var l := Lower(e);
    var n := PyStrip(l);
    assert forall c :: c in l ==> !IsAsciiUpper(c);
    assert Lower(n) == n;
    if n != [] {
      StripKeeps(n, IsPySpace);
    }
  }

  function OrEmpty(v: Option<string>): string {
    if v.Some? then v.value else ""
  }

  /** `get_user_info_from_id_token`: a validated payload's claims, the e-mail
      normalised, a missing claim replaced by "", false or "en". */
  function GetUserInfo(verified: Result<Payload, string>, clientId: string): (r: Result<UserInfo, string>)
    ensures r.Failure? <==> ValidateGoogleToken(verified, clientId).Failure?
    ensures r.Failure? ==> r.error == InvalidTokenMessage
    ensures r.Success? ==>
      && r.value.email == NormalizeEmail(OrEmpty(verified.value.email))
      && r.value.givenName == OrEmpty(verified.value.givenName)
      && r.value.familyName == OrEmpty(verified.value.familyName)
      && r.value.picture == OrEmpty(verified.value.picture)
      && (r.value.emailVerified <==> verified.value.emailVerified == Some(true))
      && (verified.value.locale.None? ==> r.value.locale == "en")
  {
    match ValidateGoogleToken(verified, clientId)
    case Failure(e) => Failure(e)
    case Success(p) =>
      Success(UserInfo(
        NormalizeEmail(OrEmpty(p.email)),
        OrEmpty(p.name),
        OrEmpty(p.givenName),
        OrEmpty(p.familyName),
        OrEmpty(p.sub),
        OrEmpty(p.picture),
        p.emailVerified == Some(true),
        if p.locale.Some? then p.locale.value else "en"))
  }

  /** The keys the code reads from the dictionary: its own text entries,
      and three it does not have. */
  datatype InfoKey =
    | EmailKey | NameKey | GivenNameKey | FamilyNameKey | SubKey | PictureKey | LocaleKey
    | FirstNameKey | LastNameKey | ProfilePictureKey

  /** `user_info.get(key, "")`: a key the dictionary lacks gives "". */
  function InfoGet(info: UserInfo, key: InfoKey): string {
    match key
    case EmailKey => info.email
    case NameKey => info.name
    case GivenNameKey => info.givenName
    case FamilyNameKey => info.familyName
    case SubKey => info.sub
    case PictureKey => info.picture
    case LocaleKey => info.locale
    case _ => ""
  }

  /** Which dictionary keys the update of an existing user reads. As written,
      each field name with "_url" removed: "first_name", "last_name" and
      "profile_picture", none of which the dictionary has. Corrected, the
      keys the creation branch reads: "given_name", "family_name" and
      "picture". */
  datatype UpdateKeys = AsWrittenKeys | CorrectedKeys

  function FirstNameSource(k: UpdateKeys): InfoKey {
    if k.AsWrittenKeys? then FirstNameKey else GivenNameKey
  }

  function LastNameSource(k: UpdateKeys): InfoKey {
    if k.AsWrittenKeys? then LastNameKey else FamilyNameKey
  }

  function PictureSource(k: UpdateKeys): InfoKey {
    if k.AsWrittenKeys? then ProfilePictureKey else PictureKey
  }

  /** The user table, keyed by stored e-mail, and the cache, keyed by
      "user:" + e-mail. */
  datatype Store = Store(db: map<string, UM.User>, cache: map<string, UM.User>)

  function CacheKey(email: string): string {
    "user:" + email
  }

  datatype Upserted = Upserted(user: UM.User, created: bool, saved: bool, store: Store)

  /** The user found for `email`: the cached one, else the table's. */
  function Lookup(st: Store, email: string): Option<UM.User> {
    if CacheKey(email) in st.cache then Some(st.cache[CacheKey(email)])
    else if email in st.db then Some(st.db[email])
    else None
  }

  /** The store once the user has been looked up: a user found in the table
      but not in the cache is put in the cache straight away, whatever
      happens to it next. */
  function AfterLookup(st: Store, email: string): (r: Store)
    ensures r.db == st.db
    ensures Lookup(r, email) == Lookup(st, email)
    ensures Lookup(st, email).Some? ==> CacheKey(email) in r.cache && r.cache[CacheKey(email)] == Lookup(st, email).value
    ensures Lookup(st, email).None? || CacheKey(email) in st.cache ==> r == st
    ensures forall k :: k in st.cache ==> k in r.cache && r.cache[k] == st.cache[k]
    ensures r.cache.Keys <= st.cache.Keys + {CacheKey(email)}
  {
    if CacheKey(email) !in st.cache && email in st.db then st.(cache := st.cache[CacheKey(email) := st.db[email]])
    else st
  }

  /** The existing user with the three profile fields taken from `info`
      under the given keys. */
  function Refreshed(keys: UpdateKeys, user: UM.User, info: UserInfo): UM.User {
    user.(firstName := InfoGet(info, FirstNameSource(keys)),
          lastName := InfoGet(info, LastNameSource(keys)),
          profilePictureUrl := Some(InfoGet(info, PictureSource(keys))))
  }

  /** The user `create_user` makes for an unknown address: active iff the
      address is verified, with Google's names and picture. `username` is the
      generated default and `normalize` the library's address normalisation. */
  function NewUser(info: UserInfo, email: string, username: string, normalize: string -> string): (u: UM.User)
    requires email != ""
    ensures u.email == normalize(email) && u.username == username
    ensures u.firstName == info.givenName && u.lastName == info.familyName && u.profilePictureUrl == Some(info.picture)
    ensures u.isActive == info.emailVerified && !u.isStaff && !u.isSuperuser && !u.isPremium
  {
    var made := UM.CreateUser(email, None, map["is_active" := info.emailVerified], username, normalize).value;
    made.(firstName := info.givenName, lastName := info.familyName, profilePictureUrl := Some(info.picture))
  }

  /** The user saved to the table and put in the cache under `email`. */
  function Saved(st: Store, email: string, u: UM.User): (r: Store)
    ensures r.db == st.db[u.email := u] && r.cache == st.cache[CacheKey(email) := u]
  {
    Store(st.db[u.email := u], st.cache[CacheKey(email) := u])
  }

  /** The update branch: the found user refreshed from `info`, saved and
      re-cached only when a field changed. */
  function Update(keys: UpdateKeys, found: UM.User, info: UserInfo, email: string, st: Store): (r: Upserted)
    ensures !r.created && r.user == Refreshed(keys, found, info)
    ensures keys.AsWrittenKeys? ==> r.user.firstName == "" && r.user.lastName == "" && r.user.profilePictureUrl == Some("")
    ensures keys.CorrectedKeys? ==>
      r.user.firstName == info.givenName && r.user.lastName == info.familyName && r.user.profilePictureUrl == Some(info.picture)
    ensures r.saved <==> r.user != found
    ensures r.saved ==> r.store == Saved(st, email, r.user)
    ensures !r.saved ==> r.store == st
  {
    var user := Refreshed(keys, found, info);
    if user != found then Upserted(user, false, true, Saved(st, email, user))
    else Upserted(user, false, false, st)
  }

  /** `get_or_create_user` after the address check, for the normalised,
      non-empty `email`; with the cache timeout and the `created` flag of a
      cache hit as evidently intended (as written the first is an undefined
      name and the second unbound, so every call raises). An unknown address
      creates, stores and caches a new user; a known one (cached, or else in
      the table, and then cached at once) goes through the update. Either way
      the cache ends up holding the returned user. */
  function Upsert(keys: UpdateKeys, email: string, info: UserInfo, st: Store, username: string,
                  normalize: string -> string): (r: Upserted)
    requires email != ""
    ensures r.created <==> Lookup(st, email).None?
    ensures r.created ==> r.saved && r.user == NewUser(info, email, username, normalize) && r.store == Saved(st, email, r.user)
    ensures !r.created ==> r == Update(keys, Lookup(st, email).value, info, email, AfterLookup(st, email))
    ensures CacheKey(email) in r.store.cache && r.store.cache[CacheKey(email)] == r.user
    ensures Lookup(r.store, email) == Some(r.user)
  {
    match Lookup(st, email)
    case None =>
      var user := NewUser(info, email, username, normalize);
      Upserted(user, true, true, Saved(st, email, user))
    case Some(found) => Update(keys, found, info, email, AfterLookup(st, email))
  }

  /** `get_or_create_user`: the address is normalised, and an empty one is
      refused before anything is looked up. */
  function GetOrCreateUser(keys: UpdateKeys, info: UserInfo, st: Store, username: string,
                           normalize: string -> string): (r: Result<Upserted, string>)
    ensures r.Failure? <==> NormalizeEmail(info.email) == ""
    ensures r.Failure? ==> r.error == EmailRequiredMessage
    ensures r.Success? ==> r.value == Upsert(keys, NormalizeEmail(info.email), info, st, username, normalize)
  {
    var email := NormalizeEmail(info.email);
    if email == "" then Failure(EmailRequiredMessage)
    else Success(Upsert(keys, email, info, st, username, normalize))
  }

  /** With the corrected keys, signing in again with the same information
      finds the user just created and changes nothing. */
  lemma CorrectedSecondSignInIsQuiet(email: string, info: UserInfo, st: Store, username: string, normalize: string -> string)
    requires email != "" && Lookup(st, email).None?
    ensures var first := Upsert(CorrectedKeys, email, info, st, username, normalize);
      var second := Upsert(CorrectedKeys, email, info, first.store, username, normalize);
      first.created && !second.created && !second.saved
      && second.user == first.user && second.store == first.store
  {
    var first := Upsert(CorrectedKeys, email, info, st, username, normalize);
    assert Refreshed(CorrectedKeys, first.user, info) == first.user;
  }

  /** A user found only in the table, whom Google's information leaves
      unchanged, is not saved but is still cached; the table is untouched. */
  lemma TableHitIsCached(email: string, info: UserInfo, st: Store, username: string, normalize: string -> string)
    requires email != "" && email in st.db && CacheKey(email) !in st.cache
    requires Refreshed(CorrectedKeys, st.db[email], info) == st.db[email]
    ensures var r := Upsert(CorrectedKeys, email, info, st, username, normalize);
      && !r.created && !r.saved && r.user == st.db[email]
      && r.store == Store(st.db, st.cache[CacheKey(email) := st.db[email]])
  {
  }

  /** The discrepancy on a pair of sign-ins: a user created with Google's
      given name loses it on the next sign-in as written, and keeps it with
      the corrected keys. */
  lemma AsWrittenLosesGivenName(email: string, info: UserInfo, st: Store, username: string, normalize: string -> string)
    requires email != "" && Lookup(st, email).None? && info.givenName != ""
    ensures var first := Upsert(AsWrittenKeys, email, info, st, username, normalize);
      && first.user.firstName == info.givenName
      && Upsert(AsWrittenKeys, email, info, first.store, username, normalize).user.firstName == ""
      && Upsert(CorrectedKeys, email, info, first.store, username, normalize).user.firstName == info.givenName
  {
    var first := Upsert(AsWrittenKeys, email, info, st, username, normalize);
    assert Lookup(first.store, email) == Some(first.user);
  }

  /** What `get_tokens_for_user` is handed: nothing (or another falsy value),
      a user instance, or an e-mail address. */
  datatype Subject = NoSubject | Instance(user: UM.User) | EmailText(email: string)

  /** The guards of `get_tokens_for_user`: the user the tokens are minted for,
      or why none is. An empty address counts as no user; an address is looked
      up exactly. */
  function TokenSubject(subject: Subject, db: map<string, UM.User>): (r: Result<UM.User, string>)
    ensures subject.NoSubject? || subject == EmailText("") ==> r == Failure(NoUserMessage)
    ensures subject.Instance? ==> r == Success(subject.user)
    ensures subject.EmailText? && subject.email != "" ==>
      (r.Success? <==> subject.email in db) && (r.Success? ==> r.value == db[subject.email])
      && (r.Failure? ==> r.error == UserNotFoundMessage)
  {
    match subject
    case NoSubject => Failure(NoUserMessage)
    case Instance(u) => Success(u)
    case EmailText(e) =>
      if e == "" then Failure(NoUserMessage)
      else if e in db then Success(db[e]) else Failure(UserNotFoundMessage)
  }
}
