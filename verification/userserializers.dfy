/** The user serializers, FoundrCard/apps/users/serializers.py: address
    validation, which fields a profile exposes, and how a failed update is
    reported. */
module UserSerializers {
  import opened Wrappers
  import opened Text
  import UM = UserModel
  import GA = GoogleAuth
  import AV = AuthViews

  const InvalidEmailMessage := "Enter a valid email address."
  const EmailInUseMessage := "Email already in use."

  // ---------------------------------------------------------------------------
  // UserEmailSerializer.validate_email
  // ---------------------------------------------------------------------------

  /** `validate_email`: the input is lower-cased, then stripped (the same
      normalisation as the Google sign-in's); `users` are the stored users. */
  function ValidateEmail(value: string, users: seq<UM.User>): (r: Result<string, string>)
    ensures var n := GA.NormalizeEmail(value);
      (r.Success? <==> n != "" && '@' in n && forall k :: 0 <= k < |users| ==> users[k].email != n)
      && (r.Success? ==> r.value == n)
      && (r.Failure? ==> r.error == InvalidEmailMessage || r.error == EmailInUseMessage)
  {
    EmailVerdict(GA.NormalizeEmail(value), users)
  }

  /** The checks on the normalised address: it must be non-empty and contain
      an '@', and no stored address may equal it exactly; an accepted address
      is returned as normalised. */
  function EmailVerdict(normalized: string, users: seq<UM.User>): (r: Result<string, string>)
    ensures r.Success? <==>
      normalized != "" && '@' in normalized && forall k :: 0 <= k < |users| ==> users[k].email != normalized
    ensures r.Success? ==> r.value == normalized
    ensures r == Failure(InvalidEmailMessage) <==> normalized == "" || '@' !in normalized
    ensures r.Failure? && r.error != InvalidEmailMessage ==>
      r.error == EmailInUseMessage && exists k :: 0 <= k < |users| && users[k].email == normalized
  {
    if normalized == "" || '@' !in normalized then Failure(InvalidEmailMessage)
    else if exists k :: 0 <= k < |users| && users[k].email == normalized then Failure(EmailInUseMessage)
    else Success(normalized)
  }

  /** An accepted address is accepted again unchanged. */
  lemma ValidateEmailIdempotent(value: string, users: seq<UM.User>)
    requires ValidateEmail(value, users).Success?
    ensures ValidateEmail(ValidateEmail(value, users).value, users) == ValidateEmail(value, users)
  {
    GA.NormalizeEmailIdempotent(value);
  }

  /** For a lower-case address, "already in use" here implies "already
      registered" from the availability view, whose match ignores case; the
      converse fails, as `CaseOnlyDifferenceAccepted` shows. */
  lemma InUseIsRegistered(normalized: string, users: seq<UM.User>)
    requires Lower(normalized) == normalized
    requires EmailVerdict(normalized, users) == Failure(EmailInUseMessage)
    ensures !AV.EmailAnswer(normalized, users, false).available
  {
    var k :| 0 <= k < |users| && users[k].email == normalized;
    assert Lower(users[k].email) == normalized;
  }

  /** A stored "Ann@x.io" does not stop "ann@x.io" here, while the
      availability view reports it as registered. */
  lemma CaseOnlyDifferenceAccepted()
    ensures var users := [UM.User(Some(1), "Ann@x.io", "ann", "", "", None, None, None, true, false, false, false, None)];
      EmailVerdict("ann@x.io", users) == Success("ann@x.io")
      && !AV.EmailAnswer("ann@x.io", users, false).available
  {
    var users := [UM.User(Some(1), "Ann@x.io", "ann", "", "", None, None, None, true, false, false, false, None)];
    assert "Ann@x.io" != "ann@x.io" by { assert "Ann@x.io"[0] != "ann@x.io"[0]; }
    assert '@' in "ann@x.io" by { assert "ann@x.io"[3] == '@'; }
    assert Lower(users[0].email) == "ann@x.io";
  }

  // ---------------------------------------------------------------------------
  // Representations
  // ---------------------------------------------------------------------------

  /** The public profile: identity, names, picture and plan, plus the
      address only when the serializer's context asks for it. */
  datatype PublicProfile = PublicProfile(
    id: Option<int>,
    username: string,
    firstName: string,
    lastName: string,
    profilePictureUrl: Option<string>,
    isPremium: bool,
    email: Option<string>)

  /** `UserPublicProfileSerializer.to_representation`; `showEmail` is the
      truthiness of the context's `show_email` (false when absent). */
  function PublicRepresentation(u: UM.User, showEmail: bool): (r: PublicProfile)
    ensures r.email.Some? <==> showEmail
    ensures r.email.Some? ==> r.email.value == u.email
    ensures r.id == u.id && r.username == u.username && r.firstName == u.firstName && r.lastName == u.lastName
    ensures r.profilePictureUrl == u.profilePictureUrl && r.isPremium == u.isPremium
  {
    PublicProfile(u.id, u.username, u.firstName, u.lastName, u.profilePictureUrl, u.isPremium,
                  if showEmail then Some(u.email) else None)
  }

  /** Hiding the address is the only difference the context makes. */
  lemma ShowEmailOnlyAddsEmail(u: UM.User)
    ensures PublicRepresentation(u, true).(email := None) == PublicRepresentation(u, false)
    ensures PublicRepresentation(u, true).email == Some(u.email)
  {
  }

  /** The signed-in user's own details. */
  datatype Details = Details(
    id: Option<int>,
    username: string,
    email: string,
    firstName: string,
    lastName: string,
    profilePictureUrl: Option<string>,
    isPremium: bool,
    premiumExpiry: Option<int>,
    googleId: Option<string>,
    hasActivePremium: bool)

  /** `UserSerializer.to_representation` at time `now`: the stored fields and
      whether the premium plan is in force. */
  function FullRepresentation(u: UM.User, now: int): (r: Details)
    ensures r.hasActivePremium <==> u.isPremium && (u.premiumExpiry.None? || now < u.premiumExpiry.value)
    ensures r.isPremium == u.isPremium && r.premiumExpiry == u.premiumExpiry
    ensures r.id == u.id && r.username == u.username && r.email == u.email && r.googleId == u.googleId
    ensures r.firstName == u.firstName && r.lastName == u.lastName && r.profilePictureUrl == u.profilePictureUrl
  {
    Details(u.id, u.username, u.email, u.firstName, u.lastName, u.profilePictureUrl,
            u.isPremium, u.premiumExpiry, u.googleId, UM.HasActivePremium(u, now))
  }

  // ---------------------------------------------------------------------------
  // UserSerializer.Meta.fields
  // ---------------------------------------------------------------------------

  const UnableToSerializeMessage := "Unable to serialize user details."

  /** The names a `CustomUser` answers to: its model fields, those it
      inherits from the base user and permissions classes, and the primary
      key. */
  const ModelNames: set<string> := {
    "pk", "id", "password", "is_superuser", "groups", "user_permissions",
    "email", "username", "first_name", "last_name", "profile_picture", "profile_picture_url",
    "is_active", "is_staff", "is_premium", "premium_expiry", "google_id", "email_notifications",
    "date_joined", "last_login"}

  /** The names `UserSerializer.Meta.fields` adds to the base details
      serializer's, as written: two of them are not names of the model. */
  const DetailNamesAsWritten: seq<string> := [
    "username", "profile_picture", "profile_picture_url", "is_premium", "premium_expiry", "google_id",
    "stripe_customer_id", "subscription_tier", "date_joined", "last_login"]

  /** The same list without the two names the model lacks. */
  const DetailNames: seq<string> := [
    "username", "profile_picture", "profile_picture_url", "is_premium", "premium_expiry", "google_id",
    "date_joined", "last_login"]

  /** Building a model serializer's fields: it fails, naming the field, at
      the first declared name the model does not have. */
  function BuildFields(names: seq<string>): (r: Result<(), string>)
    ensures r.Success? <==> forall k :: 0 <= k < |names| ==> names[k] in ModelNames
    ensures r.Failure? ==> r.error in names && r.error !in ModelNames
  {
    if names == [] then Success(())
    else if names[0] !in ModelNames then Failure(names[0])
    else BuildFields(names[1..])
  }

  /** `UserSerializer.to_representation` over a declared field list: the
      field construction inside `super().to_representation` runs first, and
      its failure is caught and reported as the generic serialization error. */
  function RepresentWith(names: seq<string>, u: UM.User, now: int): (r: Result<Details, string>)
    ensures r.Failure? <==> BuildFields(names).Failure?
    ensures r.Failure? ==> r.error == UnableToSerializeMessage
    ensures r.Success? ==> r.value == FullRepresentation(u, now)
  {
    if BuildFields(names).Failure? then Failure(UnableToSerializeMessage) else Success(FullRepresentation(u, now))
  }

  /** As written, no user's details can be serialized: "stripe_customer_id"
      is not a name of the model. */
  lemma AsWrittenDetailsNeverSerialize(u: UM.User, now: int)
    ensures RepresentWith(DetailNamesAsWritten, u, now) == Failure(UnableToSerializeMessage)
    ensures BuildFields(DetailNamesAsWritten) == Failure("stripe_customer_id")
  {
    assert DetailNamesAsWritten[6] == "stripe_customer_id";
    assert "stripe_customer_id" !in ModelNames;
    assert forall k :: 0 <= k < 6 ==> DetailNamesAsWritten[k] in ModelNames;
    BuildFieldsPrefix(DetailNamesAsWritten, 6);
  }

  /** Fields that the model all has are skipped over by the builder. */
  lemma {:induction false} BuildFieldsPrefix(names: seq<string>, i: nat)
    requires i <= |names|
    requires forall k :: 0 <= k < i ==> names[k] in ModelNames
    ensures BuildFields(names) == BuildFields(names[i..])
    decreases i
  {
    if i > 0 {
      assert names[1..][i - 1..] == names[i..];
      BuildFieldsPrefix(names[1..], i - 1);
    }
  }

  /** Without the two unknown names, every user's details are the full
      representation. */
  lemma CorrectedDetailsSerialize(u: UM.User, now: int)
    ensures RepresentWith(DetailNames, u, now) == Success(FullRepresentation(u, now))
  {
    assert forall k :: 0 <= k < |DetailNames| ==> DetailNames[k] in ModelNames;
  }

  /** The message `UserProfileView.update` answers with, status 400, when the
      generic update raises anything. */
  const ProfileUpdateFailedMessage := "Failed to update profile. Please try again."

  /** How the profile view answers a PATCH: refused with a status and its own
      message, or the updated user, whose details form the body. */
  datatype PatchOutcome = Refused(status: int, error: string) | Updated(user: UM.User)

  /** A PATCH through `UserProfileView.update`, which wraps the generic update
      in a catch-all. Validation builds the fields first, and `update`'s
      errors are Django validation errors; the catch-all turns either into a
      400 with the view's own message, so the serializer's messages never
      reach the client. */
  function PatchWith(names: seq<string>, u: UM.User, p: Patch, failure: Option<SaveFailure>): (r: PatchOutcome)
    ensures r.Refused? <==> BuildFields(names).Failure? || failure.Some?
    ensures r.Refused? ==> r.status == 400 && r.error == ProfileUpdateFailedMessage
    ensures r.Updated? ==> Update(u, p, failure) == Success(r.user)
  {
    if BuildFields(names).Failure? then Refused(400, ProfileUpdateFailedMessage)
    else match Update(u, p, failure)
      case Success(v) => Updated(v)
      case Failure(_) => Refused(400, ProfileUpdateFailedMessage)
  }

  /** As written, every PATCH is refused with 400 before `update` runs;
      corrected, a PATCH whose save succeeds answers the updated user. */
  lemma AsWrittenPatchNeverUpdates(u: UM.User, p: Patch, failure: Option<SaveFailure>)
    ensures PatchWith(DetailNamesAsWritten, u, p, failure) == Refused(400, ProfileUpdateFailedMessage)
    ensures failure.None? ==> PatchWith(DetailNames, u, p, failure) == Updated(Update(u, p, failure).value)
  {
    AsWrittenDetailsNeverSerialize(u, 0);
    CorrectedDetailsSerialize(u, 0);
  }

  /** Even with buildable fields, a username clash reaches the client only as
      the view's generic message, not as the serializer's username error. */
  lemma ViewHidesTakenUsername(u: UM.User, p: Patch, text: string)
    requires Contains(text, "username")
    ensures Update(u, p, Some(IntegrityError(text))) == Failure(FieldError("username", UsernameTakenMessage))
    ensures PatchWith(DetailNames, u, p, Some(IntegrityError(text))) == Refused(400, ProfileUpdateFailedMessage)
  {
    CorrectedDetailsSerialize(u, 0);
  }

  /** Requested later, the details never show a plan that was not in force
      earlier. */
  lemma PremiumFlagLapses(u: UM.User, now: int, later: int)
    requires now <= later
    ensures FullRepresentation(u, later).hasActivePremium ==> FullRepresentation(u, now).hasActivePremium
  {
    UM.PremiumLapses(u, now, later);
  }

  // ---------------------------------------------------------------------------
  // UserSerializer.update
  // ---------------------------------------------------------------------------

  const UsernameTakenMessage := "This username is already taken. Please choose a different one."
  const DatabaseErrorMessage := "A database error occurred while updating your profile."
  const UnexpectedErrorMessage := "An unexpected error occurred while updating your profile."

  /** The writable fields of a partial update; every other field of the
      serializer is read-only, and the rest of the user is not exposed. */
  datatype Patch = Patch(username: Option<string>, firstName: Option<string>, lastName: Option<string>,
                         profilePictureUrl: Option<Option<string>>)

  /** How the save can fail: an integrity error with its text, or anything
      else. */
  datatype SaveFailure = IntegrityError(text: string) | OtherError(text: string)

  /** The validation error raised instead: one for the username field, or a
      general one. */
  datatype UpdateError = FieldError(field: string, message: string) | GeneralError(message: string)

  /** The `except` clauses of `update`. */
  function ReportFailure(f: SaveFailure): (e: UpdateError)
    ensures e.FieldError? <==> f.IntegrityError? && Contains(f.text, "username")
    ensures e.FieldError? ==> e == FieldError("username", UsernameTakenMessage)
    ensures e.GeneralError? ==> e.message == (if f.IntegrityError? then DatabaseErrorMessage else UnexpectedErrorMessage)
  {
    match f
    case IntegrityError(text) =>
      if Contains(text, "username") then FieldError("username", UsernameTakenMessage) else GeneralError(DatabaseErrorMessage)
    case OtherError(_) => GeneralError(UnexpectedErrorMessage)
  }

  function Apply(u: UM.User, p: Patch): UM.User {
    u.(username := if p.username.Some? then p.username.value else u.username,
       firstName := if p.firstName.Some? then p.firstName.value else u.firstName,
       lastName := if p.lastName.Some? then p.lastName.value else u.lastName,
       profilePictureUrl := if p.profilePictureUrl.Some? then p.profilePictureUrl.value else u.profilePictureUrl)
  }

  /** `update`: the patch applied to the stored user, or, when the save
      fails (`failure`), the error it is reported as. */
  function Update(u: UM.User, p: Patch, failure: Option<SaveFailure>): (r: Result<UM.User, UpdateError>)
    ensures r.Failure? <==> failure.Some?
    ensures r.Failure? ==> r.error == ReportFailure(failure.value)
    ensures r.Success? ==>
      && r.value.email == u.email && r.value.id == u.id && r.value.isActive == u.isActive
      && r.value.isStaff == u.isStaff && r.value.isSuperuser == u.isSuperuser
      && r.value.isPremium == u.isPremium && r.value.premiumExpiry == u.premiumExpiry
      && r.value.googleId == u.googleId && r.value.password == u.password
    ensures r.Success? ==> r.value.username == (if p.username.Some? then p.username.value else u.username)
    ensures r.Success? ==> r.value.firstName == (if p.firstName.Some? then p.firstName.value else u.firstName)
    ensures r.Success? ==> r.value.lastName == (if p.lastName.Some? then p.lastName.value else u.lastName)
    ensures r.Success? ==>
      r.value.profilePictureUrl == (if p.profilePictureUrl.Some? then p.profilePictureUrl.value else u.profilePictureUrl)
  {
    if failure.Some? then Failure(ReportFailure(failure.value)) else Success(Apply(u, p))
  }

  /** An empty patch changes nothing, and applying the same patch twice is
      applying it once. */
  lemma UpdateIdempotent(u: UM.User, p: Patch)
    ensures Update(u, Patch(None, None, None, None), None) == Success(u)
    ensures Update(u, p, None).Success? && Update(Update(u, p, None).value, p, None) == Update(u, p, None)
  {
  }
}
