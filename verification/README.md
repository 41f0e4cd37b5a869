# FoundrCard — a Dafny model of the sign-in core and card logic

FoundrCard lets a founder publish a digital business card: a profile,
social links and a list of custom links, shared under a slug. This project
models the part of it that decides who is signed in and what a card shows.

- **Front end (React).**
  - The credential store in `localStorage` (`Credentials`).
  - The axios gateway that attaches the Bearer token, refreshes an expired
    token once and parks concurrent 401s until the refresh settles (`Gateway`).
  - The sign-in, registration, Google and logout services (`Session`).
  - The URL and form helpers: `UrlParams`, `Usernames`, `FormValidation`, and
    URI component encoding (`Uri`).
  - The colour contrast rules (`Colors`).
  - The card editor and card view (`CardEditor`, `CardView`).
  - The profile, onboarding, login and logout pages, as state machines
    (`ProfilePage`, `Onboarding`, `LoginPage`, `LogoutPage`).
- **Back end (Django).**
  - The user manager and model (`UserModel`).
  - The Google token checks and get-or-create (`GoogleAuth`).
  - The sign-in, profile and availability views (`AuthViews`).
  - The user serializers (`UserSerializers`) and admin actions (`UserAdmin`).
  - The card models (`CardModels`).

**How things are modelled.**
- Every operation is a pure function over immutable datatypes.
- Storage (browser storage, the database, the cache) is a value that is
  passed in and returned.
- Whatever the program receives from outside becomes a parameter: a
  network reply, a library verdict, a random draw, the current time.
- Promises are events that the page or gateway state machine steps on.
- `Text` and `Wrappers` hold shared string helpers and `Option`/`Result`.

## Model

| member | source | states |
|---|---|---|
| Credentials.GetItem | Frontend/src/utils/auth.ts:8-14 | A read is null exactly when the key was never stored; otherwise it is the stored text, even if empty |
| Credentials.GetAccessToken | Frontend/src/utils/auth.ts:8-10 | The access token reads as null iff none is stored, and as the stored text otherwise |
| Credentials.GetRefreshToken | Frontend/src/utils/auth.ts:12-14 | The refresh token reads as null iff none is stored, and as the stored text otherwise |
| Credentials.ClearAuthTokens | Frontend/src/utils/auth.ts:16-20 | Signing out removes the access token, refresh token and user entries and keeps every other key with its value |
| Credentials.StoreAuthTokens | Frontend/src/utils/auth.ts:22-25 | Both tokens read back as given; the user entry and every other key are unchanged; only the two token keys can be added |
| Credentials.StoreUserData | Frontend/src/utils/auth.ts:38-40 | The user record reads back as stored and no other key changes |
| Credentials.CheckAuth | Frontend/src/utils/auth.ts:27-36 | Authenticated iff all three entries exist, empty ones included; a user is reported iff its entry is non-empty |
| Credentials.SignInThenOut | Frontend/src/utils/auth.ts:22-40 | After storing tokens and a user record the store reports that user as signed in; after clearing it reports signed out with no user |
| Credentials.ClearForgetsTokens | Frontend/src/utils/auth.ts:16-25 | Clearing after storing tokens is the same as clearing without storing them, and clearing twice is clearing once |
| Gateway.Outbound | Frontend/src/utils/api.ts:44-63 | A request without a URL is refused; otherwise purpose, URL and retry mark are kept; a Bearer header is added iff a truthy access token is stored, and the request is unchanged otherwise |
| Gateway.Send | Frontend/src/utils/api.ts:44-63 | A request is dispatched exactly when it has a URL, and rejected as missing its URL otherwise |
| Gateway.RefreshRequest | Frontend/src/services/api.service.ts:5-9 | The refresh call is marked as the refresh, not yet retried, and has a URL |
| Gateway.RefreshRequestTargetsRefresh | Frontend/src/constants/api.routes.ts:5 | The refresh route contains "token/refresh", so the gateway recognises its own refresh call |
| Gateway.ProcessQueue | Frontend/src/utils/api.ts:28-43 | Produces one effect per parked request, in queue order: each is rejected with the error if there is one, replayed with the new Bearer token if that token is truthy, and rejected otherwise |
| Gateway.Intercept | Frontend/src/utils/api.ts:71-124 | A success resolves. A 401 on a URL outside the refresh route clears the credentials and navigates to the login page. A reply waits iff it is a first 401 on the refresh route; then it is parked behind a refresh in flight, or starts one. Every other failure is rejected with its status, and the refresh state is untouched |
| Gateway.Settle | Frontend/src/utils/api.ts:120-122 | Settling a refresh always clears the refreshing flag |
| Gateway.StepPreservesValid | Frontend/src/utils/api.ts:71-124 | One gateway step keeps the invariant that every held request, the one awaiting the refresh and the parked ones, has used its retry and targets the refresh route |
| Gateway.RunPreservesValid | Frontend/src/utils/api.ts:71-124 | The same invariant holds after any sequence of events |
| Gateway.PlainUnauthorizedSignsOut | Frontend/src/utils/api.ts:64-81 | A 401 on any URL outside the refresh route clears the credentials, sends the browser to the login page with the current path, and rejects the request |
| Gateway.OtherOutcomesPassThrough | Frontend/src/utils/api.ts:72-88 | A success, a non-401 failure, or a retried 401 on the refresh route reaches the caller unchanged, and the gateway state is kept |
| Gateway.FirstUnauthorizedStartsRefresh | Frontend/src/utils/api.ts:90-101 | A first 401 on the refresh route with no refresh in flight marks the request retried, holds it, and issues exactly one refresh call |
| Gateway.UnauthorizedWhileRefreshingIsParked | Frontend/src/utils/api.ts:90-96 | A first 401 on the refresh route that arrives while a refresh is in flight joins the end of the queue, and nothing is sent |
| Gateway.RefreshCallUnauthorizedIsParked | Frontend/src/utils/api.ts:75-96 | A 401 on the refresh call itself is parked behind the refresh that waits for it, so that refresh never settles |
| Gateway.RefreshSuccessReplays | Frontend/src/utils/api.ts:100-112 | A refresh that returns a token stores the new tokens, then replays every parked request in order, then the original, all with the new token |
| Gateway.RefreshWithoutTokenRejectsOriginal | Frontend/src/utils/api.ts:100-122 | A refresh reply with an error or without a usable token rejects only the original request and leaves the parked ones waiting; an error reply leaves the store as it was |
| Gateway.RefreshFailureLeavesQueue | Frontend/src/utils/api.ts:113-122 | A refresh call that fails with anything but a 401 rejects the original request only; the queue and the store are kept |
| Gateway.StepStartsNoRefreshWhileRefreshing | Frontend/src/utils/api.ts:92-98 | While a refresh is in flight, no caller's request or reply issues another refresh call, and the awaited request stays the same |
| Gateway.NoSecondRefresh | Frontend/src/utils/api.ts:92-98 | Over any run of caller events during a refresh, no second refresh call is issued |
| Gateway.SignOutSearch | Frontend/src/utils/api.ts:64-69 | The sign-out link's query is one redirect parameter carrying the encoded current path |
| Gateway.SignOutRedirectsBack | Frontend/src/utils/api.ts:66-68 | Reading the redirect parameter back from the sign-out link gives the current path exactly |
| Uri.EncodeUriComponent | Frontend/src/utils/api.ts:66-68 | The encoding uses only the unescaped set and percent escapes, and is never shorter than its input |
| Uri.EncodeDecodeRoundTrip | Frontend/src/utils/api.ts:66-68 | Decoding the encoding of any string gives the string back |
| Uri.SingleParamRoundTrip | Frontend/src/pages/auth/Login.tsx:31 | Reading a parameter out of a query built from an encoded value gives the value back |
| Text.Split | Frontend/src/pages/auth/Profile.tsx:67-70 | There is at least one piece, no piece contains the separator, and joining the pieces with the separator gives the text back |
| Text.SplitJoin | Frontend/src/pages/auth/Profile.tsx:67-70 | Splitting the join of separator-free pieces gives the pieces back |
| Text.LowerIdempotent | FoundrCard/apps/auth/views.py:337 | Lower-casing twice is lower-casing once |
| Text.NatToString | Frontend/src/utils/username.ts:3 | The text is non-empty digits whose decimal value is the number, with no leading zero except for zero itself |
| Session.SignIn | Frontend/src/services/auth/login.service.ts:10-19 | A refused post reaches the service with the store as the gateway left it: cleared for a 401, unchanged otherwise. An error reply leaves the store unchanged and is reported as a server error. Sign-in succeeds iff the post succeeded without error and the user fetch succeeded; then the tokens and user are stored. A failed fetch leaves the tokens stored, unless it was a 401, which clears them |
| Session.SignInAuthenticates | Frontend/src/services/auth/login.service.ts:11-18 | A successful sign-in with a non-empty user record leaves the browser authenticated as that user. A 401 on the post or the user fetch leaves it signed out. Any other refusal of the post, or an error reply, leaves the store as it was |
| Session.ServiceUrlOutsideRefresh | Frontend/src/constants/api.routes.ts:2-8 | None of the sign-in, user, registration, logout, Google or username-check routes contains "token/refresh" |
| Session.ServiceCallThroughGateway | Frontend/src/utils/api.ts:64-88 | For a failed call to any service route, the gateway changes only the store, as the services assume. A 401 clears the credentials, navigates to the sign-in page with the current path, then rejects. Any other status is rejected with the state untouched |
| Session.RegisterPayload | Frontend/src/services/auth/register.service.ts:10-14 | The form's password and confirmation are sent as password1 and password2, and the address as is |
| Session.RegisterUser | Frontend/src/services/auth/register.service.ts:7-22 | The form is posted with its passwords renamed, and the reply is then handled exactly as a sign-in reply: an error is thrown, otherwise tokens and user are stored |
| Session.GoogleSuccess | Frontend/src/services/auth/google.service.ts:9-28 | Credentials are cleared first; a refused call leaves them cleared, a 401 included. A reply's tokens are stored whatever the reply says, and the user is navigated only on success |
| Session.GoogleErrorStoresUndefined | Frontend/src/services/auth/google.service.ts:16-21 | An error reply without tokens leaves the text "undefined" stored as both tokens, so the next request carries "Bearer undefined" |
| Session.GoogleSuccessChecked | Frontend/src/services/auth/google.service.ts:9-28 | With the error check before the store, only a successful reply's tokens are stored |
| Session.CheckedGoogleErrorStoresNothing | Frontend/src/services/auth/google.service.ts:16-22 | With the check first, an error reply leaves no token stored and sends no Bearer header |
| Session.Logout | Frontend/src/services/auth/logout.service.ts:7-19 | The stored refresh token is sent, and true is returned iff the call succeeded. Success clears the credentials, and so does a 401, through the gateway. Any other failure leaves the store unchanged |
| Session.LogoutSignsOut | Frontend/src/services/auth/logout.service.ts:9-14 | After a successful logout, or one refused with 401, the browser is not authenticated, no user is reported, and neither token can be read |
| UrlParams.Substitution | Frontend/src/utils/url.ts:4 | The replacement text, with its "$" patterns expanded, is exactly the value when the value has no "$" |
| UrlParams.ReplaceOnce | Frontend/src/utils/url.ts:4 | The text before the first occurrence of the placeholder is kept, and a text without the placeholder is returned as is |
| UrlParams.ReplaceOnceLiteral | Frontend/src/utils/url.ts:4 | With a "$"-free value, the first placeholder is replaced by the value and the text around it is kept |
| UrlParams.ReplaceUrlParams | Frontend/src/utils/url.ts:1-6 | With no parameters the URL is returned unchanged |
| UrlParams.ApplyOne | Frontend/src/utils/url.ts:3-5 | A new last entry replaces the first occurrence of its placeholder, keeping the text around it, or changes nothing if the placeholder is absent |
| UrlParams.UnmatchedLeaveUrl | Frontend/src/utils/url.ts:1-6 | Parameters whose placeholders do not occur leave the URL as it is |
| UrlParams.SubstituteInPlace | Frontend/src/utils/url.ts:1-6 | A route with one placeholder gets the value in the placeholder's place, the rest kept |
| UrlParams.LaterEntrySeesEarlierValue | Frontend/src/utils/url.ts:3-5 | An earlier value that contains a later placeholder is itself substituted, so order matters |
| Usernames.ValidateUsernameFormat | Frontend/src/utils/username.ts:6-12 | A blank name is required, one under 3 code units is too short, and otherwise a name is refused iff it has a character other than a letter, digit or underscore |
| Usernames.WellFormedIffWordChars | Frontend/src/utils/username.ts:6-12 | The format check accepts exactly the names of at least 3 characters made only of letters, digits and underscores |
| Usernames.RandomSuffix | Frontend/src/utils/username.ts:2 | The suffix is a four-digit number from 1000 to 9999 |
| Usernames.GenerateRandomUsername | Frontend/src/utils/username.ts:1-4 | The generated name is the base followed by four decimal digits, not starting with 0 |
| Usernames.GeneratedIsWellFormed | Frontend/src/utils/username.ts:1-12 | A name generated from a base of letters, digits and underscores, even an empty one, passes the format check |
| FormValidation.ValidatePasswordStrength | Frontend/src/utils/validate-form.ts:55-69 | The score is five minus the number of failed checks; the feedback holds exactly the failed checks' messages, without repeats; the password is valid iff the score is at least 4 |
| FormValidation.FailedFrom | Frontend/src/utils/validate-form.ts:58-60 | The checks from a given position on that fail, each once, in check order |
| FormValidation.ValidIffAtMostOneFailure | Frontend/src/utils/validate-form.ts:62-67 | A password is valid iff at most one of the five checks fails |
| FormValidation.FeedbackInCheckOrder | Frontend/src/utils/validate-form.ts:38-60 | Feedback messages appear in the order the checks are made |
| FormValidation.MessageInjective | Frontend/src/utils/validate-form.ts:38-53 | Distinct checks have distinct messages, so the feedback identifies the failed checks |
| FormValidation.MatchesEmailIffPattern | Frontend/src/utils/validate-form.ts:71 | The address matcher accepts exactly text of the form local@domain.tld with no white space or extra '@' in any part |
| FormValidation.EmailError | Frontend/src/utils/validate-form.ts:80-92 | Empty and malformed addresses get their messages; a well-formed one is refused iff the availability answer is literally false |
| FormValidation.PasswordError | Frontend/src/utils/validate-form.ts:94-100 | An empty password is required, a weak one does not meet the requirements, and a strong one has no error |
| FormValidation.ConfirmError | Frontend/src/utils/validate-form.ts:102-108 | The confirmation is an error iff it is empty or differs from the password |
| FormValidation.ValidateForm | Frontend/src/utils/validate-form.ts:73-113 | The form is valid iff no field has an error, and each field's error is the one its own rule gives: the email error for the address and its availability answer, the password error for the strength, the confirmation error for the pair. A failed availability request for a well-formed address makes the whole check fail |
| FormValidation.AvailabilityOnlyForWellFormed | Frontend/src/utils/validate-form.ts:80-92 | For an address that is not well formed the availability answer makes no difference |
| FormValidation.RegistrationAccepted | Frontend/src/utils/validate-form.ts:73-113 | A registration is accepted iff the address is well formed and not taken, the password fails at most one check, and the confirmation matches |
| FormValidation.ValidateLoginForm | Frontend/src/utils/validate-form.ts:11-36 | The login form is valid iff the address is accepted and the password has at least 8 code units; each failing field gets its message |
| FormValidation.StrengthDisplay | Frontend/src/utils/validate-form.ts:125-139 | Nothing is shown for an empty password; otherwise the score's colour and label, grey and unlabelled at 0, and 20% width per point |
| FormValidation.FullScoreDisplay | Frontend/src/utils/validate-form.ts:125-139 | A score of 5 shows a full-width bar |
| FormValidation.StrongPasswordDisplay | Frontend/src/utils/validate-form.ts:125-139 | A password passing every check shows the strongest colour and label at full width |
| Colors.ParseIntHex | Frontend/src/utils/color.ts:4 | Parsing gives NaN exactly when no hex digit follows the optional white space, sign and 0x prefix |
| Colors.AstralUnparsable | Frontend/src/utils/color.ts:4 | Text that starts with a character outside the Basic Multilingual Plane, or with one of its surrogate halves, parses as NaN |
| Colors.DropFirstUnit | Frontend/src/utils/color.ts:3 | `substring(1)` drops one UTF-16 code unit: a whole character inside the Basic Multilingual Plane, and only the first surrogate half of one outside it |
| Colors.IsDarkColor | Frontend/src/utils/color.ts:1-10 | The first code unit is dropped unread, so a colour with nothing after it reads as black and is dark. After a first character in the Basic Multilingual Plane the rest's code units are parsed; after one outside it the leftover surrogate half parses as nothing and the colour is dark |
| Colors.ParseHexDigits | Frontend/src/utils/color.ts:4 | Hex digit text is parsed to its positional value |
| Colors.ToInt32 | Frontend/src/utils/color.ts:5-7 | The bitwise conversion wraps to the signed 32-bit range and keeps the low 32 bits |
| Colors.Channels | Frontend/src/utils/color.ts:5-7 | Every channel is a byte, whatever the parsed value, NaN included |
| Colors.TextColor | Frontend/src/utils/color.ts:12-17 | The text is white iff the background is dark, and black otherwise |
| Colors.ChannelsOfSixDigits | Frontend/src/utils/color.ts:3-7 | For "#rrggbb" the channels are the three hex pairs |
| Colors.DarkSixDigits | Frontend/src/utils/color.ts:1-10 | A six-digit colour is dark (white text) iff its luminance is below one half, or its first character lies outside the Basic Multilingual Plane |
| Colors.UnparsableIsDark | Frontend/src/utils/color.ts:3-9 | A colour whose code units after the first parse as NaN reads as black and gets white text |
| Colors.AstralFirstIsDark | Frontend/src/utils/color.ts:3-9 | An emoji followed by "ffffff" is dark, although "#ffffff" is not |
| Colors.ContrastingTextColor | Frontend/src/pages/CreateCard.tsx:30-43 | The editor picks white text iff a background is given and dark, and dark grey otherwise |
| Colors.PreviewAgreesWithTextColor | Frontend/src/pages/CreateCard.tsx:30-43 | For every given background the editor and the shared helper agree on white text; for an empty one they differ |
| Colors.DoubleEach | Frontend/src/pages/Card.tsx:45 | Each shorthand digit is written twice, in order |
| Colors.ContrastColor | Frontend/src/pages/Card.tsx:42-51 | The card page picks black text iff a colour is given, its three pairs of code units after the first parse, and its luminance passes the threshold; white otherwise, and always white after a first character outside the Basic Multilingual Plane |
| Colors.ContrastSixDigits | Frontend/src/pages/Card.tsx:42-51 | A six-digit colour gets black text iff its first character is in the Basic Multilingual Plane and the threshold holds for its three hex pairs |
| Colors.ShorthandExpands | Frontend/src/pages/Card.tsx:44-45 | A three-digit colour is treated as its doubled six-digit form |
| Colors.AstralDigitShiftsPairs | Frontend/src/pages/Card.tsx:44-48 | An astral character among the digits takes two code units and shifts the pairs: "#f", an emoji and "ffff" get white text, where "#f", any hex digit and "ffff" get black |
| CardEditor.HandleChange | Frontend/src/pages/CreateCard.tsx:236-242 | Only the named field changes, to the new value |
| CardEditor.ChangeIdempotent | Frontend/src/pages/CreateCard.tsx:236-242 | Setting a field twice to the same value is setting it once, and the last write wins |
| CardEditor.HandleLinkChange | Frontend/src/pages/CreateCard.tsx:244-248 | An index outside the list is refused; otherwise only the indexed link changes, in the named field, and the card's own fields are kept |
| CardEditor.AddLink | Frontend/src/pages/CreateCard.tsx:250-264 | One link is appended with the generated id, empty title and URL, not featured, and position equal to the number of earlier links; everything else is kept |
| CardEditor.RemoveLink | Frontend/src/pages/CreateCard.tsx:266-271 | A link remains iff it was present and has a different id; the card's own fields are kept |
| CardEditor.RemoveIdMembers | Frontend/src/pages/CreateCard.tsx:269 | A link survives removal iff it was present and has a different id |
| CardEditor.RemoveIdAppend | Frontend/src/pages/CreateCard.tsx:269 | Removal distributes over concatenation |
| CardEditor.RemoveAbsentId | Frontend/src/pages/CreateCard.tsx:269 | Removing an id no link has changes nothing |
| CardEditor.RemoveUndoesAdd | Frontend/src/pages/CreateCard.tsx:250-271 | Removing a link just added, with a fresh id, restores the previous links |
| CardEditor.SortByOrder | Frontend/src/pages/CreateCard.tsx:68 | The result is ordered by position and is a permutation of the input |
| CardEditor.SortByOrderStable | Frontend/src/pages/CreateCard.tsx:68 | Links with equal positions keep their relative order |
| CardEditor.AllLinks | Frontend/src/pages/CreateCard.tsx:52-68 | The preview list is ordered by position and is a permutation of the custom links plus the startup entry when a startup link is set |
| CardEditor.StartupEntry | Frontend/src/pages/CreateCard.tsx:52-66 | The startup entry points at the startup link, is featured, is ordered at -1, ahead of every added link, and its icon is the text the preview draws as the lightning glyph |
| CardEditor.PreviewIcon | Frontend/src/pages/CreateCard.tsx:173-179 | The lightning glyph is drawn iff the icon is the startup icon text; any other non-empty icon is drawn as an image of that source; otherwise the default glyph |
| CardEditor.AllLinksStable | Frontend/src/pages/CreateCard.tsx:52-68 | For every position other than the startup entry's, the custom links with that position appear in the preview in their original order |
| CardEditor.StartupLinkFirst | Frontend/src/pages/CreateCard.tsx:52-68 | The startup entry is listed iff a startup link is set, and with non-negative custom positions it comes first |
| CardEditor.SocialUrl | Frontend/src/pages/CreateCard.tsx:45-50 | The mail entry exists iff an address is given, and is then its mailto link; the other networks always have an entry |
| CardEditor.RenderedSocials | Frontend/src/pages/CreateCard.tsx:129-143 | A network's icon appears iff its URL is present and non-empty, and each icon links to that URL |
| CardEditor.TruthyMembers | Frontend/src/pages/CreateCard.tsx:129-143 | A network is kept iff it was listed and its URL is truthy |
| CardEditor.LinkBackground | Frontend/src/pages/CreateCard.tsx:156 | A link uses its own non-empty colour, and light grey otherwise |
| CardEditor.LinkTextColor | Frontend/src/pages/CreateCard.tsx:155-160 | A link's text is white iff its background is dark, and dark grey otherwise |
| CardEditor.DefaultLinksGetDarkText | Frontend/src/pages/CreateCard.tsx:155-160 | An uncoloured link and the startup entry get dark grey text |
| CardView.AvatarBackground | Frontend/src/pages/Card.tsx:150-153 | A solid style paints the avatar in the primary colour; any other style uses the primary-to-secondary gradient |
| CardView.AvatarTextColor | Frontend/src/pages/Card.tsx:154 | The avatar's text is black or white, and white when no primary colour is set |
| CardView.SocialEntries | Frontend/src/pages/Card.tsx:122-127 | The four networks come in a fixed order, and without social data none has a URL |
| CardView.SocialIcons | Frontend/src/pages/Card.tsx:182-194 | An icon with a URL is rendered iff that network's entry has that URL and it is non-empty |
| CardView.SocialIconsNeedUrls | Frontend/src/pages/Card.tsx:182-194 | A profile without social data renders no icons, and an empty address renders no e-mail icon |
| CardView.PresentLink | Frontend/src/pages/Card.tsx:197-234 | Every link card is the dark grey with its grey border and white caption. Its icon box carries the profile's primary-to-secondary gradient with a white glyph. The icon is the link's own, else the default. The caption is non-empty: the title when there is one. The description line appears iff the description is non-empty. A click opens the link's URL |
| CardView.PresentLinks | Frontend/src/pages/Card.tsx:199 | Every link is presented, in order |
| CardView.CustomColorNotDrawn | Frontend/src/pages/Card.tsx:197-234 | A link's custom colour changes nothing that is drawn; links agreeing in title, URL, description and icon are drawn alike |
| CardView.IconBoxMatchesAvatar | Frontend/src/pages/Card.tsx:147-220 | Icon boxes show the avatar's gradient when the avatar is not solid; with a solid avatar they still show the gradient while the avatar shows the primary colour alone |
| CardView.UntitledFallback | Frontend/src/pages/Card.tsx:227 | An empty title shows as "Untitled Link" |
| ProfilePage.Loaded | Frontend/src/pages/auth/Profile.tsx:29-33 | Loading keeps the user and fills the username and e-mail fields from it, and the name field with the first name, a space and the last name; both names can be read back from the field |
| ProfilePage.FullName | Frontend/src/pages/auth/Profile.tsx:51-52 | The displayed name is the trimmed first and last names, or the username when both are blank |
| ProfilePage.AvatarInitial | Frontend/src/pages/auth/Profile.tsx:97-99 | The initial is the first code unit of the displayed name, upper-cased, and empty iff that name is empty; a first character outside the Basic Multilingual Plane contributes only its high surrogate, which no case mapping changes |
| ProfilePage.SplitName | Frontend/src/pages/auth/Profile.tsx:67-70 | Neither name contains a space, the first name is a prefix of the field, and a field without spaces is all first name |
| ProfilePage.HandleSave | Frontend/src/pages/auth/Profile.tsx:62-74 | With a loaded user the names come from the split name field and the username and e-mail from their fields, picture and join date kept; without a user nothing changes |
| ProfilePage.SplitNameOfPieces | Frontend/src/pages/auth/Profile.tsx:67-70 | Splitting space-joined pieces gives back the first two |
| ProfilePage.LoadThenSave | Frontend/src/pages/auth/Profile.tsx:29-74 | For names without spaces, saving right after loading gives the same user back |
| ProfilePage.ThirdWordDropped | Frontend/src/pages/auth/Profile.tsx:67-70 | A three-word name loses its third word on save |
| ProfilePage.SavedFullName | Frontend/src/pages/auth/Profile.tsx:51-74 | For names without spaces, the full name after save is the name as typed |
| Onboarding.CheckUsernameAsWritten | Frontend/src/services/auth/user.ts:4-11 | As written, the service resolves to the reply's message text, not the availability object |
| Onboarding.CheckUsername | Frontend/src/services/auth/user.ts:4-11 | Corrected, the service resolves to the reply's body, carrying the server's availability flag |
| Onboarding.AvailableOf | Frontend/src/pages/auth/Onboarding.tsx:45 | A text value reads as undefined availability, and a body as its availability flag |
| Onboarding.HandleCheckUsername | Frontend/src/pages/auth/Onboarding.tsx:36-43 | A request is sent iff the name is well formed; a malformed name shows its format error, a well-formed one starts checking; nothing navigates |
| Onboarding.CheckSettled | Frontend/src/pages/auth/Onboarding.tsx:44-56 | Checking ends and the name is kept. A failed request shows the check-failed message. Otherwise availability is what the service resolved to, and the error is empty iff that is truthy and the taken message if not |
| Onboarding.HandleSubmit | Frontend/src/pages/auth/Onboarding.tsx:66-85 | A name known to be taken shows the choose-another message and goes nowhere; otherwise the page navigates to the destination with confetti |
| Onboarding.Step | Frontend/src/pages/auth/Onboarding.tsx:36-85 | Editing sets the name and forgets availability without a request; generating yields a well-formed name with no error; the page navigates only when the enabled claim button is pressed, or to the sign-in page when the outstanding check is refused with 401 |
| Onboarding.FormatErrorSendsNothing | Frontend/src/pages/auth/Onboarding.tsx:37-41 | A malformed name never reaches the server |
| Onboarding.AsWrittenAlwaysTaken | Frontend/src/pages/auth/Onboarding.tsx:45-51 | As written, every name is shown as taken, whatever the server answers |
| Onboarding.AsWrittenNeverClaims | Frontend/src/pages/auth/Onboarding.tsx:45-51 | As written, no sequence of checks makes the claim button usable or reaches the dashboard; the only navigation left is the sign-in page after a 401 |
| Onboarding.AsWrittenStepNeverClaims | Frontend/src/pages/auth/Onboarding.tsx:44-56 | As written, a single event never makes the answer truthy, and it navigates nowhere or to the sign-in page |
| Onboarding.CheckFailureShowsMessage | Frontend/src/pages/auth/Onboarding.tsx:44-56 | A refused check shows the check-failed message and ends checking; with a 401 the page also goes to the sign-in page, whose redirect reads back "/onboarding", and with any other status it goes nowhere |
| Onboarding.CheckUnauthorizedSignsOut | Frontend/src/utils/api.ts:64-88 | The username-check route is not the refresh route, so a 401 on it clears the credentials, navigates to the sign-in page with the current path and rejects |
| Onboarding.CorrectedReportsAvailability | Frontend/src/pages/auth/Onboarding.tsx:45-51 | Corrected, the page shows a name as available, without error and with the claim button enabled, iff the server says so |
| Onboarding.CorrectedCanClaim | Frontend/src/pages/auth/Onboarding.tsx:36-85 | Corrected, checking an available name and submitting claims it |
| Onboarding.WellFormedNameStartsCheck | Frontend/src/pages/auth/Onboarding.tsx:36-43 | Pressing check with a well-formed name starts a server check and changes nothing else |
| Onboarding.EditDisablesClaim | Frontend/src/pages/auth/Onboarding.tsx:126-129 | Right after any edit the claim button is disabled, and the error is kept |
| Onboarding.StaleAnswerEnablesClaim | Frontend/src/pages/auth/Onboarding.tsx:36-56 | An answer is not tied to the name it was asked for. If the name is edited while a check runs, a "free" answer for the old name enables Claim for the new, unchecked name, and claiming navigates on |
| Onboarding.SubmitGuardUnreachableFromButton | Frontend/src/pages/auth/Onboarding.tsx:66-70 | Through the enabled claim button, submitting always navigates and never shows the guard's error |
| LogoutPage.Initial | Frontend/src/pages/auth/Logout.tsx:26-30 | The page starts idle with a five-second countdown and automatic redirect on |
| LogoutPage.Effect | Frontend/src/pages/auth/Logout.tsx:33-42 | The page navigates to the login route iff it is redirecting, and nowhere otherwise |
| LogoutPage.SignOutDone | Frontend/src/pages/auth/Logout.tsx:44-66 | The sign-out succeeds iff the request did, and the page otherwise shows the error. Success, or a 401, leaves the browser signed out. Any other failure keeps the store. The countdown is untouched |
| LogoutPage.Step | Frontend/src/pages/auth/Logout.tsx:33-82 | A sign-out request is sent iff sign-out is pressed while idle or after a failure. A tick counts down only while counting. Staying after success stops the redirect. The plain login route is visited only when redirecting or on sign-in-again; a sign-out refused with 401 carries the gateway's navigation instead |
| LogoutPage.StepPreservesValid | Frontend/src/pages/auth/Logout.tsx:29-42 | One step keeps the countdown between 0 and 5 |
| LogoutPage.RunPreservesValid | Frontend/src/pages/auth/Logout.tsx:29-42 | The countdown stays between 0 and 5 after any run |
| LogoutPage.FiveTicksRedirect | Frontend/src/pages/auth/Logout.tsx:33-42 | After a successful sign-out, the fifth tick navigates to the login route once, and four ticks do not |
| LogoutPage.StayedNeverRedirects | Frontend/src/pages/auth/Logout.tsx:72-75 | Choosing to stay never leads to the login route, whatever events follow, unless sign-in-again is pressed |
| LogoutPage.RetryAfterFailure | Frontend/src/pages/auth/Logout.tsx:44-45 | After a failure, pressing sign-out sends the request again |
| LogoutPage.FailureKeepsSession | Frontend/src/pages/auth/Logout.tsx:44-66 | A failed sign-out marks the page failed. Refused with any status but 401, it keeps the stored credentials and does not navigate. Refused with 401, the credentials are cleared and the browser goes to the sign-in page, whose redirect parameter reads back as this page |
| LoginPage.RedirectTarget | Frontend/src/pages/auth/Login.tsx:31 | The target is the non-empty redirect parameter when there is one, else the default page; it is never empty |
| LoginPage.ThrownBy | Frontend/src/services/auth/login.service.ts:11-15 | Every failure is thrown as an Error object; a failed request carries its HTTP status, an error reply its message without a status |
| LoginPage.Describe | Frontend/src/pages/auth/Login.tsx:59-71 | A 401 shows the invalid-credentials text inline and as a toast; other errors show their message or the generic login-failed text; non-errors show the unexpected text; the toast is never empty |
| LoginPage.Submit | Frontend/src/pages/auth/Login.tsx:45-51 | The credentials are sent iff the form is valid, and the form's errors are shown. An invalid form raises the "Please fix the form errors before submitting" toast (validate-form.ts:32) and changes nothing else. A valid one clears the server error and starts loading, with no toast yet. Nothing navigates |
| LoginPage.Settled | Frontend/src/pages/auth/Login.tsx:53-74 | Loading stops and the store is the one the service left. Success toasts and navigates to the redirect target; failure toasts the described error. The inline error changes only on a 401, to the invalid-credentials text |
| LoginPage.SignOutThenSignInReturns | Frontend/src/pages/auth/Login.tsx:31 | Sent to sign in by the gateway, the user is returned to the path they were on |
| LoginPage.ServiceErrorsAreDescribed | Frontend/src/pages/auth/Login.tsx:59-71 | Every service error gets a specific toast unless its own message is the unexpected text, and the inline error appears iff the request failed with 401 |
| LoginPage.LoginUnauthorizedSignsOut | Frontend/src/utils/api.ts:75-81 | A wrong password on the login route is not refreshed: the gateway clears the credentials, navigates to the sign-out link and rejects the request |
| UserModel.GenerateUsername | FoundrCard/apps/users/models.py:16-21 | A length below 4 is refused; otherwise the name is "User-" followed by that many lower-case letters or digits |
| UserModel.GenerateUsernameCovers | FoundrCard/apps/users/models.py:16-21 | Every suffix of at least 4 characters over that alphabet can be generated |
| UserModel.DefaultUsernameFits | FoundrCard/apps/users/models.py:53-58 | The default username has 13 characters, which fits the 50-character column |
| UserModel.SetDefault | FoundrCard/apps/users/models.py:39-41 | After setting a default the flag is present, an existing value is kept, and no other flag changes |
| UserModel.CreateUser | FoundrCard/apps/users/models.py:29-36 | An empty address is refused. Otherwise the user has the normalised address, the password and username, the caller's flags over the defaults (active, not staff, not superuser), no premium and blank names |
| UserModel.CreateSuperuser | FoundrCard/apps/users/models.py:38-47 | An explicitly false staff or superuser flag is refused with its own message, as is an empty address; a created superuser is staff and superuser |
| UserModel.SuperuserDefaults | FoundrCard/apps/users/models.py:38-47 | Without explicit flags a superuser is active, staff and superuser, an ordinary user active only; a superuser is the user created with both flags set |
| UserModel.FullName | FoundrCard/apps/users/models.py:122-124 | The full name is empty iff first name, space and last name are all white space |
| UserModel.FullNameCases | FoundrCard/apps/users/models.py:122-124 | Two blank names give an empty full name; two names without outer white space give them joined by one space |
| UserModel.HasActivePremium | FoundrCard/apps/users/models.py:132-136 | Premium can be in force only for a premium user |
| UserModel.PremiumLapses | FoundrCard/apps/users/models.py:132-136 | Premium not in force now is not in force later; it ends at its expiry; premium without expiry is always in force; with one, it is in force iff now is before the expiry |
| UserModel.UploadPath | FoundrCard/apps/users/models.py:24-25 | A picture path starts with the pictures folder and ends with the file name, with the user's id folder between |
| UserModel.UploadPathInjective | FoundrCard/apps/users/models.py:24-25 | Equal paths come from the same user id and file name |
| GoogleAuth.ValidateGoogleToken | FoundrCard/apps/auth/utils.py:27-52 | A token is accepted iff the library verified it, the issuer is one of Google's and the audience is the client id; every refusal has the one invalid-token message |
| GoogleAuth.NormalizeEmailIdempotent | FoundrCard/apps/auth/utils.py:62 | Normalising an address twice is normalising it once |
| GoogleAuth.GetUserInfo | FoundrCard/apps/auth/utils.py:105-119 | Information is returned iff the token validates. The address is normalised, the names and picture are the claims or empty, the address is verified only when the claim is true, and the locale defaults to "en" |
| GoogleAuth.NewUser | FoundrCard/apps/auth/utils.py:78-85 | A new user has the normalised address and the given username, takes Google's names and picture, is active iff the address is verified, and gets no staff, superuser or premium status |
| GoogleAuth.AfterLookup | FoundrCard/apps/auth/utils.py:66-74 | Looking the user up puts a user found only in the table into the cache under its key; the table, every other cache entry and what the address looks up are unchanged, and a cache hit or a miss changes nothing |
| GoogleAuth.Update | FoundrCard/apps/auth/utils.py:89-100 | The found user is refreshed from Google and saved, in the table and the cache, iff a field changed. As written the names and picture are blanked; with the corrected keys they come from Google |
| GoogleAuth.Upsert | FoundrCard/apps/auth/utils.py:66-102 | A user is created, saved and cached iff no stored user has the address, and otherwise goes through the update on the store as it is after the lookup; afterwards the cache holds the returned user under the address's key |
| GoogleAuth.TableHitIsCached | FoundrCard/apps/auth/utils.py:70-73 | A user found only in the table whom Google's information leaves unchanged is neither created nor saved, yet ends up in the cache; the table is untouched |
| GoogleAuth.GetOrCreateUser | FoundrCard/apps/auth/utils.py:55-102 | An address that normalises to empty is refused before any lookup; any other is looked up or created under its normalised form |
| GoogleAuth.CorrectedSecondSignInIsQuiet | FoundrCard/apps/auth/utils.py:89-100 | With the corrected keys, signing in again with the same information finds the user and changes nothing |
| GoogleAuth.AsWrittenLosesGivenName | FoundrCard/apps/auth/utils.py:89-100 | As written, the second sign-in blanks the given name that the first one stored |
| GoogleAuth.TokenSubject | FoundrCard/apps/auth/utils.py:122-133 | Nothing and an empty address get no tokens. A user instance gets them. A non-empty address gets them iff it is stored, for the stored user, and otherwise the user-not-found error |
| AuthViews.StatusFor | FoundrCard/apps/auth/views.py:90-114 | A raised error answers 401 iff it is caught as a token error and mentions a bad token, with the bad-token text; anything else is a 500 with the text of the clause that caught it |
| AuthViews.ChosenToken | FoundrCard/apps/auth/views.py:61-62 | A non-empty id token is used; otherwise whatever token is used is one of the two sent |
| AuthViews.GooglePost | FoundrCard/apps/auth/views.py:56-114 | Without a non-empty token in either field the answer is a 400. A non-empty id token is the one signed in with, whatever the access token; otherwise the access token is |
| AuthViews.SignInWith | FoundrCard/apps/auth/views.py:64-114 | No token is a 400. A token whose information cannot be read gets the answer for an invalid token. One whose get-or-create fails gets the answer for that error. One for which both succeed signs in exactly the user, creation flag and store that get-or-create returned. Every rejection other than 400 is one of those two answers |
| AuthViews.AsWrittenBadTokenIs500 | FoundrCard/apps/auth/views.py:90-114 | As written, a token that fails validation is answered with 500 |
| AuthViews.CorrectedBadTokenIs401 | FoundrCard/apps/auth/views.py:90-98 | When authentication failures are caught, a bad token is answered with 401 |
| AuthViews.IdTokenPreferred | FoundrCard/apps/auth/views.py:61-62 | With both tokens sent, the access token is ignored |
| AuthViews.UserDetail | FoundrCard/apps/auth/views.py:246-310 | Reading a profile is 200 or 404 by whether it is active. A PATCH needs a signed-in requester (401) who owns the profile (403), and is saved or answered 400. Unknown methods are 405 |
| AuthViews.OnlyOwnersUpdate | FoundrCard/apps/auth/views.py:279-301 | Only a PATCH by the profile's owner changes a profile, and reading never depends on who asks |
| AuthViews.UsernameFormatError | FoundrCard/apps/auth/views.py:396-416 | A blank name is required, one under 3 characters is too short, and otherwise a name is refused iff it is not alphanumeric once underscores are removed |
| AuthViews.UsernameCheck | FoundrCard/apps/auth/views.py:394-441 | Anonymous requests are refused. A stripped name with a format error is a 400 and a database failure a 500. Otherwise a name is available iff no other user holds it, ignoring case |
| AuthViews.ClientAndServerFormats | FoundrCard/apps/auth/views.py:394-416 | Of the names the client accepts, the server accepts exactly those with a character other than an underscore; a name of underscores only passes the client and fails on the server |
| AuthViews.TakenIgnoresOwnRecordAndCase | FoundrCard/apps/auth/views.py:418-421 | The requester's own record never makes a name taken, and a name is taken iff its lower-cased form is |
| AuthViews.EmailAnswer | FoundrCard/apps/auth/views.py:339-366 | An empty address is a 400 and a database failure a 500; otherwise the address is available iff no stored address matches it ignoring case |
| AuthViews.EmailCheck | FoundrCard/apps/auth/views.py:323-366 | A missing parameter is a 400. A 200 means the lookup ran, and reports the address available iff no stored address matches the stripped, lower-cased parameter ignoring case. The status is always 200, 400 or 500 |
| AuthViews.EmailCheckNormalises | FoundrCard/apps/auth/views.py:337 | Any runs of white space around a non-blank address, and its letter case, do not change the availability answer |
| UserSerializers.ValidateEmail | FoundrCard/apps/users/serializers.py:39-45 | The input is accepted iff its lower-cased, stripped form is non-empty, contains '@' and equals no stored address; that form is returned; a refusal is one of the two messages |
| UserSerializers.EmailVerdict | FoundrCard/apps/users/serializers.py:39-45 | An address is accepted iff it is non-empty, contains '@' and no stored address equals it; each refusal names its reason |
| UserSerializers.ValidateEmailIdempotent | FoundrCard/apps/users/serializers.py:39-45 | An accepted address is accepted again unchanged |
| UserSerializers.InUseIsRegistered | FoundrCard/apps/users/serializers.py:43 | An address in use here is also reported as registered by the availability view |
| UserSerializers.CaseOnlyDifferenceAccepted | FoundrCard/apps/users/serializers.py:43-44 | An address differing from a stored one only in case is accepted here but reported as registered by the view |
| UserSerializers.PublicRepresentation | FoundrCard/apps/users/serializers.py:53-67 | The public profile shows identity, names, picture and plan, and the address iff the context asks |
| UserSerializers.ShowEmailOnlyAddsEmail | FoundrCard/apps/users/serializers.py:62-67 | Showing the address changes nothing else in the profile |
| UserSerializers.FullRepresentation | FoundrCard/apps/users/serializers.py:93-97 | The details the serializer evidently intends: the stored fields plus whether premium is in force at the given time |
| UserSerializers.BuildFields | FoundrCard/apps/users/serializers.py:78-85 | Building the declared fields succeeds iff every declared name is a name of the user model; a failure names a declared name the model lacks |
| UserSerializers.RepresentWith | FoundrCard/apps/users/serializers.py:93-101 | Serializing fails with "Unable to serialize user details." iff the fields cannot be built; otherwise it gives the full representation |
| UserSerializers.AsWrittenDetailsNeverSerialize | FoundrCard/apps/users/serializers.py:80-85 | As declared, building stops at "stripe_customer_id", so every user's details fail to serialize |
| UserSerializers.CorrectedDetailsSerialize | FoundrCard/apps/users/serializers.py:80-85 | Without the two unknown names, every user serializes to the full representation |
| UserSerializers.PatchWith | FoundrCard/apps/auth/views.py:210-232 | A profile PATCH is refused with 400 and "Failed to update profile. Please try again." iff the fields cannot be built or the save fails; otherwise it answers the user `update` produced. This assumes the `UserSerializer` the view imports from `apps.auth.serializers` (views.py:23) is the one in FoundrCard/apps/users/serializers.py |
| UserSerializers.AsWrittenPatchNeverUpdates | FoundrCard/apps/users/serializers.py:78-120 | As declared, every PATCH is refused with the view's 400 before `update` runs; with the corrected names a PATCH whose save succeeds answers the updated user. This assumes the `UserSerializer` the view imports from `apps.auth.serializers` (views.py:23) is the one in FoundrCard/apps/users/serializers.py |
| UserSerializers.ViewHidesTakenUsername | FoundrCard/apps/auth/views.py:210-232 | A username clash, which `update` reports as a username field error, reaches the client only as the view's generic 400 message |
| UserSerializers.PremiumFlagLapses | FoundrCard/apps/users/serializers.py:93-97 | Details requested later never show premium that was not in force earlier |
| UserSerializers.ReportFailure | FoundrCard/apps/users/serializers.py:108-120 | An integrity error on the username is a username error; other integrity errors are database errors; anything else is unexpected |
| UserSerializers.Update | FoundrCard/apps/users/serializers.py:103-120 | With buildable fields, a failed save is reported, never applied; otherwise the given fields change and the address, flags, plan and password are kept |
| UserSerializers.UpdateIdempotent | FoundrCard/apps/users/serializers.py:103-106 | An empty patch changes nothing, and the same patch twice equals it once |
| UserAdmin.SetAll | FoundrCard/apps/users/admin.py:62-75 | Every selected user gets the flag value, nothing else changes, and all rows are counted |
| UserAdmin.SetAllIdempotent | FoundrCard/apps/users/admin.py:62-70 | Repeating an action changes nothing, and deactivating then activating users who were all active restores them |
| UserAdmin.NonSuperusersAll | FoundrCard/apps/users/admin.py:79 | The count equals the selection iff no superuser is selected, and is zero iff all are superusers |
| UserAdmin.RevokeStaff | FoundrCard/apps/users/admin.py:77-81 | Non-superusers lose staff access and are counted; superusers keep theirs and are not counted |
| UserAdmin.RevokedStaffAreSuperusers | FoundrCard/apps/users/admin.py:77-81 | After revoking, only superusers are staff, and revoking again changes nothing |
| CardModels.Save | FoundrCard/apps/cards/models.py:80-83 | A missing or empty slug becomes the slug of the owner's username; a set one is kept, as are title and owner |
| CardModels.SaveIdempotent | FoundrCard/apps/cards/models.py:80-83 | Saving twice is saving once, and a set slug does not follow a renamed owner |
| CardModels.CardText | FoundrCard/apps/cards/models.py:85-86 | A card reads as its title followed by " (@", the slug or "None", and ")" |
| CardModels.CardTextParts | FoundrCard/apps/cards/models.py:85-86 | Cards with equal text and equal-length titles have the same title and slug text |
| CardModels.PrecedesIsTotalOrder | FoundrCard/apps/cards/models.py:129-130 | The listing order is total and transitive and puts featured links first |
| CardModels.Listed | FoundrCard/apps/cards/models.py:129-130 | A card's links are listed in that order, as a permutation of the links |
| CardModels.FeaturedFirst | FoundrCard/apps/cards/models.py:129-130 | Featured links come before all others, and within a kind lower positions come first |
| CardModels.LinkText | FoundrCard/apps/cards/models.py:132-136 | A link reads as the card title, " - ", and its title |
| CardModels.LinkTextParts | FoundrCard/apps/cards/models.py:135-136 | Under one card title, links with the same text have the same title |
| CardModels.AnalyticsText | FoundrCard/apps/cards/models.py:169-172 | An event reads as the slug text, " - " and the action, with " - " and the link title after it when a link is attached |
| CardModels.AnalyticsTextWithLink | FoundrCard/apps/cards/models.py:169-172 | Attaching a link only appends its title |
| CardModels.DomainText | FoundrCard/apps/cards/models.py:184-185 | A domain reads as the domain, " -> ", and the slug text |
| CardModels.DomainTextParts | FoundrCard/apps/cards/models.py:184-185 | Domains of equal length with the same text have the same domain and slug text |

## Left out

- Transport: the ten-second axios timeout (Frontend/src/utils/api.ts:15) and headers other than Authorization. Promises are modelled as events, and replies as parameters.
- `uploadFile` (Frontend/src/utils/api.ts:126-139) is a thin network wrapper with no logic of its own.
- Browser navigation, rendering and timers appear only as the effects and ticks of the page state machines.
- The 0.5 and 127.5 luminance thresholds are floating point in the source. They are scaled to exact integer comparisons; a luminance exactly on a boundary may round differently.
- `Math.random`, uuid generation, `random.choices`, `slugify`, `normalize_email` and Python's Unicode `isalnum` are inputs.
- CardEditor.AddLink: the fresh id is an input. `uuidv4` is called but not imported in the editor.
- Characters outside the Basic Multilingual Plane count as two code units in JavaScript string length, which `Text.JsLength` models. Where the client cuts strings by code unit (`substring`, `charAt`), `Text.CodeUnits` writes such a character twice, each copy standing for one of its surrogate halves. No hex digit, white space, sign or letter is a surrogate, so parsing and case mapping treat each copy as they would the half. Dafny characters are Unicode scalar values, so the lone surrogates on which `encodeURIComponent` throws cannot occur.
- Text.Lower lower-cases ASCII letters only; Python's and JavaScript's Unicode case mappings are not modelled.
- Object property order: the parameters are given as the sequence `Object.entries` yields. That order is not computed from an object: integer-like keys come first in ascending order (`{b: 1, "2": 2}` visits "2" first), then the other keys in insertion order.
- UrlParams.Render: numbers are integers below 10^21 in magnitude, which `String(n)` writes in plain decimal. Fractional numbers, exponent notation, NaN and the infinities are not modelled.
- UrlParams.ReplaceUrlParams states only the empty case in its own contract; the effect of each further entry is `UrlParams.ApplyOne`.
- UrlParams.ApplyOne: "$" replacement patterns are modelled in `UrlParams.Substitution`, but the lemmas assume "$"-free values.
- FormValidation.StrengthDisplay requires a score from 0 to 5, which every computed strength satisfies.
- Colors.ContrastColor: the card page computes a colour and a text colour for each link (Frontend/src/pages/Card.tsx:199-200) but never draws them, so only the rule itself, as used by the avatar, is modelled.
- GoogleAuth.Upsert: two defects are modelled as evidently intended, because the model would otherwise only raise. `USER_CACHE_TIMEOUT` is neither defined nor imported in FoundrCard/apps/auth/utils.py, and `created` is unbound on a cache hit.
- Gateway.ProcessQueue: the `config.headers` half of the `token && config.headers` guard (Frontend/src/utils/api.ts:35) is not modelled; a parked request is replayed whenever the token is truthy, as it is whenever axios supplies a headers object.
- Gateway.Settle: the `if (originalRequest.headers)` guard (Frontend/src/utils/api.ts:107) is not modelled; the replayed request always carries the new token, as it does whenever axios supplies a headers object.
- Gateway.Settle states only the cleared refreshing flag; what settling does to the queue and the original request is stated by the refresh lemmas.
- UserSerializers.PatchWith: FoundrCard/apps/auth/serializers.py is not part of this model. The profile view imports its `UserSerializer` from there (FoundrCard/apps/auth/views.py:23); the model assumes it is the serializer of FoundrCard/apps/users/serializers.py.
- UserSerializers.EmailVerdict: `validate_email` is never reached through the profile serializer, because the address is read-only there.
- Colors.ParseIntHex returns an exact integer. JavaScript's `parseInt(s, 16)` returns a double, which rounds values longer than 13 hexadecimal digits. The model may therefore differ on such inputs in the low bits that `>>` and `& 0xff` keep.
- Session.GoogleSuccess and Session.SignIn: the browser navigation a 401 triggers belongs to the gateway (`Gateway.PlainUnauthorizedSignsOut`, `Session.ServiceCallThroughGateway`). The services' results carry only the store it leaves.
- Database ids are not assigned on save.
- The admin message texts are left out.
- Database failures are the `dbFails` input.
- The framework chooses between 401 and 403 for anonymous requests; the model uses 401.
- `date_joined` and stored profile picture files are left out.
- The registration page (Frontend/src/pages/auth/Register.tsx) is left out: its logic is `FormValidation.ValidateForm` and `Session.RegisterUser`.
- Django settings, URL configurations, migrations and the payments app are left out.
- The front end and the back end are modelled separately; no end-to-end HTTP exchange is modelled.
- A refresh that fails with something other than a 401 rejects only the original request. The parked requests stay queued until a later refresh settles them; the model follows the code here.

## Findings

| source | as written | input that shows it | evidently intended | confidence | as-written member | corrected member |
|---|---|---|---|---|---|---|
| Frontend/src/services/auth/user.ts:10 | `checkUsername` resolves to `response.data.message`, and the onboarding page reads `.available` from that string | any reply, for example `{available: true, message: "Username is available"}` | resolve to the reply's data, so that an available name can be claimed | high (not executed) | Onboarding.AsWrittenAlwaysTaken | Onboarding.CorrectedCanClaim |
| FoundrCard/apps/auth/utils.py:89-100 | the update reads the keys `first_name`, `last_name` and `profile_picture`, but the info dictionary uses `given_name`, `family_name` and `picture` | a second Google sign-in by a user whose given name is "Ada", reachable once the undefined `USER_CACHE_TIMEOUT` is defined | refresh the names and picture from Google's claims | high (not executed) | GoogleAuth.AsWrittenLosesGivenName | GoogleAuth.CorrectedSecondSignInIsQuiet |
| FoundrCard/apps/auth/views.py:90-114 | `AuthenticationFailed` from token validation is not a `ValueError`, so only the generic handler catches it | a Google token with the wrong audience | answer 401 for an invalid token | medium (not executed) | AuthViews.AsWrittenBadTokenIs500 | AuthViews.CorrectedBadTokenIs401 |
| Frontend/src/services/auth/google.service.ts:16-21 | the reply's tokens are stored before its error field is checked | a reply `{error: "..."}` without tokens | store tokens only from a successful reply | high (not executed) | Session.GoogleErrorStoresUndefined | Session.CheckedGoogleErrorStoresNothing |
| FoundrCard/apps/users/serializers.py:80-85 | `UserSerializer.Meta.fields` names `stripe_customer_id` and `subscription_tier`, which the user model does not define, so the framework cannot build the serializer's fields | a GET or PATCH of the signed-in user's profile: a GET answers 500, because the serializer raises Django's `ValidationError`, which the framework does not turn into a 400; a PATCH answers 400 through the view's catch-all | list only fields of the user model, so details serialize and updates reach `update` | medium (not executed) | UserSerializers.AsWrittenDetailsNeverSerialize | UserSerializers.CorrectedDetailsSerialize |

