/** The user model of the back end, FoundrCard/apps/users/models.py: the
    default username, the manager's two creation paths, the display name, the
    premium check and the profile-picture path. */
module UserModel {
  import opened Wrappers
  import opened Text

  /** A stored user. `id` is `None` until the first save; timestamps are
      integers on one clock; `password` is what `set_password` was given,
      `None` meaning an unusable password. */
  datatype User = User(
    id: Option<int>,
    email: string,
    username: string,
    firstName: string,
    lastName: string,
    profilePictureUrl: Option<string>,
    googleId: Option<string>,
    password: Option<string>,
    isActive: bool,
    isStaff: bool,
    isSuperuser: bool,
    isPremium: bool,
    premiumExpiry: Option<int>)

  // ---------------------------------------------------------------------------
  // generate_username
  // ---------------------------------------------------------------------------

  const UsernamePrefix := "User-"
  const ShortLengthMessage := "Username must be at least 4 characters long."
  const DefaultUsernameLength := 8

  /** `string.ascii_lowercase + string.digits`. */
  const Alphabet := "abcdefghijklmnopqrstuvwxyz0123456789"

  predicate InAlphabet(c: char) {
    IsAsciiLower(c) || IsDigit(c)
  }

  /** Well-formed draws of `random.choices(Alphabet, k=length)`: one index
      into the alphabet per character. */
  predicate ValidPicks(length: int, picks: seq<int>) {
    |picks| == length && forall k :: 0 <= k < |picks| ==> 0 <= picks[k] < |Alphabet|
  }

  /** `generate_username(length)`, with the random draws supplied: a length
      below 4 is refused; otherwise "User-" and one alphabet character per
      draw. */
  function GenerateUsername(length: int, picks: seq<int>): (r: Result<string, string>)
    requires length >= 4 ==> ValidPicks(length, picks)
    ensures r.Failure? <==> length < 4
    ensures r.Failure? ==> r.error == ShortLengthMessage
    ensures r.Success? ==> |r.value| == |UsernamePrefix| + length && r.value[..|UsernamePrefix|] == UsernamePrefix
    ensures r.Success? ==> forall k :: |UsernamePrefix| <= k < |r.value| ==> InAlphabet(r.value[k])
  {
    if length < 4 then Failure(ShortLengthMessage)
    else
      var suffix := seq(length, k requires 0 <= k < length => Alphabet[picks[k]]);
      assert forall j :: 0 <= j < |Alphabet| ==> InAlphabet(Alphabet[j]);
      Success(UsernamePrefix + suffix)
  }

  /** Every "User-" name with an admissible suffix of the requested length is
      produced by some draw: the generator reaches the whole name space. */
  lemma GenerateUsernameCovers(suffix: string)
    requires |suffix| >= 4
    requires forall k :: 0 <= k < |suffix| ==> InAlphabet(suffix[k])
    ensures exists picks :: ValidPicks(|suffix|, picks) && GenerateUsername(|suffix|, picks) == Success(UsernamePrefix + suffix)
  {
    var picks := seq(|suffix|, k requires 0 <= k < |suffix| => AlphabetIndex(suffix[k]));
    var r := GenerateUsername(|suffix|, picks);
    assert r.value[|UsernamePrefix|..] == suffix;
    assert r.value == UsernamePrefix + suffix;
  }

  /** The position of an alphabet character. */
  function AlphabetIndex(c: char): (i: int)
    requires InAlphabet(c)
    ensures 0 <= i < |Alphabet| && Alphabet[i] == c
  {
    if IsAsciiLower(c) then c as int - 'a' as int else 26 + (c as int - '0' as int)
  }

  /** The field's default, `generate_username()`, is 13 characters long and
      fits the 50-character column; the longest admissible suffix is 45. */
  lemma DefaultUsernameFits(picks: seq<int>)
    requires ValidPicks(DefaultUsernameLength, picks)
    ensures |GenerateUsername(DefaultUsernameLength, picks).value| == 13 <= 50
  {
  }

  // ---------------------------------------------------------------------------
  // CustomUserManager
  // ---------------------------------------------------------------------------

  const EmailRequiredMessage := "Email address is required."
  const StaffRequiredMessage := "Superuser must have is_staff=True."
  const SuperuserRequiredMessage := "Superuser must have is_superuser=True."

  /** The boolean keyword arguments a caller passes (`is_staff`,
      `is_superuser`, `is_active`), by name. */
  type Flags = map<string, bool>

  function Flag(flags: Flags, name: string, fallback: bool): bool {
    if name in flags then flags[name] else fallback
  }

  /** `dict.setdefault`: a value the caller passed wins. */
  function SetDefault(flags: Flags, name: string, value: bool): (r: Flags)
    ensures name in r && Flag(r, name, !value) == Flag(flags, name, value)
    ensures forall k :: k != name ==> (k in r <==> k in flags) && (k in flags ==> r[k] == flags[k])
  {
    if name in flags then flags else flags[name := value]
  }

  /** `create_user`: an empty address is refused; otherwise a new user, saved
      (this model assigns no ids), with the normalised address (`normalize`
      stands for the library's `normalize_email`), the given password and
      username (the generated default unless the caller passed one), the
      caller's flags over the model's defaults (active, not staff, not
      superuser), and blank names. */
  function CreateUser(email: string, password: Option<string>, flags: Flags, username: string,
                      normalize: string -> string): (r: Result<User, string>)
    ensures r.Failure? <==> email == ""
    ensures r.Failure? ==> r.error == EmailRequiredMessage
    ensures r.Success? ==>
      && r.value.email == normalize(email)
      && r.value.password == password
      && r.value.username == username
      && r.value.isActive == Flag(flags, "is_active", true)
      && r.value.isStaff == Flag(flags, "is_staff", false)
      && r.value.isSuperuser == Flag(flags, "is_superuser", false)
      && !r.value.isPremium && r.value.premiumExpiry.None?
      && r.value.firstName == "" && r.value.lastName == ""
  {
    if email == "" then Failure(EmailRequiredMessage)
    else
      Success(User(None, normalize(email), username, "", "", None, None, password,
        Flag(flags, "is_active", true), Flag(flags, "is_staff", false), Flag(flags, "is_superuser", false),
        false, None))
  }

  /** `create_superuser`: the three flags default to true; a caller-passed
      false staff or superuser flag is refused (staff checked first), and the
      rest is `create_user`. */
  function CreateSuperuser(email: string, password: Option<string>, flags: Flags, username: string,
                           normalize: string -> string): (r: Result<User, string>)
    ensures r.Failure? <==> Flag(flags, "is_staff", true) == false || Flag(flags, "is_superuser", true) == false || email == ""
    ensures !Flag(flags, "is_staff", true) ==> r == Failure(StaffRequiredMessage)
    ensures Flag(flags, "is_staff", true) && !Flag(flags, "is_superuser", true) ==> r == Failure(SuperuserRequiredMessage)
    ensures r.Success? ==> r.value.isStaff && r.value.isSuperuser && r.value.isActive == Flag(flags, "is_active", true)
  {
    var f1 := SetDefault(flags, "is_staff", true);
    var f2 := SetDefault(f1, "is_superuser", true);
    var f3 := SetDefault(f2, "is_active", true);
    if !Flag(f3, "is_staff", false) then Failure(StaffRequiredMessage)
    else if !Flag(f3, "is_superuser", false) then Failure(SuperuserRequiredMessage)
    else CreateUser(email, password, f3, username, normalize)
  }

  /** With no flags passed, a superuser is staff, superuser and active; an
      ordinary user is none of staff and superuser. */
  lemma SuperuserDefaults(email: string, password: Option<string>, username: string, normalize: string -> string)
    requires email != ""
    ensures var s := CreateSuperuser(email, password, map[], username, normalize);
      s.Success? && s.value.isStaff && s.value.isSuperuser && s.value.isActive
    ensures var u := CreateUser(email, password, map[], username, normalize);
      u.Success? && !u.value.isStaff && !u.value.isSuperuser && u.value.isActive
    ensures CreateSuperuser(email, password, map[], username, normalize).value
      == CreateUser(email, password, map["is_staff" := true, "is_superuser" := true], username, normalize).value
  {
  }

  // ---------------------------------------------------------------------------
  // Display name, premium, upload path
  // ---------------------------------------------------------------------------

  /** `full_name`: first and last name joined by a space, stripped. */
  function FullName(u: User): (r: string)
    ensures r == "" <==> forall k :: 0 <= k < |u.firstName + " " + u.lastName| ==> IsPySpace((u.firstName + " " + u.lastName)[k])
  {
    PyStrip(u.firstName + " " + u.lastName)
  }

  /** Blank names give an empty display name; names with no surrounding
      white space are joined by one space; a blank last name leaves the first
      name alone. */
  lemma FullNameCases(u: User)
    ensures u.firstName == "" && u.lastName == "" ==> FullName(u) == ""
    ensures u.firstName != "" && u.lastName != "" && !IsPySpace(u.firstName[0]) && !IsPySpace(u.lastName[|u.lastName| - 1])
      ==> FullName(u) == u.firstName + " " + u.lastName
  {
    var s := u.firstName + " " + u.lastName;
    if u.firstName == "" && u.lastName == "" {
      assert s == " ";
      assert IsPySpace(s[0]);
    }
    if u.firstName != "" && u.lastName != "" && !IsPySpace(u.firstName[0]) && !IsPySpace(u.lastName[|u.lastName| - 1]) {
      assert s[0] == u.firstName[0] && s[|s| - 1] == u.lastName[|u.lastName| - 1];
      StripKeeps(s, IsPySpace);
    }
  }

  /** `has_active_premium` at time `now`: premium with no expiry, or an
      expiry strictly after `now`. */
  function HasActivePremium(u: User, now: int): (r: bool)
    ensures r ==> u.isPremium
    ensures !u.isPremium ==> !r
  {
    u.isPremium && (u.premiumExpiry.None? || u.premiumExpiry.value > now)
  }

  /** Premium only lapses: once inactive it stays inactive at every later
      time, the expiry instant itself is already inactive, and a premium
      without expiry never lapses. */
  lemma PremiumLapses(u: User, now: int, later: int)
    requires now <= later
    ensures HasActivePremium(u, later) ==> HasActivePremium(u, now)
    ensures u.premiumExpiry == Some(now) ==> !HasActivePremium(u, now)
    ensures u.isPremium && u.premiumExpiry.None? ==> HasActivePremium(u, later)
    ensures u.isPremium && u.premiumExpiry.Some? ==>
      (HasActivePremium(u, now) <==> now < u.premiumExpiry.value)
  {
  }

  const PicturesFolder := "profile_pictures/"

  /** Python's rendering of the id: the decimal number, or "None" before the
      first save. */
  function IdText(id: Option<int>): (r: string)
    ensures '/' !in r && r != ""
  {
    match id
    case None => "None"
    case Some(i) =>
      var digits := NatToString(if i >= 0 then i else -i);
      assert '/' !in digits by {
        assert forall k :: 0 <= k < |digits| ==> IsDigit(digits[k]);
      }
      IntToString(i)
  }

  /** `profile_picture_upload_to`: the folder, the id and the file name. */
  function UploadPath(id: Option<int>, filename: string): (r: string)
    ensures |r| == |PicturesFolder| + |IdText(id)| + 1 + |filename|
    ensures r[..|PicturesFolder|] == PicturesFolder && r[|r| - |filename|..] == filename
  {
    PicturesFolder + IdText(id) + "/" + filename
  }

  /** Reads an id back from its rendering. */
  function ParseIdText(s: string): Option<int> {
    if s == "None" then None
    else if s != [] && s[0] == '-' && AllDigits(s[1..]) then Some(-(DecimalValue(s[1..]) as int))
    else if AllDigits(s) then Some(DecimalValue(s))
    else None
  }

  /** The rendering of an id reads back as that id. */
  lemma IdTextRoundTrip(id: Option<int>)
    ensures ParseIdText(IdText(id)) == id
  {
    if id.Some? {
      var i := id.value;
      var digits := NatToString(if i >= 0 then i else -i);
      assert IsDigit(digits[0]);
      if i >= 0 {
        assert IdText(id) == digits;
        assert digits[0] != 'N' && digits[0] != '-';
      } else {
        assert IdText(id) == "-" + digits;
        assert IdText(id)[1..] == digits;
      }
    }
  }

  /** Distinct ids render differently. */
  lemma IdTextInjective(a: Option<int>, b: Option<int>)
    requires IdText(a) == IdText(b)
    ensures a == b
  {
    IdTextRoundTrip(a);
    IdTextRoundTrip(b);
  }

  /** Each user and file name gets its own path: the path determines both. */
  lemma UploadPathInjective(a: Option<int>, f: string, b: Option<int>, g: string)
    requires UploadPath(a, f) == UploadPath(b, g)
    ensures a == b && f == g
  {
    var s, t := IdText(a), IdText(b);
    assert UploadPath(a, f) == PicturesFolder + (s + "/" + f);
    assert UploadPath(b, g) == PicturesFolder + (t + "/" + g);
    assert s + "/" + f == UploadPath(a, f)[|PicturesFolder|..];
    assert t + "/" + g == UploadPath(b, g)[|PicturesFolder|..];
    SplitAtFirstSlash(s, f, t, g);
    IdTextInjective(a, b);
  }

  /** A slash-free head before the first slash is determined by the string. */
  lemma SplitAtFirstSlash(s: string, f: string, t: string, g: string)
    requires '/' !in s && '/' !in t
    requires s + "/" + f == t + "/" + g
    ensures s == t && f == g
  {
    var r := s + "/" + f;
    assert r[..|s|] == s;
    assert (t + "/" + g)[..|t|] == t;
    CharIndexIs(r, '/', |s|);
    CharIndexIs(t + "/" + g, '/', |t|);
    assert f == r[|s| + 1..];
    assert g == (t + "/" + g)[|t| + 1..];
  }
}
