/** Client-side form validation (Frontend/src/utils/validate-form.ts): the
    password strength score, the registration form check, the sign-in form
    check and the strength meter. */
module FormValidation {
  import opened Wrappers
  import opened Text

  // ---------------------------------------------------------------------------
  // Password strength
  // ---------------------------------------------------------------------------

  /** The five password checks, in the order they are listed and reported. */
  datatype Check = MinLength | Lowercase | Uppercase | Digit | Special

  const Checks: seq<Check> := [MinLength, Lowercase, Uppercase, Digit, Special]

  function Rank(c: Check): (n: nat)
    ensures n < 5 && Checks[n] == c
  {
    match c
    case MinLength => 0
    case Lowercase => 1
    case Uppercase => 2
    case Digit => 3
    case Special => 4
  }

  /** The characters of the class `[!@#$%^&*(),.?":{}|<>]`. */
  predicate IsSpecial(c: char) {
    c in "!@#$%^&*(),.?\":{}|<>"
  }

  predicate SomeChar(p: string, test: char -> bool) {
    exists k :: 0 <= k < |p| && test(p[k])
  }

  /** Whether `p` passes a check. Length is JavaScript's, in UTF-16 code
      units; `\d` and the letter classes are ASCII. */
  predicate Passes(c: Check, p: string) {
    match c
    case MinLength => JsLength(p) >= 8
    case Lowercase => SomeChar(p, IsAsciiLower)
    case Uppercase => SomeChar(p, IsAsciiUpper)
    case Digit => SomeChar(p, IsDigit)
    case Special => SomeChar(p, IsSpecial)
  }

  function Message(c: Check): string {
    match c
    case MinLength => "At least 8 characters"
    case Lowercase => "At least one lowercase letter"
    case Uppercase => "At least one uppercase letter"
    case Digit => "At least one number"
    case Special => "At least one special character"
  }

  lemma MessageInjective(a: Check, b: Check)
    ensures Message(a) == Message(b) ==> a == b
  {
  }

  lemma RankOfCheck(k: nat)
    requires k < 5
    ensures Rank(Checks[k]) == k
  {
  }

  /** The checks from position `k` on that `p` fails, in check order. */
  function FailedFrom(k: nat, p: string): (r: seq<Check>)
    requires k <= 5
    ensures |r| <= 5 - k
    ensures forall c :: c in r <==> k <= Rank(c) && !Passes(c, p)
    ensures forall i, j :: 0 <= i < j < |r| ==> Rank(r[i]) < Rank(r[j])
    decreases 5 - k
  {
    if k == 5 then []
    else
      var rest := FailedFrom(k + 1, p);
      RankOfCheck(k);
      if Passes(Checks[k], p) then rest else [Checks[k]] + rest
  }

  /** The checks `p` fails, in check order. */
  function Failed(p: string): seq<Check> {
    FailedFrom(0, p)
  }

  function Messages(cs: seq<Check>): (ms: seq<string>)
    ensures |ms| == |cs| && forall i :: 0 <= i < |cs| ==> ms[i] == Message(cs[i])
  {
    if cs == [] then [] else [Message(cs[0])] + Messages(cs[1..])
  }

  lemma MessagesMembership(cs: seq<Check>, c: Check)
    ensures Message(c) in Messages(cs) <==> c in cs
  {
    var ms := Messages(cs);
    if Message(c) in ms {
      var i :| 0 <= i < |ms| && ms[i] == Message(c);
      MessageInjective(cs[i], c);
    }
    if c in cs {
      var i :| 0 <= i < |cs| && cs[i] == c;
      assert ms[i] == Message(c);
    }
  }

  datatype PasswordStrength = PasswordStrength(score: int, feedback: seq<string>, isValid: bool)

  /** `validatePasswordStrength`: the feedback names exactly the failed checks,
      each once; the score counts the passed ones; a password is valid when at
      most one check fails. */
  function ValidatePasswordStrength(p: string): (r: PasswordStrength)
    ensures 0 <= r.score <= 5 && r.score == 5 - |r.feedback|
    ensures forall c :: Message(c) in r.feedback <==> !Passes(c, p)
    ensures forall i, j :: 0 <= i < j < |r.feedback| ==> r.feedback[i] != r.feedback[j]
    ensures r.isValid <==> r.score >= 4
  {
    var failed := Failed(p);
    var feedback := Messages(failed);
    forall c ensures Message(c) in feedback <==> !Passes(c, p) {
      MessagesMembership(failed, c);
    }
    forall i, j | 0 <= i < j < |feedback| ensures feedback[i] != feedback[j] {
      MessageInjective(failed[i], failed[j]);
    }
    var score := |Checks| - |feedback|;
    PasswordStrength(score, feedback, score >= 4)
  }

  /** Valid exactly when no more than one check fails: a password missing only
      a special character, say, is still accepted. */
  lemma ValidIffAtMostOneFailure(p: string)
    ensures ValidatePasswordStrength(p).isValid <==> |Failed(p)| <= 1
  {
  }

  /** The feedback lists the failed checks' messages in the order the checks
      are declared. */
  lemma FeedbackInCheckOrder(p: string)
    ensures var fb := ValidatePasswordStrength(p).feedback;
      var failed := Failed(p);
      |fb| == |failed|
      && (forall i :: 0 <= i < |fb| ==> fb[i] == Message(failed[i]))
      && forall i, j :: 0 <= i < j < |failed| ==> Rank(failed[i]) < Rank(failed[j])
  {
  }

  // ---------------------------------------------------------------------------
  // E-mail address pattern
  // ---------------------------------------------------------------------------

  /** A run of `[^\s@]+`: non-empty, no whitespace, no `@`. */
  predicate Segment(s: string) {
    s != [] && forall k :: 0 <= k < |s| ==> !IsJsSpace(s[k]) && s[k] != '@'
  }

  /** The language of `^[^\s@]+@[^\s@]+\.[^\s@]+$`: some `@` at `i` and some
      `.` at `j` cut the address into three segments. */
  ghost predicate EmailPattern(s: string) {
    exists i, j :: 0 < i && i + 1 < j && j + 1 < |s| && s[i] == '@' && s[j] == '.'
      && Segment(s[..i]) && Segment(s[i + 1..j]) && Segment(s[j + 1..])
  }

  function CountChar(s: string, c: char): (n: nat)
    ensures n == 0 <==> c !in s
  {
    if s == [] then 0 else (if s[0] == c then 1 else 0) + CountChar(s[1..], c)
  }

  /** `EMAIL_REGEX.test`, decided directly: one `@`, no whitespace, something
      before the `@`, and a `.` strictly inside the part after it. */
  predicate MatchesEmail(s: string) {
    && (forall k :: 0 <= k < |s| ==> !IsJsSpace(s[k]))
    && CountChar(s, '@') == 1
    && var at := CharIndex(s, '@');
       var domain := s[at + 1..];
       at > 0 && |domain| >= 3 && '.' in domain[1..|domain| - 1]
  }

  lemma CountOne(s: string, i: nat)
    requires i < |s| && s[i] == '@' && CountChar(s, '@') == 1
    ensures forall k :: 0 <= k < |s| && k != i ==> s[k] != '@'
    decreases |s|
  {
    if i > 0 {
      assert s[1..][i - 1] == '@';
      assert s[0] != '@';
      CountOne(s[1..], i - 1);
      forall k | 0 < k < |s| && k != i ensures s[k] != '@' {
        assert s[1..][k - 1] == s[k];
      }
    } else {
      assert '@' !in s[1..];
      forall k | 0 < k < |s| ensures s[k] != '@' {
        assert s[1..][k - 1] == s[k];
      }
    }
  }

  lemma CountOnlyOne(s: string, i: nat)
    requires i < |s| && s[i] == '@'
    requires forall k :: 0 <= k < |s| && k != i ==> s[k] != '@'
    ensures CountChar(s, '@') == 1
    decreases |s|
  {
    if i > 0 {
      assert s[1..][i - 1] == '@';
      CountOnlyOne(s[1..], i - 1);
    } else {
      assert '@' !in s[1..] by {
        forall k | 0 <= k < |s[1..]| ensures s[1..][k] != '@' {
          assert s[1..][k] == s[k + 1];
        }
      }
    }
  }

  /** Characters that may appear in a segment. */
  predicate SegmentChar(c: char) {
    !IsJsSpace(c) && c != '@'
  }

  lemma SliceSegment(s: string, a: nat, b: nat)
    requires a < b <= |s|
    requires forall k :: a <= k < b ==> SegmentChar(s[k])
    ensures Segment(s[a..b])
  {
    forall k | 0 <= k < b - a ensures !IsJsSpace(s[a..b][k]) && s[a..b][k] != '@' {
      assert s[a..b][k] == s[a + k];
    }
  }

  lemma SegmentChars(s: string, a: nat, b: nat)
    requires a <= b <= |s| && Segment(s[a..b])
    ensures forall k :: a <= k < b ==> SegmentChar(s[k])
  {
    forall k | a <= k < b ensures SegmentChar(s[k]) {
      assert s[k] == s[a..b][k - a];
    }
  }

  lemma MatchesEmailGivesPattern(s: string)
    requires MatchesEmail(s)
    ensures EmailPattern(s)
  {
    var at := CharIndex(s, '@');
    var domain := s[at + 1..];
    var m := domain[1..|domain| - 1];
    var d :| 0 <= d < |m| && m[d] == '.';
    var j := at + 2 + d;
    assert s[j] == m[d];
    CountOne(s, at);
    SliceSegment(s, 0, at);
    SliceSegment(s, at + 1, j);
    SliceSegment(s, j + 1, |s|);
    assert s[..at] == s[0..at] && s[j + 1..] == s[j + 1..|s|];
  }

  lemma MatchesAt(s: string, i: nat, j: nat)
    requires 0 < i && i + 1 < j && j + 1 < |s| && s[i] == '@' && s[j] == '.'
    requires forall k :: 0 <= k < |s| && k != i ==> SegmentChar(s[k])
    ensures MatchesEmail(s)
  {
    assert forall k :: 0 <= k < |s| ==> !IsJsSpace(s[k]);
    CountOnlyOne(s, i);
    assert '@' !in s[..i] by {
      forall k | 0 <= k < i ensures s[..i][k] != '@' {
        assert s[..i][k] == s[k];
      }
    }
    CharIndexIs(s, '@', i);
    var domain := s[i + 1..];
    assert domain[1..|domain| - 1][j - i - 2] == '.';
  }

  lemma PatternGivesMatchesEmail(s: string)
    requires EmailPattern(s)
    ensures MatchesEmail(s)
  {
    var i, j :| 0 < i && i + 1 < j && j + 1 < |s| && s[i] == '@' && s[j] == '.'
      && Segment(s[..i]) && Segment(s[i + 1..j]) && Segment(s[j + 1..]);
    assert s[..i] == s[0..i] && s[j + 1..] == s[j + 1..|s|];
    SegmentChars(s, 0, i);
    SegmentChars(s, i + 1, j);
    SegmentChars(s, j + 1, |s|);
    assert forall k :: 0 <= k < |s| && k != i ==> SegmentChar(s[k]) by {
      forall k | 0 <= k < |s| && k != i
        ensures SegmentChar(s[k])
      {
        if k == j {
          assert s[k] == '.';
        }
      }
    }
    MatchesAt(s, i, j);
  }

  /** The direct decision agrees with the regular expression, both ways. */
  lemma MatchesEmailIffPattern(s: string)
    ensures MatchesEmail(s) <==> EmailPattern(s)
  {
    if MatchesEmail(s) {
      MatchesEmailGivesPattern(s);
    }
    if EmailPattern(s) {
      PatternGivesMatchesEmail(s);
    }
  }

  // ---------------------------------------------------------------------------
  // Registration form
  // ---------------------------------------------------------------------------

  datatype RegisterForm = RegisterForm(email: string, password: string, confirmPassword: string)

  /** What the availability request answered: the `available` field (absent
      when `None`), or the request failed, which makes the whole check throw. */
  datatype Availability = Answer(available: Option<bool>) | RequestFailed

  datatype FormErrors = FormErrors(email: Option<string>, password: Option<string>, confirmPassword: Option<string>)

  const NoErrors := FormErrors(None, None, None)

  datatype FormVerdict = FormVerdict(valid: bool, errors: FormErrors)

  /** The availability request is made only for a well-formed address. */
  predicate AsksAvailability(email: string) {
    email != "" && MatchesEmail(email)
  }

  function EmailError(email: string, availability: Availability): (e: Option<string>)
    requires AsksAvailability(email) ==> availability.Answer?
    ensures email == "" <==> e == Some("Email is required")
    ensures email != "" && !MatchesEmail(email) <==> e == Some("Please enter a valid email address")
    ensures e == Some("Email is already taken") <==> AsksAvailability(email) && availability.available == Some(false)
    ensures e.None? <==> AsksAvailability(email) && availability.available != Some(false)
  {
    if email == "" then Some("Email is required")
    else if !MatchesEmail(email) then Some("Please enter a valid email address")
    else if availability.available == Some(false) then Some("Email is already taken")
    else None
  }

  function PasswordError(password: string, strength: PasswordStrength): (e: Option<string>)
    ensures e == Some("Password is required") <==> password == ""
    ensures e == Some("Password does not meet strength requirements") <==> password != "" && !strength.isValid
    ensures e.None? <==> password != "" && strength.isValid
  {
    if password == "" then Some("Password is required")
    else if !strength.isValid then Some("Password does not meet strength requirements")
    else None
  }

  function ConfirmError(password: string, confirm: string): (e: Option<string>)
    ensures e == Some("Please confirm your password") <==> confirm == ""
    ensures e == Some("Passwords do not match") <==> confirm != "" && password != confirm
    ensures e.None? <==> confirm != "" && password == confirm
  {
    if confirm == "" then Some("Please confirm your password")
    else if password != confirm then Some("Passwords do not match")
    else None
  }

  /** `validateForm`: each field is judged on its own; the form is valid
      exactly when no field has an error. A failed availability request makes
      the whole check throw. The strength is the one the caller computed. */
  function ValidateForm(form: RegisterForm, strength: PasswordStrength, availability: Availability): (r: Result<FormVerdict, ()>)
    ensures r.Failure? <==> AsksAvailability(form.email) && availability.RequestFailed?
    ensures r.Success? ==> (r.value.valid <==> r.value.errors == NoErrors)
    ensures r.Success? ==> r.value.errors.email == EmailError(form.email, availability)
    ensures r.Success? ==> (r.value.errors.password == PasswordError(form.password, strength)
      && r.value.errors.confirmPassword == ConfirmError(form.password, form.confirmPassword))
  {
    if AsksAvailability(form.email) && availability.RequestFailed? then Failure(())
    else
      var errors := FormErrors(
        EmailError(form.email, availability),
        PasswordError(form.password, strength),
        ConfirmError(form.password, form.confirmPassword));
      Success(FormVerdict(errors == NoErrors, errors))
  }

  /** The availability answer only matters for a well-formed address, and only
      a literal `false` counts as taken: a missing or `true` answer passes. */
  lemma AvailabilityOnlyForWellFormed(form: RegisterForm, strength: PasswordStrength, a1: Availability, a2: Availability)
    requires !AsksAvailability(form.email)
    ensures ValidateForm(form, strength, a1) == ValidateForm(form, strength, a2)
  {
  }

  /** With the strength the page computes, a registration form is accepted
      exactly for a well-formed, not-taken address and a matching password
      that fails at most one check. */
  lemma RegistrationAccepted(form: RegisterForm, available: Option<bool>)
    ensures var r := ValidateForm(form, ValidatePasswordStrength(form.password), Answer(available));
      r.Success? && (r.value.valid <==>
        AsksAvailability(form.email) && available != Some(false)
        && form.password != "" && |Failed(form.password)| <= 1
        && form.confirmPassword == form.password)
  {
    ValidIffAtMostOneFailure(form.password);
  }

  // ---------------------------------------------------------------------------
  // Sign-in form
  // ---------------------------------------------------------------------------

  datatype LoginForm = LoginForm(email: string, password: string)
  datatype LoginErrors = LoginErrors(email: Option<string>, password: Option<string>)

  const EmailFormatMessage := "Please enter a valid email address"
  const PasswordLengthMessage := "Password must be at least 8 characters long"

  /** `validateLoginForm` against the sign-in schema (Frontend/src/types/auth.ts):
      the e-mail must pass the schema library's address check (`emailAccepted`,
      an input here) and the password must be at least 8 UTF-16 code units
      long. Each failing field gets its schema message; the form is valid iff
      no field fails. */
  function ValidateLoginForm(form: LoginForm, emailAccepted: bool): (r: (bool, LoginErrors))
    ensures r.1.email.Some? <==> !emailAccepted
    ensures r.1.email.Some? ==> r.1.email.value == EmailFormatMessage
    ensures r.1.password.Some? <==> JsLength(form.password) < 8
    ensures r.1.password.Some? ==> r.1.password.value == PasswordLengthMessage
    ensures r.0 <==> emailAccepted && JsLength(form.password) >= 8
  {
    var errors := LoginErrors(
      if emailAccepted then None else Some(EmailFormatMessage),
      if JsLength(form.password) >= 8 then None else Some(PasswordLengthMessage));
    (errors == LoginErrors(None, None), errors)
  }

  // ---------------------------------------------------------------------------
  // Strength meter
  // ---------------------------------------------------------------------------

  const StrengthColors := ["bg-red-500", "bg-orange-500", "bg-yellow-500", "bg-blue-500", "bg-green-500"]
  const StrengthLabels := ["Very Weak", "Weak", "Fair", "Good", "Strong"]

  datatype Display = Display(color: string, caption: string, width: string)

  /** `getPasswordStrengthDisplay`: nothing for an empty password; otherwise the
      colour and label of the score (grey and no label for score 0) and a width
      of 20% per point. */
  function StrengthDisplay(password: string, strength: PasswordStrength): (r: Option<Display>)
    requires 0 <= strength.score <= 5
    ensures r.None? <==> password == ""
    ensures r.Some? && strength.score == 0 ==> r.value.color == "bg-gray-200" && r.value.caption == ""
    ensures r.Some? && strength.score > 0 ==>
      r.value.color == StrengthColors[strength.score - 1] && r.value.caption == StrengthLabels[strength.score - 1]
    ensures r.Some? ==> r.value.width == NatToString(20 * strength.score) + "%"
  {
    if password == "" then None
    else
      var i := strength.score - 1;
      var color := if 0 <= i < |StrengthColors| then StrengthColors[i] else "bg-gray-200";
      var caption := if 0 <= i < |StrengthLabels| then StrengthLabels[i] else "";
      Some(Display(color, caption, NatToString(strength.score * 100 / 5) + "%"))
  }

  lemma FullScoreDisplay(password: string, strength: PasswordStrength)
    requires password != "" && strength.score == 5
    ensures StrengthDisplay(password, strength) == Some(Display("bg-green-500", "Strong", "100%"))
  {
    assert DigitChar(0) == '0' && DigitChar(1) == '1';
    assert NatToString(100) == NatToString(10) + [DigitChar(0)];
    assert NatToString(10) == NatToString(1) + [DigitChar(0)];
    assert NatToString(100) == "100";
    assert 5 * 100 / 5 == 100;
    var r := StrengthDisplay(password, strength);
    assert r.Some?;
    assert r.value.color == "bg-green-500";
    assert r.value.caption == "Strong";
    assert r.value.width == "100%";
  }

  lemma NothingFailed(p: string)
    requires forall c :: Passes(c, p)
    ensures Failed(p) == []
  {
  }

  /** A strong password (every check passed) shows a full green bar. */
  lemma StrongPasswordDisplay(password: string)
    requires forall c :: Passes(c, password)
    ensures password != ""
    ensures StrengthDisplay(password, ValidatePasswordStrength(password))
      == Some(Display("bg-green-500", "Strong", "100%"))
  {
    assert Passes(MinLength, password);
    NothingFailed(password);
    FullScoreDisplay(password, ValidatePasswordStrength(password));
  }
}
