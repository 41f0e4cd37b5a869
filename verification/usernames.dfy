/** Username helpers of the web client (Frontend/src/utils/username.ts): the
    format check shown while onboarding, and the random suggestion. */
module Usernames {
  import opened Wrappers
  import opened Text

  const RequiredMessage := "Username is required"
  const TooShortMessage := "Username must be at least 3 characters"
  const CharsetMessage := "Only letters, numbers, and underscores allowed"

  /** A character of the class `[a-zA-Z0-9_]`. */
  predicate IsWordChar(c: char) {
    IsAsciiAlnum(c) || c == '_'
  }

  predicate AllWordChars(s: string) {
    forall k :: 0 <= k < |s| ==> IsWordChar(s[k])
  }

  /** `validateUsernameFormat`: the checks apply in order (blank, then the
      untrimmed UTF-16 length, then `^[a-zA-Z0-9_]+$`) and the first that fails
      names the error; `None` means the name is well-formed. */
  function ValidateUsernameFormat(u: string): (r: Option<string>)
    ensures r == Some(RequiredMessage) <==> JsTrim(u) == ""
    ensures r == Some(TooShortMessage) <==> JsTrim(u) != "" && JsLength(u) < 3
    ensures r == Some(CharsetMessage) <==> JsTrim(u) != "" && JsLength(u) >= 3 && !AllWordChars(u)
    ensures r.None? <==> JsTrim(u) != "" && JsLength(u) >= 3 && AllWordChars(u)
  {
    if JsTrim(u) == "" then Some(RequiredMessage)
    else if JsLength(u) < 3 then Some(TooShortMessage)
    else if !AllWordChars(u) then Some(CharsetMessage)
    else None
  }

  /** A well-formed name is at least three characters of `[A-Za-z0-9_]`. */
  lemma WellFormedIffWordChars(u: string)
    ensures ValidateUsernameFormat(u).None? <==> |u| >= 3 && AllWordChars(u)
  {
    if |u| >= 3 && AllWordChars(u) {
      assert !IsJsSpace(u[0]);
      assert JsTrim(u) != "";
      assert JsLength(u) >= |u|;
    }
    if ValidateUsernameFormat(u).None? {
      JsLengthOfWordChars(u);
    }
  }

  lemma {:induction false} JsLengthOfWordChars(u: string)
    requires AllWordChars(u)
    ensures JsLength(u) == |u|
  {
    if u != [] {
      JsLengthOfWordChars(u[1..]);
      JsLengthStep(u);
    }
  }

  lemma JsLengthStep(u: string)
    requires u != [] && (u[0] as int) < 0x10000
    ensures JsLength(u) == 1 + JsLength(u[1..])
  {
  }

  /** The digits `Math.floor(1000 + random * 9000)` renders, for a random
      number in [0, 1). */
  function RandomSuffix(random: real): (n: nat)
    requires 0.0 <= random < 1.0
    ensures 1000 <= n <= 9999
  {
    (1000.0 + random * 9000.0).Floor
  }

  /** `generateRandomUsername(base)` with the random number as an input. */
  function GenerateRandomUsername(base: string, random: real): (r: string)
    requires 0.0 <= random < 1.0
    ensures |r| == |base| + 4 && r[..|base|] == base
    ensures AllDigits(r[|base|..]) && r[|base|] != '0'
    ensures 1000 <= DecimalValue(r[|base|..]) <= 9999
  {
    var n := RandomSuffix(random);
    var digits := NatToString(n);
    FourDigits(n);
    var r := base + digits;
    assert r[|base|..] == digits;
    r
  }

  /** A suggestion built on a base of word characters passes the format check,
      so the onboarding page never suggests a name it would then refuse. */
  lemma GeneratedIsWellFormed(base: string, random: real)
    requires 0.0 <= random < 1.0 && AllWordChars(base)
    ensures ValidateUsernameFormat(GenerateRandomUsername(base, random)).None?
  {
    var r := GenerateRandomUsername(base, random);
    assert AllWordChars(r) by {
      forall k | 0 <= k < |r| ensures IsWordChar(r[k]) {
        if k < |base| {
          assert r[k] == r[..|base|][k];
        } else {
          assert r[k] == r[|base|..][k - |base|];
        }
      }
    }
    WellFormedIffWordChars(r);
  }
}
