/** String primitives of the two host languages, written out so that the rest of
    the model can use them with their exact semantics: JavaScript's and Python's
    white-space sets and trimming, substring search and first-occurrence
    replacement, splitting on one character, decimal rendering of integers, and
    the UTF-16 length JavaScript reports for a string. Strings are sequences of
    Unicode scalar values; ASCII case mapping is the only case mapping modelled. */
module Text {
  import opened Wrappers

  /** White space in the sense of ECMA-262 (WhiteSpace and LineTerminator): the
      set used by the `\s` regular-expression class and by `String.prototype.trim`. */
  predicate IsJsSpace(c: char) {
    || c == '\t' || c == '\n' || c == '\U{000B}' || c == '\U{000C}' || c == '\r' || c == ' '
    || c == '\U{00A0}' || c == '\U{1680}' || ('\U{2000}' <= c <= '\U{200A}')
    || c == '\U{2028}' || c == '\U{2029}' || c == '\U{202F}' || c == '\U{205F}'
    || c == '\U{3000}' || c == '\U{FEFF}'
  }

  /** White space in the sense of Python's `str.isspace`, the set `str.strip()` removes. */
  predicate IsPySpace(c: char) {
    || c == '\t' || c == '\n' || c == '\U{000B}' || c == '\U{000C}' || c == '\r'
    || ('\U{001C}' <= c <= '\U{001F}') || c == ' ' || c == '\U{0085}' || c == '\U{00A0}'
    || c == '\U{1680}' || ('\U{2000}' <= c <= '\U{200A}') || c == '\U{2028}' || c == '\U{2029}'
    || c == '\U{202F}' || c == '\U{205F}' || c == '\U{3000}'
  }

  predicate IsAsciiLower(c: char) { 'a' <= c <= 'z' }
  predicate IsAsciiUpper(c: char) { 'A' <= c <= 'Z' }
  predicate IsDigit(c: char) { '0' <= c <= '9' }
  predicate IsAsciiAlnum(c: char) { IsAsciiLower(c) || IsAsciiUpper(c) || IsDigit(c) }

  // ---------------------------------------------------------------------------
  // Trimming
  // ---------------------------------------------------------------------------

  /** The first position at or after `i` whose character is not white space
      (`|s|` when there is none). */
  function StartOf(s: string, ws: char -> bool, i: nat): (j: nat)
    requires i <= |s|
    ensures i <= j <= |s|
    ensures forall k :: i <= k < j ==> ws(s[k])
    ensures j < |s| ==> !ws(s[j])
    decreases |s| - i
  {
    if i < |s| && ws(s[i]) then StartOf(s, ws, i + 1) else i
  }

  /** The end of the last character before `j`, and not before `lo`, that is
      not white space (`lo` when there is none). */
  function EndOf(s: string, ws: char -> bool, lo: nat, j: nat): (e: nat)
    requires lo <= j <= |s|
    ensures lo <= e <= j
    ensures forall k :: e <= k < j ==> ws(s[k])
    ensures e > lo ==> !ws(s[e - 1])
    decreases j
  {
    if j > lo && ws(s[j - 1]) then EndOf(s, ws, lo, j - 1) else j
  }

  /** Drops the longest prefix of characters satisfying `ws`. */
  function TrimStart(s: string, ws: char -> bool): (r: string)
    ensures |r| <= |s| && r == s[|s| - |r|..]
    ensures forall k :: 0 <= k < |s| - |r| ==> ws(s[k])
    ensures r != [] ==> !ws(r[0])
  {
    s[StartOf(s, ws, 0)..]
  }

  /** Both ends trimmed: the result is a slice of `s` that neither starts nor
      ends with white space, and it is empty exactly when `s` is all white space. */
  function Strip(s: string, ws: char -> bool): (r: string)
    ensures r != [] ==> !ws(r[0]) && !ws(r[|r| - 1])
    ensures r == [] <==> forall k :: 0 <= k < |s| ==> ws(s[k])
    ensures |r| <= |s|
    ensures forall k :: 0 <= k < |r| ==> r[k] in s
  {
    var i := StartOf(s, ws, 0);
    var j := EndOf(s, ws, i, |s|);
    assert forall k :: 0 <= k < j - i ==> s[i..j][k] == s[i + k];
    s[i..j]
  }

  /** A string that neither starts nor ends with white space is its own strip. */
  lemma StripKeeps(s: string, ws: char -> bool)
    requires s != [] && !ws(s[0]) && !ws(s[|s| - 1])
    ensures Strip(s, ws) == s
  {
    assert StartOf(s, ws, 0) == 0;
    assert EndOf(s, ws, 0, |s|) == |s|;
  }

  /** `String.prototype.trim`. */
  function JsTrim(s: string): string {
    Strip(s, IsJsSpace)
  }

  /** Python's `str.strip()` with no argument. */
  function PyStrip(s: string): string {
    Strip(s, IsPySpace)
  }

  // ---------------------------------------------------------------------------
  // Case mapping (ASCII letters only)
  // ---------------------------------------------------------------------------

  function LowerChar(c: char): char {
    if IsAsciiUpper(c) then (c as int + 32) as char else c
  }

  function UpperChar(c: char): char {
    if IsAsciiLower(c) then (c as int - 32) as char else c
  }

  function Lower(s: string): (r: string)
    ensures |r| == |s|
    ensures forall k :: 0 <= k < |s| ==> r[k] == LowerChar(s[k])
  {
    seq(|s|, k requires 0 <= k < |s| => LowerChar(s[k]))
  }

  /** Lowering a slice is slicing the lowered text. */
  lemma LowerSlice(s: string, i: int, j: int)
    requires 0 <= i <= j <= |s|
    ensures Lower(s)[i..j] == Lower(s[i..j])
  {
    assert forall k :: 0 <= k < j - i ==> Lower(s)[i..j][k] == LowerChar(s[i + k]);
  }

  /** Text without capitals is its own lower-case form. */
  lemma LowerKeepsLowercase(s: string)
    requires forall k :: 0 <= k < |s| ==> !IsAsciiUpper(s[k])
    ensures Lower(s) == s
  {
  }

  /** Lower-casing twice is lower-casing once. */
  lemma LowerIdempotent(s: string)
    ensures Lower(Lower(s)) == Lower(s)
  {
    forall k | 0 <= k < |s|
      ensures Lower(Lower(s))[k] == Lower(s)[k]
    {
      assert !IsAsciiUpper(LowerChar(s[k]));
    }
  }

  lemma LowerKeepsSpace(c: char)
    ensures IsPySpace(LowerChar(c)) <==> IsPySpace(c)
    ensures IsJsSpace(LowerChar(c)) <==> IsJsSpace(c)
  {
  }

  // ---------------------------------------------------------------------------
  // Substring search and replacement
  // ---------------------------------------------------------------------------

  predicate OccursAt(s: string, pat: string, i: nat) {
    i + |pat| <= |s| && s[i..i + |pat|] == pat
  }

  /** The first position at or after `from` where `pat` occurs. */
  function IndexFrom(s: string, pat: string, from: nat): (r: Option<nat>)
    requires from <= |s|
    ensures r.Some? ==> from <= r.value <= |s| && OccursAt(s, pat, r.value)
    ensures r.Some? ==> forall j :: from <= j < r.value ==> !OccursAt(s, pat, j)
    ensures r.None? ==> forall j :: from <= j <= |s| ==> !OccursAt(s, pat, j)
    decreases |s| - from
  {
    if OccursAt(s, pat, from) then Some(from)
    else if from == |s| then None
    else IndexFrom(s, pat, from + 1)
  }

  /** `String.prototype.indexOf` / `str.find`: the first occurrence of `pat`, if any. */
  function IndexOf(s: string, pat: string): (r: Option<nat>)
    ensures r.Some? ==> OccursAt(s, pat, r.value) && forall j :: 0 <= j < r.value ==> !OccursAt(s, pat, j)
    ensures r.None? <==> forall j :: 0 <= j <= |s| ==> !OccursAt(s, pat, j)
  {
    IndexFrom(s, pat, 0)
  }

  /** `String.prototype.includes` / Python's `in` on strings. */
  predicate Contains(s: string, pat: string) {
    IndexOf(s, pat).Some?
  }

  lemma ContainsAt(s: string, pat: string, i: nat)
    requires OccursAt(s, pat, i)
    ensures Contains(s, pat)
  {
  }

  /** A text lacking one of the pattern's characters cannot contain it. */
  lemma MissingCharNotContains(s: string, pat: string, k: nat)
    requires k < |pat| && pat[k] !in s
    ensures !Contains(s, pat)
  {
    forall j | 0 <= j <= |s|
      ensures !OccursAt(s, pat, j)
    {
      if j + |pat| <= |s| {
        assert s[j..j + |pat|][k] == s[j + k];
      }
    }
  }

  lemma ContainsPiece(a: string, pat: string, b: string)
    ensures Contains(a + pat + b, pat)
  {
    assert (a + pat + b)[|a|..|a| + |pat|] == pat;
    ContainsAt(a + pat + b, pat, |a|);
  }

  /** `String.prototype.replace` with a string pattern and a replacement free of
      `$` patterns: only the first occurrence is replaced. */
  function ReplaceFirst(s: string, pat: string, v: string): (r: string)
    ensures !Contains(s, pat) ==> r == s
    ensures Contains(s, pat) ==>
      var i := IndexOf(s, pat).value;
      |r| == |s| - |pat| + |v| && r[..i] == s[..i] && r[i..i + |v|] == v && r[i + |v|..] == s[i + |pat|..]
  {
    match IndexOf(s, pat)
    case None => s
    case Some(i) => s[..i] + v + s[i + |pat|..]
  }

  // ---------------------------------------------------------------------------
  // Splitting on one character
  // ---------------------------------------------------------------------------

  /** The pieces joined back with `sep` between consecutive pieces. */
  function Join(parts: seq<string>, sep: char): string
    requires |parts| >= 1
  {
    if |parts| == 1 then parts[0] else parts[0] + [sep] + Join(parts[1..], sep)
  }

  /** The first position of `c` in `s`. */
  function CharIndex(s: string, c: char): (i: nat)
    requires c in s
    ensures i < |s| && s[i] == c && c !in s[..i]
  {
    if s[0] == c then 0 else 1 + CharIndex(s[1..], c)
  }

  lemma CharIndexIs(s: string, c: char, j: nat)
    requires j < |s| && s[j] == c && c !in s[..j]
    ensures c in s && CharIndex(s, c) == j
  {
    assert c in s;
    var i := CharIndex(s, c);
    assert i <= j by {
      assert s[..i + 1] <= s;
    }
    assert s[..j][..i] == s[..i] || i == j;
  }

  /** `String.prototype.split` with a one-character separator: at least one piece,
      no piece contains the separator, and joining the pieces gives `s` back. */
  function Split(s: string, sep: char): (parts: seq<string>)
    ensures |parts| >= 1
    ensures forall k :: 0 <= k < |parts| ==> sep !in parts[k]
    ensures Join(parts, sep) == s
    decreases |s|
  {
    if sep !in s then [s]
    else
      var i := CharIndex(s, sep);
      var rest := Split(s[i + 1..], sep);
      assert s == s[..i] + [sep] + s[i + 1..];
      [s[..i]] + rest
  }

  /** Splitting undoes joining when no piece holds the separator. */
  lemma {:induction false} SplitJoin(parts: seq<string>, sep: char)
    requires |parts| >= 1
    requires forall k :: 0 <= k < |parts| ==> sep !in parts[k]
    ensures Split(Join(parts, sep), sep) == parts
    decreases |parts|
  {
    if |parts| > 1 {
      var tail := Join(parts[1..], sep);
      assert Join(parts, sep) == parts[0] + [sep] + tail;
      SplitCons(parts[0], sep, tail);
      SplitJoin(parts[1..], sep);
      assert parts == [parts[0]] + parts[1..];
    }
  }

  /** Splitting stops at the first separator. */
  lemma SplitCons(head: string, sep: char, tail: string)
    requires sep !in head
    ensures Split(head + [sep] + tail, sep) == [head] + Split(tail, sep)
  {
    var s := head + [sep] + tail;
    assert s[|head|] == sep;
    assert s[..|head|] == head;
    CharIndexIs(s, sep, |head|);
    assert s[|head| + 1..] == tail;
  }

  // ---------------------------------------------------------------------------
  // Decimal rendering
  // ---------------------------------------------------------------------------

  function DigitChar(d: nat): (c: char)
    requires d < 10
    ensures IsDigit(c)
  {
    ('0' as int + d) as char
  }

  function DigitValue(c: char): nat
    requires IsDigit(c)
  {
    c as int - '0' as int
  }

  predicate AllDigits(s: string) {
    forall k :: 0 <= k < |s| ==> IsDigit(s[k])
  }

  /** The number a string of decimal digits denotes. */
  function DecimalValue(s: string): nat
    requires AllDigits(s)
  {
    if s == [] then 0 else DecimalValue(s[..|s| - 1]) * 10 + DigitValue(s[|s| - 1])
  }

  /** `String(n)` for a non-negative integer: digits, no leading zero, and the
      digits denote `n`. */
  function NatToString(n: nat): (r: string)
    ensures |r| >= 1 && AllDigits(r)
    ensures DecimalValue(r) == n
    ensures r[0] == '0' ==> n == 0
    decreases n
  {
    if n < 10 then [DigitChar(n)]
    else
      var r := NatToString(n / 10) + [DigitChar(n % 10)];
      assert r[..|r| - 1] == NatToString(n / 10);
      r
  }

  /** `String(i)` for any integer. */
  function IntToString(i: int): (r: string)
    ensures i >= 0 ==> r == NatToString(i)
    ensures i < 0 ==> r == "-" + NatToString(-i)
  {
    if i >= 0 then NatToString(i) else "-" + NatToString(-i)
  }

  /** Four-digit numbers render as exactly four digits. */
  lemma {:induction false} FourDigits(n: nat)
    requires 1000 <= n <= 9999
    ensures |NatToString(n)| == 4
  {
    var a := n / 10;
    var b := a / 10;
    var c := b / 10;
    assert 100 <= a <= 999 && 10 <= b <= 99 && 1 <= c <= 9;
    assert |NatToString(c)| == 1;
    NatToStringStep(b);
    NatToStringStep(a);
    NatToStringStep(n);
  }

  /** Each further decimal place adds one digit. */
  lemma NatToStringStep(n: nat)
    requires n >= 10
    ensures |NatToString(n)| == |NatToString(n / 10)| + 1
  {
  }

  // ---------------------------------------------------------------------------
  // Lengths as JavaScript reports them
  // ---------------------------------------------------------------------------

  /** `String.prototype.length`: UTF-16 code units, so characters outside the
      Basic Multilingual Plane count twice. */
  function JsLength(s: string): (n: nat)
    ensures |s| <= n <= 2 * |s|
  {
    if s == [] then 0
    else (if s[0] as int >= 0x1_0000 then 2 else 1) + JsLength(s[1..])
  }

  /** A character of the Basic Multilingual Plane: one UTF-16 code unit. */
  predicate InBmp(c: char) {
    c as int < 0x1_0000
  }

  /** The UTF-16 code units of `s`, as `substring`, `charAt`, `split("")`
      and `length` index them. A Basic Multilingual Plane character is one
      unit; any other character is two units, its surrogate halves, and each
      half is written here as the character it belongs to, since a Dafny
      character cannot be a lone surrogate. Neither half is ASCII, so every
      test the callers make on a unit (a digit, white space, a sign) answers
      as it would on the surrogate itself. */
  function CodeUnits(s: string): (u: string)
    ensures |u| == JsLength(s)
  {
    if s == [] then []
    else (if InBmp(s[0]) then [s[0]] else [s[0], s[0]]) + CodeUnits(s[1..])
  }

  /** A string of Basic Multilingual Plane characters is its own code units. */
  lemma {:induction false} BmpCodeUnits(s: string)
    requires forall k :: 0 <= k < |s| ==> InBmp(s[k])
    ensures CodeUnits(s) == s
  {
    if s != [] {
      BmpCodeUnits(s[1..]);
    }
  }

  /** The units of a string are those of its first character, then those of
      the rest. */
  lemma CodeUnitsCons(c: char, s: string)
    ensures CodeUnits([c] + s) == (if InBmp(c) then [c] else [c, c]) + CodeUnits(s)
  {
    assert ([c] + s)[1..] == s;
  }

  // ---------------------------------------------------------------------------
  // Hexadecimal digits
  // ---------------------------------------------------------------------------

  predicate IsHexDigit(c: char) {
    IsDigit(c) || 'a' <= c <= 'f' || 'A' <= c <= 'F'
  }

  function HexDigitValue(c: char): (v: nat)
    requires IsHexDigit(c)
    ensures v < 16
  {
    if IsDigit(c) then c as int - '0' as int
    else if 'a' <= c <= 'f' then c as int - 'a' as int + 10
    else c as int - 'A' as int + 10
  }

  /** Upper-case hexadecimal digit, as percent-encoding emits it. */
  function HexDigitChar(v: nat): (c: char)
    requires v < 16
    ensures IsHexDigit(c) && HexDigitValue(c) == v
  {
    if v < 10 then ('0' as int + v) as char else ('A' as int + v - 10) as char
  }
}
