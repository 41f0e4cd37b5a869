/** Percent-encoding as the browser performs it on the two sides of a forced
    sign-out: `encodeURIComponent` when the return path is put into the login
    URL, and the `application/x-www-form-urlencoded` parsing behind
    `URLSearchParams.get` when the login page reads it back. Characters are
    encoded as their UTF-8 bytes (RFC 3629), each byte written `%HH` with
    upper-case hexadecimal digits (section 2.1 of RFC 3986). */
module Uri {
  import opened Wrappers
  import opened Text

  type Byte = b: int | 0 <= b < 256

  /** The characters `encodeURIComponent` copies unchanged. */
  predicate Unescaped(c: char) {
    IsAsciiAlnum(c) || c == '-' || c == '_' || c == '.' || c == '!' || c == '~'
    || c == '*' || c == '\'' || c == '(' || c == ')'
  }

  // ---------------------------------------------------------------------------
  // UTF-8
  // ---------------------------------------------------------------------------

  predicate IsContinuation(b: Byte) { 0x80 <= b < 0xC0 }

  /** The UTF-8 encoding of one Unicode scalar value. */
  function Utf8Char(c: char): (bs: seq<Byte>)
    ensures 1 <= |bs| <= 4
    ensures bs[0] < 0x80 <==> c as int < 0x80
  {
    var n := c as int;
    if n < 0x80 then [n]
    else if n < 0x800 then [0xC0 + n / 64, 0x80 + n % 64]
    else if n < 0x1_0000 then [0xE0 + n / 4096, 0x80 + n / 64 % 64, 0x80 + n % 64]
    else [0xF0 + n / 0x4_0000, 0x80 + n / 4096 % 64, 0x80 + n / 64 % 64, 0x80 + n % 64]
  }

  function Utf8(s: string): seq<Byte> {
    if s == [] then [] else Utf8Char(s[0]) + Utf8(s[1..])
  }

  /** Decodes the character at the front of `bs`, with the number of bytes it
      takes; `None` for a malformed, overlong or surrogate sequence. */
  function DecodeFirst(bs: seq<Byte>): (r: Option<(char, nat)>)
    requires |bs| >= 1
    ensures r.Some? ==> 1 <= r.value.1 <= |bs|
  {
    var b0 := bs[0] as int;
    if b0 < 0x80 then Some((b0 as char, 1))
    else if 0xC2 <= b0 < 0xE0 then
      if |bs| >= 2 && IsContinuation(bs[1]) then
        Some((((b0 - 0xC0) * 64 + (bs[1] as int - 0x80)) as char, 2))
      else None
    else if 0xE0 <= b0 < 0xF0 then
      if |bs| >= 3 && IsContinuation(bs[1]) && IsContinuation(bs[2]) then
        var n := (b0 - 0xE0) * 4096 + (bs[1] as int - 0x80) * 64 + (bs[2] as int - 0x80);
        if 0x800 <= n && !(0xD800 <= n < 0xE000) then Some((n as char, 3)) else None
      else None
    else if 0xF0 <= b0 < 0xF5 then
      if |bs| >= 4 && IsContinuation(bs[1]) && IsContinuation(bs[2]) && IsContinuation(bs[3]) then
        var n := (b0 - 0xF0) * 0x4_0000 + (bs[1] as int - 0x80) * 4096
          + (bs[2] as int - 0x80) * 64 + (bs[3] as int - 0x80);
        if 0x1_0000 <= n < 0x11_0000 then Some((n as char, 4)) else None
      else None
    else None
  }

  /** Strict UTF-8 decoding; `None` when the bytes are not well-formed UTF-8. */
  function Utf8Decode(bs: seq<Byte>): Option<string>
    decreases |bs|
  {
    if bs == [] then Some([])
    else
      match DecodeFirst(bs)
      case None => None
      case Some(p) =>
        match Utf8Decode(bs[p.1..])
        case None => None
        case Some(rest) => Some([p.0] + rest)
  }

  lemma Div64(n: nat)
    ensures n / 64 / 64 == n / 4096
    ensures n / 4096 / 64 == n / 0x4_0000
  {
    var q := n / 64;
    assert n == q * 64 + n % 64;
    var q2 := q / 64;
    assert q == q2 * 64 + q % 64;
    assert n == q2 * 4096 + (q % 64) * 64 + n % 64;
    var q3 := q2 / 64;
    assert q2 == q3 * 64 + q2 % 64;
    assert n == q3 * 0x4_0000 + (q2 % 64) * 4096 + (q % 64) * 64 + n % 64;
  }

  /** The bytes of one character decode to that character, whatever follows. */
  lemma DecodeUtf8Char(c: char, rest: seq<Byte>)
    ensures DecodeFirst(Utf8Char(c) + rest) == Some((c, |Utf8Char(c)|))
  {
    var n := c as int;
    var bs := Utf8Char(c) + rest;
    if n < 0x80 {
    } else if n < 0x800 {
      assert (bs[0] as int - 0xC0) * 64 + (bs[1] as int - 0x80) == n;
    } else if n < 0x1_0000 {
      Div64(n);
      assert (bs[0] as int - 0xE0) * 4096 + (bs[1] as int - 0x80) * 64 + (bs[2] as int - 0x80) == n;
    } else {
      Div64(n);
      assert (bs[0] as int - 0xF0) * 0x4_0000 + (bs[1] as int - 0x80) * 4096
        + (bs[2] as int - 0x80) * 64 + (bs[3] as int - 0x80) == n;
    }
  }

  /** UTF-8 decoding undoes UTF-8 encoding. */
  lemma {:induction false} Utf8RoundTrip(s: string)
    ensures Utf8Decode(Utf8(s)) == Some(s)
  {
    if s != [] {
      var bs := Utf8(s);
      assert bs == Utf8Char(s[0]) + Utf8(s[1..]);
      DecodeUtf8Char(s[0], Utf8(s[1..]));
      assert bs[|Utf8Char(s[0])|..] == Utf8(s[1..]);
      Utf8RoundTrip(s[1..]);
      assert s == [s[0]] + s[1..];
    }
  }

  // ---------------------------------------------------------------------------
  // encodeURIComponent
  // ---------------------------------------------------------------------------

  /** One byte written as `%HH`. */
  function Pct(b: Byte): string {
    ['%', HexDigitChar(b / 16), HexDigitChar(b % 16)]
  }

  function PctAll(bs: seq<Byte>): string {
    if bs == [] then [] else Pct(bs[0]) + PctAll(bs[1..])
  }

  function EncodeChar(c: char): string {
    if Unescaped(c) then [c] else PctAll(Utf8Char(c))
  }

  /** Every character `EncodeUriComponent` produces is unescaped or `%`. */
  predicate EncodedAlphabet(t: string) {
    forall k :: 0 <= k < |t| ==> Unescaped(t[k]) || t[k] == '%'
  }

  lemma PctAllAlphabet(bs: seq<Byte>)
    ensures EncodedAlphabet(PctAll(bs))
  {
    if bs != [] {
      PctAllAlphabet(bs[1..]);
    }
  }

  /** `encodeURIComponent`: unescaped characters copied, every other character
      replaced by its percent-encoded UTF-8 bytes. The output therefore holds
      none of the delimiters `&`, `=`, `+`, `#`, `?`, `/`. */
  function EncodeUriComponent(s: string): (t: string)
    ensures EncodedAlphabet(t)
    ensures |s| <= |t|
  {
    if s == [] then []
    else
      PctAllAlphabet(Utf8Char(s[0]));
      EncodeChar(s[0]) + EncodeUriComponent(s[1..])
  }

  // ---------------------------------------------------------------------------
  // Decoding
  // ---------------------------------------------------------------------------

  /** Percent-decoding of the UTF-8 encoding of `t`: a `%` followed by two
      hexadecimal digits becomes that byte, anything else its own UTF-8 bytes. */
  function PercentDecode(t: string): seq<Byte>
    decreases |t|
  {
    if t == [] then []
    else if |t| >= 3 && t[0] == '%' && IsHexDigit(t[1]) && IsHexDigit(t[2]) then
      [HexDigitValue(t[1]) * 16 + HexDigitValue(t[2])] + PercentDecode(t[3..])
    else Utf8Char(t[0]) + PercentDecode(t[1..])
  }

  /** Decoding of one percent-encoded component; `None` where the browser would
      substitute replacement characters for malformed UTF-8. */
  function DecodeUriComponent(t: string): Option<string> {
    Utf8Decode(PercentDecode(t))
  }

  lemma {:induction false} PercentDecodePctAll(bs: seq<Byte>, rest: string)
    ensures PercentDecode(PctAll(bs) + rest) == bs + PercentDecode(rest)
  {
    if bs != [] {
      var u := PctAll(bs[1..]) + rest;
      assert PctAll(bs) + rest == Pct(bs[0]) + u;
      PercentDecodePct(bs[0], u);
      PercentDecodePctAll(bs[1..], rest);
      assert bs == [bs[0]] + bs[1..];
    } else {
      assert PctAll(bs) + rest == rest;
    }
  }

  /** One escape decodes to its byte. */
  lemma PercentDecodePct(b: Byte, u: string)
    ensures PercentDecode(Pct(b) + u) == [b] + PercentDecode(u)
  {
    var t := Pct(b) + u;
    assert t[3..] == u;
    assert t[0] == '%' && t[1] == HexDigitChar(b / 16) && t[2] == HexDigitChar(b % 16);
    assert HexDigitValue(t[1]) * 16 + HexDigitValue(t[2]) == b;
  }

  lemma {:induction false} PercentDecodeEncode(s: string)
    ensures PercentDecode(EncodeUriComponent(s)) == Utf8(s)
  {
    if s != [] {
      var rest := EncodeUriComponent(s[1..]);
      var t := EncodeUriComponent(s);
      assert t == EncodeChar(s[0]) + rest;
      if Unescaped(s[0]) {
        assert t[1..] == rest;
      } else {
        PercentDecodePctAll(Utf8Char(s[0]), rest);
      }
      PercentDecodeEncode(s[1..]);
    }
  }

  /** `decodeURIComponent(encodeURIComponent(s)) == s` for every string. */
  lemma EncodeDecodeRoundTrip(s: string)
    ensures DecodeUriComponent(EncodeUriComponent(s)) == Some(s)
  {
    PercentDecodeEncode(s);
    Utf8RoundTrip(s);
  }

  // ---------------------------------------------------------------------------
  // Query strings
  // ---------------------------------------------------------------------------

  function PlusToSpace(t: string): (r: string)
    ensures |r| == |t|
    ensures forall k :: 0 <= k < |t| ==> r[k] == if t[k] == '+' then ' ' else t[k]
  {
    seq(|t|, k requires 0 <= k < |t| => if t[k] == '+' then ' ' else t[k])
  }

  /** Decoding of a name or value of an `application/x-www-form-urlencoded` pair. */
  function FormDecode(t: string): Option<string> {
    DecodeUriComponent(PlusToSpace(t))
  }

  /** The first pair named `name`, decoded. */
  function FirstValue(pairs: seq<string>, name: string): Option<string> {
    if pairs == [] then None
    else
      var p := pairs[0];
      if p == [] then FirstValue(pairs[1..], name)
      else
        var n := if '=' in p then p[..CharIndex(p, '=')] else p;
        var v := if '=' in p then p[CharIndex(p, '=') + 1..] else "";
        if FormDecode(n) == Some(name) then FormDecode(v) else FirstValue(pairs[1..], name)
  }

  /** `new URLSearchParams(search).get(name)`; a leading `?` is ignored. */
  function SearchParamsGet(search: string, name: string): Option<string> {
    var q := if search != [] && search[0] == '?' then search[1..] else search;
    FirstValue(Split(q, '&'), name)
  }

  /** `location.search` of an href: from the first `?` up to the fragment, or
      empty when there is no query. */
  function SearchOf(href: string): string {
    if '?' in href then
      var q := href[CharIndex(href, '?')..];
      if '#' in q then q[..CharIndex(q, '#')] else q
    else ""
  }

  /** The search part of a path without '?' followed by a query without '#'
      is that query. */
  lemma SearchOfAppended(base: string, q: string)
    requires '?' !in base && q != [] && q[0] == '?' && '#' !in q
    ensures SearchOf(base + q) == q
  {
    var href := base + q;
    assert href[|base|] == '?';
    assert href[..|base|] == base;
    CharIndexIs(href, '?', |base|);
    assert href[|base|..] == q;
  }

  lemma EncodeUnescaped(s: string)
    requires forall k :: 0 <= k < |s| ==> Unescaped(s[k])
    ensures EncodeUriComponent(s) == s
  {
    if s != [] {
      EncodeUnescaped(s[1..]);
      assert s == [s[0]] + s[1..];
    }
  }

  lemma NoPlusInEncoded(t: string)
    requires EncodedAlphabet(t)
    ensures PlusToSpace(t) == t
  {
  }

  lemma DecodeUnescapedName(name: string)
    requires forall k :: 0 <= k < |name| ==> Unescaped(name[k])
    ensures FormDecode(name) == Some(name)
  {
    EncodeUnescaped(name);
    NoPlusInEncoded(name);
    EncodeDecodeRoundTrip(name);
  }

  lemma DecodeEncodedValue(value: string)
    ensures FormDecode(EncodeUriComponent(value)) == Some(value)
  {
    NoPlusInEncoded(EncodeUriComponent(value));
    EncodeDecodeRoundTrip(value);
  }

  lemma SplitNameValue(name: string, e: string)
    requires '=' !in name
    ensures var p := name + "=" + e;
      '=' in p && p[..CharIndex(p, '=')] == name && p[CharIndex(p, '=') + 1..] == e
  {
    var p := name + "=" + e;
    assert p[|name|] == '=';
    assert p[..|name|] == name;
    CharIndexIs(p, '=', |name|);
  }

  /** A value written with `encodeURIComponent` into a single-parameter query is
      read back unchanged by `URLSearchParams.get`, for any value. */
  lemma SingleParamRoundTrip(name: string, value: string)
    requires name != [] && forall k :: 0 <= k < |name| ==> Unescaped(name[k])
    ensures SearchParamsGet("?" + name + "=" + EncodeUriComponent(value), name) == Some(value)
  {
    var e := EncodeUriComponent(value);
    var p := name + "=" + e;
    assert ("?" + name + "=" + e)[1..] == p;
    assert '&' !in name;
    assert '&' !in e;
    assert '&' !in p;
    assert Split(p, '&') == [p];
    SplitNameValue(name, e);
    DecodeUnescapedName(name);
    DecodeEncodedValue(value);
    assert FirstValue([p], name) == Some(value);
  }
}
