/** Colour arithmetic of the web client: the light/dark test and text colour of
    Frontend/src/utils/color.ts, its variant in Frontend/src/pages/CreateCard.tsx,
    and the contrast colour of Frontend/src/pages/Card.tsx.

    The source compares floating-point luma values; here each comparison is
    scaled to exact integers (0.2126 r + 0.7152 g + 0.0722 b < 128 becomes
    2126 r + 7152 g + 722 b < 1 280 000, and (0.299 r + 0.587 g + 0.114 b) / 255
    > 0.5 becomes 299 r + 587 g + 114 b > 127 500). */
module Colors {
  import opened Wrappers
  import opened Text

  // ---------------------------------------------------------------------------
  // parseInt(s, 16)
  // ---------------------------------------------------------------------------

  /** The length of the longest prefix of `s` made of hexadecimal digits. */
  function HexRun(s: string): (n: nat)
    ensures n <= |s|
    ensures forall k :: 0 <= k < n ==> IsHexDigit(s[k])
    ensures n < |s| ==> !IsHexDigit(s[n])
  {
    if s == [] || !IsHexDigit(s[0]) then 0 else 1 + HexRun(s[1..])
  }

  function Pow16(n: nat): (p: nat)
    ensures p >= 1
  {
    if n == 0 then 1 else 16 * Pow16(n - 1)
  }

  /** The value of a string of hexadecimal digits, most significant first. */
  function HexValue(s: string): nat
    requires forall k :: 0 <= k < |s| ==> IsHexDigit(s[k])
  {
    if s == [] then 0 else HexDigitValue(s[0]) * Pow16(|s| - 1) + HexValue(s[1..])
  }

  /** What follows an optional leading sign. */
  function Unsigned(t: string): (u: string)
    ensures |u| <= |t|
  {
    if t != [] && (t[0] == '-' || t[0] == '+') then t[1..] else t
  }

  /** What follows an optional `0x` or `0X` prefix. */
  function Unprefixed(u: string): (w: string)
    ensures |w| <= |u|
  {
    if |u| >= 2 && u[0] == '0' && (u[1] == 'x' || u[1] == 'X') then u[2..] else u
  }

  /** The text `parseInt(s, 16)` reads digits from. */
  function DigitText(s: string): string {
    Unprefixed(Unsigned(TrimStart(s, IsJsSpace)))
  }

  /** `parseInt(s, 16)`: leading whitespace is skipped, then an optional sign
      and an optional `0x`/`0X`, then the longest run of hexadecimal digits is
      read; `None` stands for `NaN`, when that run is empty. */
  function ParseIntHex(s: string): (r: Option<int>)
    ensures r.None? <==> HexRun(DigitText(s)) == 0
  {
    var t := TrimStart(s, IsJsSpace);
    var w := DigitText(s);
    var n := HexRun(w);
    if n == 0 then None
    else
      var v: int := HexValue(w[..n]);
      Some(if t != [] && t[0] == '-' then -v else v)
  }

  lemma ParseHexDigits(s: string)
    requires s != [] && forall k :: 0 <= k < |s| ==> IsHexDigit(s[k])
    requires !(|s| >= 2 && s[0] == '0' && (s[1] == 'x' || s[1] == 'X'))
    ensures ParseIntHex(s) == Some(HexValue(s))
  {
    var w := DigitText(s);
    var t := TrimStart(s, IsJsSpace);
    assert w == s && t == s by {
      HexDigitText(s);
    }
    var n := HexRun(w);
    assert n == |s|;
    assert w[..n] == s;
    assert !(t != [] && t[0] == '-') by {
      HexIsNotSign(s[0]);
    }
  }

  lemma HexIsNotSign(c: char)
    requires IsHexDigit(c)
    ensures c != '-' && c != '+'
  {
  }

  /** Hexadecimal digits are read as they stand: no white space, sign or
      prefix is skipped. */
  lemma HexDigitText(s: string)
    requires s != [] && IsHexDigit(s[0])
    requires !(|s| >= 2 && s[0] == '0' && (s[1] == 'x' || s[1] == 'X'))
    ensures TrimStart(s, IsJsSpace) == s && DigitText(s) == s
  {
    assert TrimStart(s, IsJsSpace) == s by {
      assert !IsJsSpace(s[0]);
      assert StartOf(s, IsJsSpace, 0) == 0;
    }
    UnsignedKeeps(s);
    assert Unprefixed(s) == s;
  }

  /** Text starting with a character outside the Basic Multilingual Plane
      (or with either of its surrogate halves) parses as `NaN`: it is not
      white space, a sign, a zero or a hexadecimal digit. */
  lemma AstralUnparsable(s: string)
    requires s != [] && !InBmp(s[0])
    ensures ParseIntHex(s).None?
  {
    var c := s[0];
    assert !IsJsSpace(c) && !IsHexDigit(c) && c != '-' && c != '+' && c != '0' by {
      assert c as int >= 0x1_0000;
    }
    assert StartOf(s, IsJsSpace, 0) == 0;
    assert TrimStart(s, IsJsSpace) == s;
    assert Unsigned(s) == s;
    assert Unprefixed(s) == s;
    assert HexRun(DigitText(s)) == 0;
  }

  lemma UnsignedKeeps(s: string)
    requires s != [] && IsHexDigit(s[0])
    ensures Unsigned(s) == s
  {
    HexIsNotSign(s[0]);
  }

  // ---------------------------------------------------------------------------
  // 32-bit operators
  // ---------------------------------------------------------------------------

  const Two32: int := 0x1_0000_0000

  /** `ToInt32`: the operand of `>>` taken modulo 2^32 as a signed value;
      `NaN` becomes 0. */
  function ToInt32(v: Option<int>): (r: int)
    ensures -0x8000_0000 <= r < 0x8000_0000
    ensures v.Some? ==> (r - v.value) % Two32 == 0
  {
    match v
    case None => 0
    case Some(x) =>
      var w := x % Two32;
      if w >= 0x8000_0000 then w - Two32 else w
  }

  /** `x >> 16` on an int32: an arithmetic shift, i.e. division by 2^16
      rounded down (Dafny's `/` by a positive divisor rounds down). */
  function Sar16(x: int): int {
    x / 0x1_0000
  }

  /** `x >> 8` on an int32. */
  function Sar8(x: int): int {
    x / 0x100
  }

  /** `x & 0xff` on an int32: the low byte of its two's complement. */
  function LowByte(x: int): (b: int)
    ensures 0 <= b < 256
  {
    x % 256
  }

  datatype Rgb = Rgb(r: int, g: int, b: int)

  /** The channels `isDarkColor` extracts from the parsed number. */
  function Channels(rgb: Option<int>): (c: Rgb)
    ensures 0 <= c.r < 256 && 0 <= c.g < 256 && 0 <= c.b < 256
  {
    var x := ToInt32(rgb);
    Rgb(LowByte(Sar16(x)), LowByte(Sar8(x)), LowByte(x))
  }

  // ---------------------------------------------------------------------------
  // color.ts
  // ---------------------------------------------------------------------------

  /** BT.709 luma below 128, scaled by 10 000. */
  predicate DarkLuma(c: Rgb) {
    2126 * c.r + 7152 * c.g + 722 * c.b < 1_280_000
  }

  /** `s.substring(1)`: every UTF-16 code unit but the first. For a first
      character outside the Basic Multilingual Plane that keeps its second
      half. */
  function DropFirstUnit(s: string): (r: string)
    ensures s == [] ==> r == []
    ensures s != [] && InBmp(s[0]) ==> r == CodeUnits(s[1..])
    ensures s != [] && !InBmp(s[0]) ==> r == [s[0]] + CodeUnits(s[1..])
  {
    var u := CodeUnits(s);
    if u == [] then []
    else
      CodeUnitsCons(s[0], s[1..]);
      assert [s[0]] + s[1..] == s;
      u[1..]
  }

  /** `isDarkColor` of color.ts: drop the first code unit, parse the rest as
      hexadecimal, split into bytes and compare the luma. A first character
      in the Basic Multilingual Plane is dropped unread; one outside it
      leaves its second half in front, so nothing parses and the colour is
      dark. */
  function IsDarkColor(hex: string): (dark: bool)
    ensures hex == [] ==> dark
    ensures hex != [] && InBmp(hex[0]) ==> dark == DarkLuma(Channels(ParseIntHex(CodeUnits(hex[1..]))))
    ensures hex != [] && !InBmp(hex[0]) ==> dark
  {
    var c := DropFirstUnit(hex);
    NothingParsedIsDark(c);
    DarkLuma(Channels(ParseIntHex(c)))
  }

  /** `NaN`, and a string starting with a half of an astral character, read
      as black, which is dark. */
  lemma NothingParsedIsDark(c: string)
    ensures c == [] || !InBmp(c[0]) ==> DarkLuma(Channels(ParseIntHex(c)))
  {
    if c != [] && !InBmp(c[0]) {
      AstralUnparsable(c);
    }
    assert Channels(None) == Rgb(0, 0, 0) by {
      assert Sar16(0) == 0 && Sar8(0) == 0 && LowByte(0) == 0;
    }
  }

  /** `getTextColor`: white on dark backgrounds, black otherwise. */
  function TextColor(bg: string): (r: string)
    ensures r == "#ffffff" || r == "#000000"
    ensures r == "#ffffff" <==> IsDarkColor(bg)
  {
    if IsDarkColor(bg) then "#ffffff" else "#000000"
  }

  predicate AllHex(s: string) {
    forall k :: 0 <= k < |s| ==> IsHexDigit(s[k])
  }

  /** The value of two hexadecimal digits. */
  function HexPair(hi: char, lo: char): (v: int)
    requires IsHexDigit(hi) && IsHexDigit(lo)
    ensures 0 <= v < 256
  {
    16 * HexDigitValue(hi) + HexDigitValue(lo)
  }

  lemma SixDigitValue(c: string)
    requires |c| == 6 && AllHex(c)
    ensures HexValue(c) == 65536 * HexPair(c[0], c[1]) + 256 * HexPair(c[2], c[3]) + HexPair(c[4], c[5])
  {
    assert Pow16(5) == 0x10_0000 && Pow16(4) == 0x1_0000 && Pow16(3) == 0x1000;
    assert Pow16(2) == 0x100 && Pow16(1) == 0x10 && Pow16(0) == 1;
    assert c[1..][1..] == c[2..] && c[2..][1..] == c[3..] && c[3..][1..] == c[4..] && c[4..][1..] == c[5..];
    assert c[5..][1..] == [];
    var d := seq(6, k requires 0 <= k < 6 => HexDigitValue(c[k]));
    assert HexValue(c[5..]) == d[5];
    assert HexValue(c[4..]) == d[4] * 16 + d[5];
    assert HexValue(c[3..]) == d[3] * 0x100 + d[4] * 16 + d[5];
    assert HexValue(c[2..]) == d[2] * 0x1000 + d[3] * 0x100 + d[4] * 16 + d[5];
    assert HexValue(c[1..]) == d[1] * 0x1_0000 + d[2] * 0x1000 + d[3] * 0x100 + d[4] * 16 + d[5];
  }

  lemma ChannelsOfValue(v: int, r: int, g: int, b: int)
    requires 0 <= r < 256 && 0 <= g < 256 && 0 <= b < 256
    requires v == 65536 * r + 256 * g + b
    ensures Channels(Some(v)) == Rgb(r, g, b)
  {
    assert ToInt32(Some(v)) == v;
    assert v / 0x1_0000 == r;
    assert v / 0x100 == 256 * r + g;
  }

  /** For a `#RRGGBB` colour the red, green and blue channels are exactly the
      three digit pairs, in that order. */
  lemma ChannelsOfSixDigits(hex: string)
    requires |hex| == 7 && AllHex(hex[1..])
    ensures Channels(ParseIntHex(hex[1..])) == Rgb(HexPair(hex[1], hex[2]), HexPair(hex[3], hex[4]), HexPair(hex[5], hex[6]))
  {
    var c := hex[1..];
    var r, g, b := HexPair(hex[1], hex[2]), HexPair(hex[3], hex[4]), HexPair(hex[5], hex[6]);
    var v := HexValue(c);
    assert ParseIntHex(c) == Some(v) by {
      assert !(c[1] == 'x' || c[1] == 'X');
      ParseHexDigits(c);
    }
    assert v == 65536 * r + 256 * g + b by {
      SixDigitValue(c);
    }
    ChannelsOfValue(v, r, g, b);
  }

  /** For `#RRGGBB` (any first character in the Basic Multilingual Plane),
      the background is dark exactly when the weighted digit pairs fall below
      the BT.709 threshold; after an astral first character it is dark. */
  lemma DarkSixDigits(hex: string)
    requires |hex| == 7 && AllHex(hex[1..])
    ensures IsDarkColor(hex) <==> (!InBmp(hex[0]) ||
      2126 * HexPair(hex[1], hex[2]) + 7152 * HexPair(hex[3], hex[4]) + 722 * HexPair(hex[5], hex[6]) < 1_280_000)
  {
    if InBmp(hex[0]) {
      HexCodeUnits(hex[1..]);
      ChannelsOfSixDigits(hex);
    }
  }

  /** Without a parsable number every channel is 0, so the colour counts as dark. */
  lemma UnparsableIsDark(hex: string)
    requires ParseIntHex(DropFirstUnit(hex)).None?
    ensures IsDarkColor(hex) && TextColor(hex) == "#ffffff"
  {
    assert ToInt32(None) == 0;
    assert Channels(None) == Rgb(0, 0, 0) by {
      assert Sar16(0) == 0 && Sar8(0) == 0 && LowByte(0) == 0;
    }
    assert DarkLuma(Rgb(0, 0, 0));
  }

  // ---------------------------------------------------------------------------
  // CreateCard.tsx
  // ---------------------------------------------------------------------------

  /** The preview's `isDarkColor`: an empty colour is not dark; otherwise the
      same test as color.ts. */
  predicate PreviewIsDark(hex: string) {
    hex != "" && IsDarkColor(hex)
  }

  /** `getContrastingTextColor`: white on dark, slate grey otherwise. */
  function ContrastingTextColor(bg: string): (r: string)
    ensures r == "#ffffff" || r == "#2d3748"
    ensures r == "#ffffff" <==> bg != "" && IsDarkColor(bg)
  {
    if PreviewIsDark(bg) then "#ffffff" else "#2d3748"
  }

  /** The preview and color.ts agree on which backgrounds get white text,
      except the empty colour, which only color.ts treats as dark. */
  lemma PreviewAgreesWithTextColor(bg: string)
    ensures bg != "" ==> (ContrastingTextColor(bg) == "#ffffff" <==> TextColor(bg) == "#ffffff")
    ensures ContrastingTextColor("") == "#2d3748" && TextColor("") == "#ffffff"
  {
    UnparsableIsDark("");
  }

  // ---------------------------------------------------------------------------
  // Card.tsx
  // ---------------------------------------------------------------------------

  /** `s.substring(a, b)` for `a <= b`: both ends clamped to the length. */
  function Substring(s: string, a: nat, b: nat): (r: string)
    requires a <= b
    ensures |r| <= b - a
  {
    var lo := if a < |s| then a else |s|;
    var hi := if b < |s| then b else |s|;
    s[lo..hi]
  }

  /** Each character written twice: `c.split("").map(x => x + x).join("")`. */
  function DoubleEach(c: string): (r: string)
    ensures |r| == 2 * |c|
    ensures forall k :: 0 <= k < |c| ==> r[2 * k] == c[k] && r[2 * k + 1] == c[k]
  {
    if c == [] then [] else [c[0], c[0]] + DoubleEach(c[1..])
  }

  /** Light enough for black text: (0.299 r + 0.587 g + 0.114 b) / 255 > 0.5. */
  predicate LightLuminance(r: int, g: int, b: int) {
    299 * r + 587 * g + 114 * b > 127_500
  }

  /** The code units `getContrastColor` reads, three-unit shorthand expanded. */
  function ContrastDigits(hex: string): string {
    var c := DropFirstUnit(hex);
    if |c| == 3 then DoubleEach(c) else c
  }

  /** `getContrastColor`: "#fff" for an empty colour; otherwise the three
      digit pairs are parsed one by one and black is chosen exactly when all
      three are numbers and the luminance exceeds one half (a `NaN` channel
      makes the comparison false). */
  function ContrastColor(hex: string): (res: string)
    ensures res == "#000" || res == "#fff"
    ensures hex == "" ==> res == "#fff"
    ensures hex != "" && !InBmp(hex[0]) ==> res == "#fff"
    ensures res == "#000" <==> (hex != "" &&
      var c := ContrastDigits(hex);
      var r, g, b := ParseIntHex(Substring(c, 0, 2)), ParseIntHex(Substring(c, 2, 4)), ParseIntHex(Substring(c, 4, 6));
      r.Some? && g.Some? && b.Some? && LightLuminance(r.value, g.value, b.value))
  {
    if hex == "" then "#fff"
    else
      var c := ContrastDigits(hex);
      var r := ParseIntHex(Substring(c, 0, 2));
      var g := ParseIntHex(Substring(c, 2, 4));
      var b := ParseIntHex(Substring(c, 4, 6));
      assert !InBmp(hex[0]) ==> r.None? by {
        if !InBmp(hex[0]) {
          assert c[0] == hex[0];
          AstralUnparsable(Substring(c, 0, 2));
        }
      }
      if r.Some? && g.Some? && b.Some? && LightLuminance(r.value, g.value, b.value) then "#000" else "#fff"
  }

  lemma TwoDigitValue(s: string)
    requires |s| == 2 && AllHex(s)
    ensures HexValue(s) == HexPair(s[0], s[1])
  {
    assert s[1..][1..] == [];
    assert Pow16(1) == 16 && Pow16(0) == 1;
    assert HexValue(s[1..]) == HexDigitValue(s[1]) * Pow16(0) + HexValue(s[1..][1..]);
    assert HexValue(s) == HexDigitValue(s[0]) * Pow16(1) + HexValue(s[1..]);
  }

  lemma ParsePair(hi: char, lo: char)
    requires IsHexDigit(hi) && IsHexDigit(lo)
    ensures ParseIntHex([hi, lo]) == Some(HexPair(hi, lo))
  {
    var s := [hi, lo];
    assert AllHex(s);
    assert lo != 'x' && lo != 'X';
    ParseHexDigits(s);
    TwoDigitValue(s);
  }

  /** For `#RRGGBB` (any first character in the Basic Multilingual Plane),
      black text is chosen exactly when the weighted digit pairs exceed the
      threshold; after an astral first character the text is white. */
  lemma ContrastSixDigits(hex: string)
    requires |hex| == 7 && AllHex(hex[1..])
    ensures ContrastColor(hex) == "#000" <==> (InBmp(hex[0]) &&
      LightLuminance(HexPair(hex[1], hex[2]), HexPair(hex[3], hex[4]), HexPair(hex[5], hex[6])))
  {
    if !InBmp(hex[0]) {
      return;
    }
    var c := hex[1..];
    UnitsAfterBmpFirst(hex);
    assert Substring(c, 0, 2) == [hex[1], hex[2]];
    assert Substring(c, 2, 4) == [hex[3], hex[4]];
    assert Substring(c, 4, 6) == [hex[5], hex[6]];
    ParsePair(hex[1], hex[2]);
    ParsePair(hex[3], hex[4]);
    ParsePair(hex[5], hex[6]);
  }

  /** After a Basic Multilingual Plane character, hexadecimal digits are read
      as they stand. */
  lemma UnitsAfterBmpFirst(hex: string)
    requires hex != [] && InBmp(hex[0]) && AllHex(hex[1..]) && |hex| != 4
    ensures DropFirstUnit(hex) == hex[1..] && ContrastDigits(hex) == hex[1..]
  {
    HexCodeUnits(hex[1..]);
  }

  /** After a Basic Multilingual Plane character, `substring(1)` leaves
      hexadecimal digits as they stand. */
  lemma DropBeforeDigits(hex: string)
    requires hex != [] && InBmp(hex[0]) && AllHex(hex[1..])
    ensures DropFirstUnit(hex) == hex[1..]
  {
    HexCodeUnits(hex[1..]);
  }

  lemma DoubleThree(c: string)
    requires |c| == 3
    ensures DoubleEach(c) == [c[0], c[0], c[1], c[1], c[2], c[2]]
  {
    var d := DoubleEach(c);
    assert d[0] == c[0] && d[1] == c[0] && d[2] == c[1] && d[3] == c[1] && d[4] == c[2] && d[5] == c[2];
  }

  /** The units `getContrastColor` reads for `#RGB` are those of `#RRGGBB`. */
  lemma ShorthandDigits(hex: string)
    requires |hex| == 4 && AllHex(hex[1..]) && InBmp(hex[0])
    ensures ContrastDigits(hex) == ContrastDigits([hex[0], hex[1], hex[1], hex[2], hex[2], hex[3], hex[3]])
  {
    var long := [hex[0], hex[1], hex[1], hex[2], hex[2], hex[3], hex[3]];
    var c := hex[1..];
    DropBeforeDigits(hex);
    DoubleThree(c);
    assert DoubleEach(c) == long[1..];
    assert AllHex(long[1..]);
    DropBeforeDigits(long);
  }

  /** An astral character after a first character in the Basic Multilingual
      Plane is written as two units. */
  lemma AstralSecondUnits(p: char, d: char, rest: string)
    requires InBmp(p) && !InBmp(d) && AllHex(rest)
    ensures CodeUnits([p, d] + rest) == [p, d, d] + rest
  {
    var tail := [d] + rest;
    assert [p, d] + rest == [p] + tail;
    HexCodeUnits(rest);
    CodeUnitsCons(d, rest);
    CodeUnitsCons(p, tail);
  }

  /** Hexadecimal digits are single code units. */
  lemma HexCodeUnits(c: string)
    requires AllHex(c)
    ensures CodeUnits(c) == c
  {
    BmpCodeUnits(c);
  }

  /** The shorthand `#RGB` gets the same text colour as `#RRGGBB`. */
  lemma ShorthandExpands(hex: string)
    requires |hex| == 4 && AllHex(hex[1..])
    ensures ContrastColor(hex) == ContrastColor([hex[0], hex[1], hex[1], hex[2], hex[2], hex[3], hex[3]])
  {
    var long := [hex[0], hex[1], hex[1], hex[2], hex[2], hex[3], hex[3]];
    if InBmp(hex[0]) {
      ShorthandDigits(hex);
    } else {
      assert long[0] == hex[0];
    }
  }

  /** After an astral first character `substring(1)` keeps its second half,
      which parses as nothing: an emoji followed by "ffffff" is dark, although
      "#ffffff" is not. */
  lemma AstralFirstIsDark(d: char)
    requires !InBmp(d)
    ensures IsDarkColor([d] + "ffffff") && !IsDarkColor("#ffffff")
  {
    DarkSixDigits("#ffffff");
    assert HexPair('f', 'f') == 255;
  }

  lemma HexSecondIsLight(e: char)
    requires IsHexDigit(e)
    ensures ContrastColor(['#', 'f', e, 'f', 'f', 'f', 'f']) == "#000"
  {
    var light := ['#', 'f', e, 'f', 'f', 'f', 'f'];
    assert AllHex(light[1..]);
    ContrastSixDigits(light);
    assert HexPair('f', e) >= 240 && HexPair('f', 'f') == 255;
  }

  /** An astral character among the digits takes two code units, so the
      pairs `substring` cuts shift: "#f", an emoji and "ffff" get white text,
      while "#f", any hex digit and "ffff" get black. */
  lemma AstralDigitShiftsPairs(d: char, e: char)
    requires !InBmp(d) && IsHexDigit(e)
    ensures ContrastColor(['#', 'f', d, 'f', 'f', 'f', 'f']) == "#fff"
    ensures ContrastColor(['#', 'f', e, 'f', 'f', 'f', 'f']) == "#000"
  {
    var hex := ['#', 'f', d, 'f', 'f', 'f', 'f'];
    var rest := ['f', 'f', 'f', 'f'];
    assert AllHex(rest);
    assert hex[1..] == ['f', d] + rest;
    AstralSecondUnits('f', d, rest);
    var c := ['f', d, d] + rest;
    assert DropFirstUnit(hex) == c;
    assert Substring(c, 2, 4) == [d, 'f'];
    AstralUnparsable(Substring(c, 2, 4));
    HexSecondIsLight(e);
  }
}
