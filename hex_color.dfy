/**
 * The integer and string side of the colour conversions in the Hue client:
 * `RGBtoXY` reads three channels out of a `#rrggbb` text with `parseInt(..., 16)`, and
 * `XYtoRGB` clamps, gamma-encodes and rounds three linear channels and prints them back
 * as `#rrggbb` with `Number.prototype.toString(16)`.
 *
 * The floating-point stages (the sRGB gamma of `RGBtoXY`, both colour matrices, the xy
 * division and `Math.pow`) are function parameters: the model fixes what the code does
 * around them, not the numbers they produce.
 */
module HexColor {
  import opened Js

  /** A number `parseInt` can return: an integer or `NaN`. */
  datatype JsNumber = Num(v: int) | NaN

  /** The three values read out of a colour text, each possibly `NaN`. */
  datatype Channels = Channels(red: JsNumber, green: JsNumber, blue: JsNumber)

  /** What `RGBtoXY` returns: chromaticity and the bridge brightness. */
  datatype XyColor = XyColor(x: real, y: real, brightness: int)

  /** The `{x, y, brightness}` argument of `XYtoRGB`, as read from a light's state. */
  datatype XyInput = XyInput(x: JsValue, y: JsValue, brightness: JsValue)

  /**
   * The three linear-light channels `XYtoRGB` gets from its colour matrix, taken to be
   * finite: the `NaN` and `Infinity` that `y = 0` or a missing brightness produce are not
   * represented.
   */
  datatype LinearRgb = LinearRgb(r: real, g: real, b: real)

  /** What `XYtoRGB` returns: the rounded channels and their hex text. */
  datatype Rgb = Rgb(r: int, g: int, b: int, hex: string)

  // ---------------------------------------------------------------------------
  // Reading hex text

  predicate IsHexDigit(c: char)
  {
    '0' <= c <= '9' || 'a' <= c <= 'f' || 'A' <= c <= 'F'
  }

  function HexValue(c: char): (d: nat)
    requires IsHexDigit(c)
    ensures d < 16
  {
    if '0' <= c <= '9' then (c as int) - ('0' as int)
    else if 'a' <= c <= 'f' then (c as int) - ('a' as int) + 10
    else (c as int) - ('A' as int) + 10
  }

  /** `s.substr(start, length)` for non-negative arguments: clipped to the end of `s`. */
  function Substr(s: string, start: nat, length: nat): (r: string)
    ensures |r| <= length
    ensures start + length <= |s| ==> r == s[start..start + length]
    ensures start < |s| < start + length ==> r == s[start..]
    ensures start >= |s| ==> r == ""
  {
    var b := if start < |s| then start else |s|;
    var e := if start + length < |s| then start + length else |s|;
    s[b..e]
  }

  /** The length of the longest prefix of `s` made of hex digits. */
  function HexPrefixLength(s: string): (n: nat)
    ensures n <= |s|
    ensures forall i :: 0 <= i < n ==> IsHexDigit(s[i])
    ensures n < |s| ==> !IsHexDigit(s[n])
  {
    if s == [] || !IsHexDigit(s[0]) then 0 else 1 + HexPrefixLength(s[1..])
  }

  /** The value of a hex numeral, most significant digit first. */
  function HexNumeral(s: string): nat
    requires forall i :: 0 <= i < |s| ==> IsHexDigit(s[i])
  {
    if s == [] then 0 else 16 * HexNumeral(s[..|s| - 1]) + HexValue(s[|s| - 1])
  }

  /**
   * `parseInt(s, 16)`: skip leading white space, take one optional sign, drop an optional
   * `0x`/`0X` prefix, then read the longest run of hex digits; `NaN` when that run is empty.
   * (A negative zero is the integer 0 here.) Blank text is `NaN`, and so is text that
   * starts with a character that is neither white space, a sign nor a hex digit; text that
   * starts with a hex digit and no `0x` is the value of its hex prefix.
   */
  function ParseInt16(s: string): (r: JsNumber)
    ensures (forall i :: 0 <= i < |s| ==> IsJsWhitespace(s[i])) ==> r == NaN
    ensures s != [] && !IsJsWhitespace(s[0]) && s[0] != '-' && s[0] != '+' && !IsHexDigit(s[0]) ==> r == NaN
    ensures s != [] && IsHexDigit(s[0]) && !(|s| >= 2 && s[0] == '0' && (s[1] == 'x' || s[1] == 'X')) ==>
      r == Num(HexNumeral(s[..HexPrefixLength(s)]))
  {
    TrimStartEmpty(s);
    var t := TrimStart(s);
    var negative := t != [] && t[0] == '-';
    var u := if t != [] && (t[0] == '-' || t[0] == '+') then t[1..] else t;
    var w := if |u| >= 2 && u[0] == '0' && (u[1] == 'x' || u[1] == 'X') then u[2..] else u;
    var digits := w[..HexPrefixLength(w)];
    if digits == [] then NaN
    else
      var n: int := HexNumeral(digits);
      if negative then Num(-n) else Num(n)
  }

  /**
   * The channel-reading part of `RGBtoXY`: skip one leading `#` if present, then
   * `parseInt` the two-character slices at offsets 0, 2 and 4.
   */
  function ParseChannels(rgb: string): Channels
  {
    var index := if |rgb| > 0 && rgb[0] == '#' then 1 else 0;
    Channels(ParseInt16(Substr(rgb, index, 2)),
             ParseInt16(Substr(rgb, index + 2, 2)),
             ParseInt16(Substr(rgb, index + 4, 2)))
  }

  /**
   * `RGBtoXY(rgb)`: the channels of `rgb` handed to the floating-point conversion
   * (normalise by 255, inverse gamma, sRGB-to-XYZ matrix, xy division, rounded brightness).
   */
  function RgbToXy(rgb: string, convert: Channels -> XyColor): XyColor
  {
    convert(ParseChannels(rgb))
  }

  /**
   * On a well-formed colour the floating-point stage of `RGBtoXY` receives exactly the
   * three two-digit group values, each in 0..255.
   */
  lemma RgbToXyReadsGroups(rgb: string, convert: Channels -> XyColor)
    requires WellFormedHex(rgb)
    ensures var d := HexBody(rgb);
      RgbToXy(rgb, convert) == convert(Channels(Num(PairValue(d[0], d[1])), Num(PairValue(d[2], d[3])), Num(PairValue(d[4], d[5]))))
  {
    ParseWellFormed(rgb);
  }

  /** The colour text `XYtoRGB` writes for channels in 0..255 reaches `RGBtoXY` as those channels. */
  lemma RgbToXyOfFormatted(r: nat, g: nat, b: nat, convert: Channels -> XyColor)
    requires r <= 255 && g <= 255 && b <= 255
    ensures RgbToXy(FormatHex(r, g, b), convert) == convert(Channels(Num(r), Num(g), Num(b)))
  {
    FormatRoundTrip(r, g, b);
  }

  /** Six hex digits, with or without one leading `#`. */
  predicate WellFormedHex(rgb: string)
  {
    (|rgb| == 6 && forall i :: 0 <= i < 6 ==> IsHexDigit(rgb[i])) ||
    (|rgb| == 7 && rgb[0] == '#' && forall i :: 1 <= i < 7 ==> IsHexDigit(rgb[i]))
  }

  /** The digits of a well-formed colour text, without its `#`. */
  function HexBody(rgb: string): (d: string)
    requires WellFormedHex(rgb)
    ensures |d| == 6 && forall i :: 0 <= i < 6 ==> IsHexDigit(d[i])
  {
    if |rgb| == 7 then rgb[1..] else rgb
  }

  function PairValue(a: char, b: char): (v: nat)
    requires IsHexDigit(a) && IsHexDigit(b)
    ensures v <= 255
  {
    16 * HexValue(a) + HexValue(b)
  }

  /** A hex digit is neither white space nor a sign, so `parseInt` starts reading at it. */
  lemma HexDigitStartsNumeral(s: string)
    requires s != [] && IsHexDigit(s[0])
    ensures TrimStart(s) == s
  {
  }

  lemma {:induction false} AllHexPrefix(s: string)
    requires forall i :: 0 <= i < |s| ==> IsHexDigit(s[i])
    ensures HexPrefixLength(s) == |s|
  {
    if s != [] {
      AllHexPrefix(s[1..]);
    }
  }

  /** `parseInt` of a text with no leading blank, sign or `0x`: the longest hex prefix, or `NaN`. */
  lemma ParseUnsigned(s: string)
    requires TrimStart(s) == s && (s == [] || (s[0] != '-' && s[0] != '+'))
    requires !(|s| >= 2 && s[0] == '0' && (s[1] == 'x' || s[1] == 'X'))
    ensures var n := HexPrefixLength(s);
      ParseInt16(s) == if n == 0 then NaN else Num(HexNumeral(s[..n]))
  {
    var n := HexPrefixLength(s);
    var digits := s[..n];
    assert digits == [] <==> n == 0;
  }

  /** `parseInt` of a non-empty run of hex digits is the numeral's value. */
  lemma ParseHexDigits(s: string)
    requires s != [] && forall i :: 0 <= i < |s| ==> IsHexDigit(s[i])
    ensures ParseInt16(s) == Num(HexNumeral(s))
  {
    HexDigitStartsNumeral(s);
    AllHexPrefix(s);
    assert |s| >= 2 ==> s[1] != 'x' && s[1] != 'X';
    ParseUnsigned(s);
    assert s[..|s|] == s;
  }

  /** `parseInt` of two hex digits is their value, which lies in 0..255. */
  lemma ParseTwoDigits(s: string)
    requires |s| == 2 && IsHexDigit(s[0]) && IsHexDigit(s[1])
    ensures ParseInt16(s) == Num(PairValue(s[0], s[1]))
  {
    ParseHexDigits(s);
    var p := s[..1];
    assert p[..0] == [];
    assert HexNumeral(p) == HexValue(s[0]);
    assert s[..|s| - 1] == p;
  }

  /**
   * On six hex digits (optionally after `#`), every channel is the value of its two-digit
   * group at offset 0, 2 or 4, so each lies in 0..255.
   */
  lemma ParseWellFormed(rgb: string)
    requires WellFormedHex(rgb)
    ensures var d := HexBody(rgb);
      ParseChannels(rgb) == Channels(Num(PairValue(d[0], d[1])), Num(PairValue(d[2], d[3])), Num(PairValue(d[4], d[5])))
    ensures var c := ParseChannels(rgb);
      c.red.Num? && c.green.Num? && c.blue.Num? &&
      0 <= c.red.v <= 255 && 0 <= c.green.v <= 255 && 0 <= c.blue.v <= 255
  {
    var d := HexBody(rgb);
    var index := if |rgb| == 7 then 1 else 0;
    assert rgb[0] == '#' <==> |rgb| == 7;
    assert Substr(rgb, index, 2) == d[0..2];
    assert Substr(rgb, index + 2, 2) == d[2..4];
    assert Substr(rgb, index + 4, 2) == d[4..6];
    ParseTwoDigits(d[0..2]);
    ParseTwoDigits(d[2..4]);
    ParseTwoDigits(d[4..6]);
  }

  /** Text that is not a hex colour is not rejected: unreadable groups become `NaN`. */
  lemma UnreadableGroupsAreNaN()
    ensures ParseChannels("zzz") == Channels(NaN, NaN, NaN)
    ensures ParseChannels("") == Channels(NaN, NaN, NaN)
  {
    var z := "zzz";
    assert Substr(z, 0, 2)[0] == 'z' && Substr(z, 2, 2)[0] == 'z' && Substr(z, 4, 2) == [];
    assert !IsJsWhitespace('z') && !IsHexDigit('z');
  }

  /** `parseInt` of one hex digit is its value. */
  lemma ParseOneDigit(s: string)
    requires |s| == 1 && IsHexDigit(s[0])
    ensures ParseInt16(s) == Num(HexValue(s[0]))
  {
    ParseHexDigits(s);
    assert s[..0] == [];
  }

  /** A `#` and five digits: the last group is the single digit left over. */
  lemma FiveDigitText(s: string)
    requires |s| == 6 && s[0] == '#' && forall i :: 1 <= i < 6 ==> IsHexDigit(s[i])
    ensures ParseChannels(s) == Channels(Num(PairValue(s[1], s[2])), Num(PairValue(s[3], s[4])), Num(HexValue(s[5])))
  {
    var red, green, blue := s[1..3], s[3..5], s[5..6];
    assert Substr(s, 1, 2) == red;
    assert Substr(s, 3, 2) == green;
    assert Substr(s, 5, 2) == blue;
    ParseTwoDigits(red);
    ParseTwoDigits(green);
    ParseOneDigit(blue);
  }

  /** A short text is read group by group as far as it goes: `#12345` gives 0x12, 0x34, 0x5. */
  lemma ShortTextReadsPartialGroup(s: string)
    requires |s| == 6 && s[0] == '#' && s[1] == '1' && s[2] == '2' && s[3] == '3' && s[4] == '4' && s[5] == '5'
    ensures ParseChannels(s) == Channels(Num(0x12), Num(0x34), Num(0x5))
  {
    assert forall i :: 1 <= i < 6 ==> s[i] == (('0' as int) + i) as char;
    assert forall i :: 1 <= i < 6 ==> IsHexDigit(s[i]) && HexValue(s[i]) == i;
    FiveDigitText(s);
  }

  /** A sign is accepted too, so a channel can come out negative: `-1ffff` reads red as -1. */
  lemma SignedGroupIsNegative(s: string)
    requires s == "-1ffff"
    ensures ParseChannels(s).red == Num(-1)
  {
    var t := Substr(s, 0, 2);
    assert t == s[0..2];
    assert t[0] == '-' && t[1] == '1';
    assert TrimStart(t) == t;
    var u := t[1..];
    assert u[0] == '1' && |u| == 1;
    AllHexPrefix(u);
    assert u[..1] == u;
    assert u[..0] == [];
    assert HexNumeral(u) == 1;
  }

  // ---------------------------------------------------------------------------
  // Writing hex text

  function HexDigitChar(d: nat): (c: char)
    requires d < 16
    ensures IsHexDigit(c) && HexValue(c) == d
    ensures !('A' <= c <= 'F')
  {
    if d < 10 then (('0' as int) + d) as char else (('a' as int) + d - 10) as char
  }

  /** `Number(n).toString(16)` for an integer: lower-case digits, a `-` when negative. */
  function ToHexString(n: int): (s: string)
    ensures |s| >= 1
    ensures n >= 0 ==> (forall i :: 0 <= i < |s| ==> IsHexDigit(s[i]))
    ensures n >= 0 ==> s[|s| - 1] == HexDigitChar(n % 16)
    ensures n >= 16 ==> |s| >= 2 && s[|s| - 2] == HexDigitChar((n / 16) % 16)
    ensures 0 <= n < 16 ==> |s| == 1
    decreases if n < 0 then -n + 1 else n
  {
    if n < 0 then "-" + ToHexString(-n)
    else if n < 16 then [HexDigitChar(n)]
    else ToHexString(n / 16) + [HexDigitChar(n % 16)]
  }

  /** `s.slice(-n)`: the last `n` characters, or all of `s` when it is shorter. */
  function LastN(s: string, n: nat): (r: string)
    ensures |r| == if |s| <= n then |s| else n
    ensures r == s[|s| - |r|..]
  {
    if |s| <= n then s else s[|s| - n..]
  }

  /** One group of the `XYtoRGB` hex text: `(0 + Number(c).toString(16)).slice(-2)`. */
  function ChannelHex(c: int): string
  {
    LastN("0" + ToHexString(c), 2)
  }

  lemma ByteDigits(c: nat)
    ensures (c / 16) % 16 == (c % 256) / 16
  {
    var q, r := c / 256, c % 256;
    assert c == 256 * q + r;
    assert c / 16 == 16 * q + r / 16;
  }

  /**
   * For a non-negative channel the group is two lower-case digits encoding the channel
   * modulo 256, zero-padded on the left.
   */
  lemma {:induction false} ChannelHexDigits(c: nat)
    ensures ChannelHex(c) == [HexDigitChar((c % 256) / 16), HexDigitChar(c % 16)]
  {
    var h := ToHexString(c);
    var s := "0" + h;
    var t := LastN(s, 2);
    assert |t| == 2;
    if c < 16 {
      assert c % 256 == c && c % 16 == c && c / 16 == 0;
      assert t[0] == s[0] == HexDigitChar(0);
      assert t[1] == s[1] == h[0];
    } else {
      ByteDigits(c);
      assert t[0] == s[|s| - 2] == h[|h| - 2];
      assert t[1] == s[|s| - 1] == h[|h| - 1];
    }
    assert t == [t[0], t[1]];
  }

  /** The `#rrggbb` text `XYtoRGB` builds from its rounded channels. */
  function FormatHex(r: int, g: int, b: int): string
  {
    "#" + ChannelHex(r) + ChannelHex(g) + ChannelHex(b)
  }

  /** A group is two hex digits whose value is the channel modulo 256. */
  lemma ChannelHexValue(c: nat)
    ensures var h := ChannelHex(c);
      |h| == 2 && IsHexDigit(h[0]) && IsHexDigit(h[1]) && PairValue(h[0], h[1]) == c % 256
  {
    ChannelHexDigits(c);
    ByteSplit(c);
    var h := ChannelHex(c);
    var hi, lo := (c % 256) / 16, c % 16;
    assert HexValue(h[0]) == hi && HexValue(h[1]) == lo;
  }

  /** A byte is sixteen times its high digit plus its low digit, and its low digit is the channel's. */
  lemma ByteSplit(c: nat)
    ensures 16 * ((c % 256) / 16) + c % 16 == c % 256
  {
    var q, r := c / 256, c % 256;
    assert c == 16 * (16 * q) + r;
    assert c % 16 == r % 16;
    assert 16 * (r / 16) + r % 16 == r;
  }

  /** The seven characters of a formatted colour: `#` and the two digits of each group. */
  lemma FormatHexChars(r: nat, g: nat, b: nat)
    ensures var hex, hr, hg, hb := FormatHex(r, g, b), ChannelHex(r), ChannelHex(g), ChannelHex(b);
      |hex| == 7 && hex[0] == '#' && hex[1] == hr[0] && hex[2] == hr[1] &&
      hex[3] == hg[0] && hex[4] == hg[1] && hex[5] == hb[0] && hex[6] == hb[1]
  {
    ChannelHexDigits(r);
    ChannelHexDigits(g);
    ChannelHexDigits(b);
  }

  /** A `#` followed by three groups of two hex digits reads back as the groups' values. */
  lemma ParseGroups(hex: string, hr: string, hg: string, hb: string)
    requires |hr| == 2 && IsHexDigit(hr[0]) && IsHexDigit(hr[1])
    requires |hg| == 2 && IsHexDigit(hg[0]) && IsHexDigit(hg[1])
    requires |hb| == 2 && IsHexDigit(hb[0]) && IsHexDigit(hb[1])
    requires |hex| == 7 && hex[0] == '#' && hex[1] == hr[0] && hex[2] == hr[1] &&
      hex[3] == hg[0] && hex[4] == hg[1] && hex[5] == hb[0] && hex[6] == hb[1]
    ensures WellFormedHex(hex)
    ensures ParseChannels(hex) ==
      Channels(Num(PairValue(hr[0], hr[1])), Num(PairValue(hg[0], hg[1])), Num(PairValue(hb[0], hb[1])))
  {
    assert WellFormedHex(hex);
    var d := HexBody(hex);
    assert d[0] == hex[1] && d[1] == hex[2] && d[2] == hex[3] && d[3] == hex[4] && d[4] == hex[5] && d[5] == hex[6];
    ParseWellFormed(hex);
  }

  /** Formatting non-negative channels and reading the text back gives each channel modulo 256. */
  lemma FormatThenParse(r: nat, g: nat, b: nat)
    ensures WellFormedHex(FormatHex(r, g, b))
    ensures ParseChannels(FormatHex(r, g, b)) == Channels(Num(r % 256), Num(g % 256), Num(b % 256))
  {
    ChannelHexValue(r);
    ChannelHexValue(g);
    ChannelHexValue(b);
    FormatHexChars(r, g, b);
    ParseGroups(FormatHex(r, g, b), ChannelHex(r), ChannelHex(g), ChannelHex(b));
  }

  /** For channels in 0..255, formatting then parsing gives back the same three integers. */
  lemma FormatRoundTrip(r: nat, g: nat, b: nat)
    requires r <= 255 && g <= 255 && b <= 255
    ensures ParseChannels(FormatHex(r, g, b)) == Channels(Num(r), Num(g), Num(b))
  {
    assert r % 256 == r && g % 256 == g && b % 256 == b;
    FormatThenParse(r, g, b);
  }

  /** Reading a lower-case colour text and formatting the channels back reproduces it, with `#`. */
  lemma ParseRoundTrip(rgb: string)
    requires WellFormedHex(rgb)
    requires forall i :: 0 <= i < |rgb| ==> !('A' <= rgb[i] <= 'F')
    ensures var c := ParseChannels(rgb);
      c.red.Num? && c.green.Num? && c.blue.Num? &&
      FormatHex(c.red.v, c.green.v, c.blue.v) == "#" + HexBody(rgb)
  {
    ParseWellFormed(rgb);
    var d := HexBody(rgb);
    assert forall i :: 0 <= i < 6 ==> !('A' <= d[i] <= 'F');
    FormatPairs(d);
  }

  lemma FormatPairs(d: string)
    requires |d| == 6 && forall i :: 0 <= i < 6 ==> IsHexDigit(d[i]) && !('A' <= d[i] <= 'F')
    ensures FormatHex(PairValue(d[0], d[1]), PairValue(d[2], d[3]), PairValue(d[4], d[5])) == "#" + d
  {
    var v0, v1, v2 := PairValue(d[0], d[1]), PairValue(d[2], d[3]), PairValue(d[4], d[5]);
    PairFormat(d[0], d[1]);
    PairFormat(d[2], d[3]);
    PairFormat(d[4], d[5]);
    FormatHexChars(v0, v1, v2);
    HashThenDigits(FormatHex(v0, v1, v2), d);
  }

  lemma HashThenDigits(x: string, d: string)
    requires |d| == 6 && |x| == 7 && x[0] == '#'
    requires x[1] == d[0] && x[2] == d[1] && x[3] == d[2] && x[4] == d[3] && x[5] == d[4] && x[6] == d[5]
    ensures x == "#" + d
  {
    var y := "#" + d;
    assert forall k :: 1 <= k < 7 ==> y[k] == d[k - 1];
    forall k | 0 <= k < 7
      ensures x[k] == y[k]
    {
    }
  }

  lemma PairFormat(a: char, b: char)
    requires IsHexDigit(a) && IsHexDigit(b) && !('A' <= a <= 'F') && !('A' <= b <= 'F')
    ensures ChannelHex(PairValue(a, b)) == [a, b]
  {
    var v := PairValue(a, b);
    ChannelHexDigits(v);
    PairDigits(HexValue(a), HexValue(b));
    DigitCharOfValue(a);
    DigitCharOfValue(b);
  }

  /** The two base-16 digits of a byte written as `16 * hi + lo`. */
  lemma PairDigits(hi: nat, lo: nat)
    requires hi < 16 && lo < 16
    ensures (16 * hi + lo) % 256 == 16 * hi + lo
    ensures (16 * hi + lo) / 16 == hi && (16 * hi + lo) % 16 == lo
  {
  }

  lemma DigitCharOfValue(c: char)
    requires IsHexDigit(c) && !('A' <= c <= 'F')
    ensures HexDigitChar(HexValue(c)) == c
  {
  }

  // ---------------------------------------------------------------------------
  // XYtoRGB after its colour matrix

  /** Below this linear value the sRGB encoding is linear. */
  const LinearCutoff: real := 0.0031308

  /** Negative (out-of-gamut) linear channels are raised to zero; there is no upper clamp. */
  function ClampBelow(v: real): real
  {
    if v < 0.0 then 0.0 else v
  }

  /** The forward sRGB gamma; `pow(v)` stands for `Math.pow(v, 1 / 2.4)`. */
  function Gamma(v: real, pow: real -> real): real
  {
    if v <= LinearCutoff then v * 12.92 else (1.0 + 0.055) * pow(v) - 0.055
  }

  /** `Math.round` on a finite number: the nearest integer, halves rounded up. */
  function JsRound(v: real): (n: int)
    ensures v - 0.5 < n as real <= v + 0.5
  {
    (v + 0.5).Floor
  }

  /** One output channel of `XYtoRGB`: clamp below, gamma-encode, scale by 255, round. */
  function EncodeChannel(v: real, pow: real -> real): int
  {
    JsRound(Gamma(ClampBelow(v), pow) * 255.0)
  }

  /**
   * `XYtoRGB(color)`: `linearize` stands for the xy-to-XYZ step and the XYZ-to-sRGB matrix
   * (both floating point, including the division by `y`).
   */
  function XyToRgb(color: XyInput, linearize: XyInput -> LinearRgb, pow: real -> real): Rgb
  {
    var lin := linearize(color);
    var r := EncodeChannel(lin.r, pow);
    var g := EncodeChannel(lin.g, pow);
    var b := EncodeChannel(lin.b, pow);
    Rgb(r, g, b, FormatHex(r, g, b))
  }

  /** `Math.pow(v, 1 / 2.4)` lies above 0.055 / 1.055 on the branch where it is used. */
  ghost predicate PowAboveOffset(pow: real -> real)
  {
    forall v :: v > LinearCutoff ==> 1.055 * pow(v) >= 0.055
  }

  /** The clamp and the gamma keep every channel non-negative. */
  lemma EncodeChannelNonNegative(v: real, pow: real -> real)
    requires PowAboveOffset(pow)
    ensures EncodeChannel(v, pow) >= 0
  {
    var c := ClampBelow(v);
    assert c >= 0.0;
    assert Gamma(c, pow) >= 0.0;
  }

  /**
   * The hex text of `XYtoRGB` encodes its channels modulo 256: exactly for channels up to
   * 255, wrapped for larger ones, since nothing clamps them from above. This rests on the
   * finite channels of `LinearRgb`.
   */
  lemma XyToRgbHex(color: XyInput, linearize: XyInput -> LinearRgb, pow: real -> real)
    requires PowAboveOffset(pow)
    ensures var out := XyToRgb(color, linearize, pow);
      out.r >= 0 && out.g >= 0 && out.b >= 0 &&
      WellFormedHex(out.hex) && out.hex[0] == '#' &&
      ParseChannels(out.hex) == Channels(Num(out.r % 256), Num(out.g % 256), Num(out.b % 256))
  {
    var lin := linearize(color);
    EncodeChannelNonNegative(lin.r, pow);
    EncodeChannelNonNegative(lin.g, pow);
    EncodeChannelNonNegative(lin.b, pow);
    var out := XyToRgb(color, linearize, pow);
    FormatThenParse(out.r, out.g, out.b);
  }

  /**
   * A bright out-of-gamut channel exceeds 255 (linear value 4, where `Math.pow(4, 1/2.4)`
   * is about 1.78), and its two hex digits then no longer read back as the channel.
   */
  lemma ChannelAbove255(pow: real -> real)
    requires pow(4.0) >= 1.7
    ensures EncodeChannel(4.0, pow) > 255
    ensures ParseChannels(FormatHex(EncodeChannel(4.0, pow), 0, 0)).red != Num(EncodeChannel(4.0, pow))
  {
    var c := EncodeChannel(4.0, pow);
    assert Gamma(4.0, pow) * 255.0 >= 443.0;
    FormatThenParse(c, 0, 0);
  }
}
