/** The side panel's colour helpers: a random `#rrggbb` colour from a random number, and
    the lighter background, shadow and border derived from a base colour. */
module SidebarUtils {
  import opened Wrappers
  import opened Text
  import opened HexColor

  /** `Math.floor(Math.random() * 16777215)` lies in 0 .. 16777214. */
  const RANDOM_RANGE: nat := 16777215

  /** getRandomHexColor, for the random number `n` it floors. */
  function RandomHexColor(n: nat): string
    requires n < RANDOM_RANGE
  {
    "#" + PadStartZeros(HexString(n), 6)
  }

  /** The colour is '#' and six lower-case hex digits whose value is n, so it is never
      white ('#ffffff' is 16777215). */
  lemma RandomHexColorSpec(n: nat)
    requires n < RANDOM_RANGE
    ensures var c := RandomHexColor(n);
      && IsHexColor(c)
      && (forall i :: 1 <= i < 7 ==> !IsAsciiUpper(c[i]))
      && HexNumber(c[1..]) == n
      && c != "#ffffff"
  {
    var c := RandomHexColor(n);
    assert Pow16(6) == 16777216;
    HexStringLength(n, 6);
    PadStartValue(HexString(n), 6);
    assert c[1..] == PadStartZeros(HexString(n), 6);
    WhiteValue();
  }

  lemma WhiteValue()
    ensures AllHexDigits("ffffff") && HexNumber("ffffff") == 16777215
  {
    assert "ffffff"[..5] == "fffff" && "fffff"[..4] == "ffff" && "ffff"[..3] == "fff";
    assert "fff"[..2] == "ff" && "ff"[..1] == "f" && "f"[..0] == [];
  }

  /** `s.slice(start, end)` for 0 <= start <= end: the indices clamped to the length. */
  function Slice(s: string, start: nat, end: nat): (r: string)
    requires start <= end
    ensures |s| >= end ==> r == s[start..end]
  {
    var from := if start < |s| then start else |s|;
    var to := if end < |s| then end else |s|;
    s[from..to]
  }

  /** The longest run of hex digits at the front of s. */
  function HexPrefix(s: string): (r: string)
    ensures IsPrefix(r, s) && AllHexDigits(r)
    ensures |r| < |s| ==> !IsHexDigit(s[|r|])
  {
    if s == [] || !IsHexDigit(s[0]) then [] else [s[0]] + HexPrefix(s[1..])
  }

  /** `parseInt(s, 16)`: leading white space skipped, an optional sign, an optional
      '0x'/'0X', then the longest run of hex digits; NaN (None) when that run is empty. */
  function ParseInt16(s: string): Option<int> {
    var t := TrimStart(s);
    var negative := t != [] && t[0] == '-';
    var unsigned := if t != [] && (t[0] == '-' || t[0] == '+') then t[1..] else t;
    var body := if |unsigned| >= 2 && unsigned[0] == '0' && (unsigned[1] == 'x' || unsigned[1] == 'X')
                then unsigned[2..] else unsigned;
    var digits := HexPrefix(body);
    var value: int := HexNumber(digits);
    if digits == [] then None
    else if negative then Some(-value)
    else Some(value)
  }

  /** Two hex digits parse to their pair value. */
  lemma ParsePair(s: string, i: nat)
    requires i + 1 < |s| && IsHexDigit(s[i]) && IsHexDigit(s[i + 1])
    ensures ParseInt16(Slice(s, i, i + 2)) == Some(PairValue(s, i))
  {
    var p := Slice(s, i, i + 2);
    assert p == s[i..i + 2];
    assert p[0] == s[i] && p[1] == s[i + 1];
    ParseTwoDigits(p);
  }

  lemma ParseTwoDigits(p: string)
    requires |p| == 2 && IsHexDigit(p[0]) && IsHexDigit(p[1])
    ensures ParseInt16(p) == Some(16 * HexValue(p[0]) + HexValue(p[1]))
  {
    assert !IsJsWhitespace(p[0]);
    assert TrimStart(p) == p;
    assert p[1] != 'x' && p[1] != 'X';
    HexPrefixOfDigits(p);
    TwoDigits(p);
  }

  lemma HexPrefixOfDigits(p: string)
    requires |p| == 2 && IsHexDigit(p[0]) && IsHexDigit(p[1])
    ensures HexPrefix(p) == p
  {
    assert HexPrefix(p[1..][1..]) == [];
    assert HexPrefix(p[1..]) == p[1..];
  }

  /** A channel as the template literal prints it: the integer, or "NaN". */
  function ChannelText(c: Option<int>): string {
    match c
    case None => "NaN"
    case Some(v) => if v < 0 then "-" + Decimal(-v) else Decimal(v)
  }

  /** `Math.min(255, c + amount)`, NaN staying NaN. */
  function Lighten(c: Option<int>, amount: nat): (r: Option<int>)
    ensures r.None? <==> c.None?
  {
    match c
    case None => None
    case Some(v) => Some(if v + amount < 255 then v + amount else 255)
  }

  /** For a channel in 0 .. 255, both lighter channels stay in 0 .. 255, are at least the
      channel, and the very light one is at least the light one. */
  lemma LightenBounds(c: int)
    requires 0 <= c < 256
    ensures var light := Lighten(Some(c), 80).value; var veryLight := Lighten(Some(c), 120).value;
      && c <= light <= veryLight <= 255
      && (c + 80 <= 255 ==> light == c + 80)
      && (c + 120 <= 255 ==> veryLight == c + 120)
  {
  }

  function RgbText(r: Option<int>, g: Option<int>, b: Option<int>): string {
    "rgb(" + ChannelText(r) + ", " + ChannelText(g) + ", " + ChannelText(b) + ")"
  }

  function ShadowText(r: Option<int>, g: Option<int>, b: Option<int>): string {
    "rgba(" + ChannelText(r) + ", " + ChannelText(g) + ", " + ChannelText(b) + ", 0.2)"
  }

  datatype ColorVariants = ColorVariants(background: string, boxShadow: string, borderColor: string)

  /** The variants of a colour with the given channels. */
  function VariantsOf(r: Option<int>, g: Option<int>, b: Option<int>, baseColor: string): ColorVariants {
    var lightBg := RgbText(Lighten(r, 80), Lighten(g, 80), Lighten(b, 80));
    var veryLightBg := RgbText(Lighten(r, 120), Lighten(g, 120), Lighten(b, 120));
    var shadowColor := ShadowText(r, g, b);
    ColorVariants("linear-gradient(to bottom right, " + veryLightBg + ", " + lightBg + ")",
                  "0 4px 6px -1px " + shadowColor + ", 0 2px 4px -1px " + shadowColor,
                  baseColor)
  }

  /** generateColorVariants: the channels are read from characters 1-2, 3-4 and 5-6. */
  function GenerateColorVariants(baseColor: string): ColorVariants {
    VariantsOf(ParseInt16(Slice(baseColor, 1, 3)), ParseInt16(Slice(baseColor, 3, 5)),
               ParseInt16(Slice(baseColor, 5, 7)), baseColor)
  }

  /** For a `#rrggbb` colour the channels read are its red, green and blue digit pairs,
      each in 0 .. 255; the border is the colour itself, and the gradient runs from the
      very light to the light colour. */
  lemma ColorVariantsOfHexColor(baseColor: string)
    requires IsHexColor(baseColor)
    ensures var r, g, b := PairValue(baseColor, 1), PairValue(baseColor, 3), PairValue(baseColor, 5);
      && r < 256 && g < 256 && b < 256
      && GenerateColorVariants(baseColor) == VariantsOf(Some(r), Some(g), Some(b), baseColor)
      && GenerateColorVariants(baseColor).borderColor == baseColor
      && GenerateColorVariants(baseColor).background
         == "linear-gradient(to bottom right, "
            + RgbText(Lighten(Some(r), 120), Lighten(Some(g), 120), Lighten(Some(b), 120)) + ", "
            + RgbText(Lighten(Some(r), 80), Lighten(Some(g), 80), Lighten(Some(b), 80)) + ")"
  {
    ChannelsOfHexColor(baseColor);
  }

  /** The three slices of a `#rrggbb` colour parse to its digit pairs. */
  lemma ChannelsOfHexColor(baseColor: string)
    requires IsHexColor(baseColor)
    ensures ParseInt16(Slice(baseColor, 1, 3)) == Some(PairValue(baseColor, 1))
    ensures ParseInt16(Slice(baseColor, 3, 5)) == Some(PairValue(baseColor, 3))
    ensures ParseInt16(Slice(baseColor, 5, 7)) == Some(PairValue(baseColor, 5))
  {
    var d := baseColor[1..];
    assert IsHexDigit(d[0]) && IsHexDigit(d[1]) && IsHexDigit(d[2]);
    assert IsHexDigit(d[3]) && IsHexDigit(d[4]) && IsHexDigit(d[5]);
    ParsePair(baseColor, 1);
    ParsePair(baseColor, 3);
    ParsePair(baseColor, 5);
  }

  /** The variants of a random colour are computed from the channels of the number drawn:
      red n / 65536, green n / 256 mod 256, blue n mod 256. */
  lemma VariantsOfRandomColor(n: nat)
    requires n < RANDOM_RANGE
    ensures GenerateColorVariants(RandomHexColor(n))
         == VariantsOf(Some(n / 65536), Some(n / 256 % 256), Some(n % 256), RandomHexColor(n))
  {
    var c := RandomHexColor(n);
    RandomHexColorSpec(n);
    ColorChannels(c);
    ColorVariantsOfHexColor(c);
  }
}
