/** Hexadecimal numerals as the colour helpers read and write them: the value of a run of
    hex digits (`parseInt(s, 16)` on digits only), `n.toString(16)`, `padStart`, and the
    `#RRGGBB` colour form. */
module HexColor {
  import opened Text

  predicate AllHexDigits(s: string) {
    forall i :: 0 <= i < |s| ==> IsHexDigit(s[i])
  }

  function Pow16(k: nat): (p: nat)
    ensures p >= 1
  {
    if k == 0 then 1 else 16 * Pow16(k - 1)
  }

  /** The value of a run of hex digits, most significant first. */
  function HexNumber(s: string): (v: nat)
    requires AllHexDigits(s)
  {
    if s == [] then 0 else 16 * HexNumber(s[..|s| - 1]) + HexValue(s[|s| - 1])
  }

  /** A run of k digits is below 16^k. */
  lemma {:induction false} HexNumberBound(s: string)
    requires AllHexDigits(s)
    ensures HexNumber(s) < Pow16(|s|)
  {
    if s != [] {
      HexNumberBound(s[..|s| - 1]);
    }
  }

  lemma AppendDigits(a: string, b: string)
    requires AllHexDigits(a) && AllHexDigits(b)
    ensures AllHexDigits(a + b)
  {
    forall i | 0 <= i < |a + b|
      ensures IsHexDigit((a + b)[i])
    {
      if i < |a| { assert (a + b)[i] == a[i]; } else { assert (a + b)[i] == b[i - |a|]; }
    }
  }

  lemma ShiftDigit(x: int, y: int, p: int, v: int)
    ensures 16 * (x * p + y) + v == x * (16 * p) + (16 * y + v)
  {
  }

  /** Reading digits a then digits b: a's value shifted by b's length, plus b's. */
  lemma {:induction false} HexNumberAppend(a: string, b: string)
    requires AllHexDigits(a) && AllHexDigits(b)
    ensures AllHexDigits(a + b)
    ensures HexNumber(a + b) == HexNumber(a) * Pow16(|b|) + HexNumber(b)
  {
    AppendDigits(a, b);
    if b == [] {
      assert a + b == a;
    } else {
      var ab := a + b;
      var init := b[..|b| - 1];
      assert ab[..|ab| - 1] == a + init;
      assert ab[|ab| - 1] == b[|b| - 1];
      HexNumberAppend(a, init);
      assert HexNumber(ab) == 16 * HexNumber(a + init) + HexValue(b[|b| - 1]);
      ShiftDigit(HexNumber(a), HexNumber(init), Pow16(|init|), HexValue(b[|b| - 1]));
    }
  }

  /** `n.toString(16)`: lower-case digits, no leading zero. */
  function HexString(n: nat): (s: string)
    ensures |s| >= 1 && AllHexDigits(s) && forall i :: 0 <= i < |s| ==> !IsAsciiUpper(s[i])
    ensures |s| > 1 ==> s[0] != '0'
    ensures HexNumber(s) == n
    decreases n
  {
    if n < 16 then [HexLower(n)]
    else
      var s := HexString(n / 16) + [HexLower(n % 16)];
      assert s[..|s| - 1] == HexString(n / 16);
      s
  }

  /** A number below 16^k has at most k hex digits. */
  lemma {:induction false} HexStringLength(n: nat, k: nat)
    requires 1 <= k && n < Pow16(k)
    ensures |HexString(n)| <= k
    decreases n
  {
    if n >= 16 {
      assert k >= 2;
      HexStringLength(n / 16, k - 1);
    }
  }

  /** `s.padStart(width, '0')` */
  function PadStartZeros(s: string, width: nat): (r: string)
    ensures |r| == if |s| >= width then |s| else width
    ensures r[|r| - |s|..] == s
    ensures forall i :: 0 <= i < |r| - |s| ==> r[i] == '0'
    decreases width - |s|
  {
    if |s| >= width then s else PadStartZeros(['0'] + s, width)
  }

  /** Leading zeros do not change the value. */
  lemma PadStartValue(s: string, width: nat)
    requires AllHexDigits(s)
    ensures AllHexDigits(PadStartZeros(s, width))
    ensures HexNumber(PadStartZeros(s, width)) == HexNumber(s)
  {
    var r := PadStartZeros(s, width);
    var z := r[..|r| - |s|];
    assert r == z + s;
    ZerosValue(z);
    HexNumberAppend(z, s);
  }

  lemma {:induction false} ZerosValue(z: string)
    requires forall i :: 0 <= i < |z| ==> z[i] == '0'
    ensures AllHexDigits(z) && HexNumber(z) == 0
  {
    if z != [] {
      ZerosValue(z[..|z| - 1]);
    }
  }

  /** `/^#[0-9A-F]{6}$/i`: '#' and exactly six hex digits of either case. */
  predicate IsHexColor(s: string) {
    |s| == 7 && s[0] == '#' && AllHexDigits(s[1..])
  }

  /** The value of the two digits at i and i + 1. */
  function PairValue(s: string, i: nat): (v: nat)
    requires i + 1 < |s| && IsHexDigit(s[i]) && IsHexDigit(s[i + 1])
    ensures v < 256
  {
    16 * HexValue(s[i]) + HexValue(s[i + 1])
  }

  lemma TwoDigits(x: string)
    requires |x| == 2 && AllHexDigits(x)
    ensures HexNumber(x) == 16 * HexValue(x[0]) + HexValue(x[1])
  {
    var first := x[..1];
    assert first[..0] == [];
    assert HexNumber(first) == HexValue(x[0]);
    assert x[..|x| - 1] == first;
  }

  /** The six digits of a colour hold its channels: red, green and blue are the base-256
      digits of the colour's number. */
  lemma ColorChannels(s: string)
    requires IsHexColor(s)
    ensures PairValue(s, 1) == HexNumber(s[1..]) / 65536
    ensures PairValue(s, 3) == HexNumber(s[1..]) / 256 % 256
    ensures PairValue(s, 5) == HexNumber(s[1..]) % 256
  {
    var d := s[1..];
    var a, b, c := d[..2], d[2..4], d[4..];
    assert d[2..] == b + c;
    assert d == a + (b + c);
    TwoDigits(a);
    TwoDigits(b);
    TwoDigits(c);
    HexNumberAppend(b, c);
    HexNumberAppend(a, b + c);
    assert Pow16(2) == 256 && Pow16(4) == 65536;
    Base256(HexNumber(d), PairValue(s, 1), PairValue(s, 3), PairValue(s, 5));
  }

  lemma Base256(n: int, r: int, g: int, b: int)
    requires 0 <= r < 256 && 0 <= g < 256 && 0 <= b < 256
    requires n == r * 65536 + (g * 256 + b)
    ensures r == n / 65536 && g == n / 256 % 256 && b == n % 256
  {
    assert n == (r * 256 + g) * 256 + b;
    assert n / 256 == r * 256 + g;
  }
}
