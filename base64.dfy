/** `btoa` and `atob` as browsers define them: the base 64 alphabet and padding of
    section 4 of RFC 4648, with `atob` following the "forgiving-base64 decode" of the
    WHATWG Infra standard (ASCII whitespace ignored, padding optional, leftover bits
    dropped). Both work on binary strings. */
module Base64 {
  import opened Wrappers
  import opened Text
  import Utf8

  type byte = Utf8.byte

  predicate IsBase64Char(c: char) {
    IsAsciiAlnum(c) || c == '+' || c == '/'
  }

  /** The value of a character of the alphabet. */
  function CharValue(c: char): (v: nat)
    requires IsBase64Char(c)
    ensures v < 64
  {
    if IsAsciiUpper(c) then c as int - 'A' as int
    else if IsAsciiLower(c) then c as int - 'a' as int + 26
    else if IsDigit(c) then c as int - '0' as int + 52
    else if c == '+' then 62
    else 63
  }

  /** The character of the alphabet for a 6-bit value; `CharValue` inverts it. */
  function AlphabetChar(v: nat): (c: char)
    requires v < 64
    ensures IsBase64Char(c) && CharValue(c) == v
  {
    if v < 26 then ('A' as int + v) as char
    else if v < 52 then ('a' as int + v - 26) as char
    else if v < 62 then ('0' as int + v - 52) as char
    else if v == 62 then '+'
    else '/'
  }

  /** The characters for three octets (24 bits as four 6-bit groups). */
  function Quad(b0: byte, b1: byte, b2: byte): string {
    [AlphabetChar(b0 / 4), AlphabetChar((b0 % 4) * 16 + b1 / 16),
     AlphabetChar((b1 % 16) * 4 + b2 / 64), AlphabetChar(b2 % 64)]
  }

  /** The base 64 characters of some octets, without padding. */
  function EncodeUnpadded(bs: seq<byte>): (t: string)
    ensures |t| == 4 * (|bs| / 3) + (if |bs| % 3 == 0 then 0 else |bs| % 3 + 1)
    ensures forall i :: 0 <= i < |t| ==> IsBase64Char(t[i])
  {
    if |bs| >= 3 then Quad(bs[0], bs[1], bs[2]) + EncodeUnpadded(bs[3..])
    else if |bs| == 2 then
      [AlphabetChar(bs[0] / 4), AlphabetChar((bs[0] % 4) * 16 + bs[1] / 16), AlphabetChar((bs[1] % 16) * 4)]
    else if |bs| == 1 then
      [AlphabetChar(bs[0] / 4), AlphabetChar((bs[0] % 4) * 16)]
    else []
  }

  function Padding(n: nat): string {
    if n % 3 == 1 then "==" else if n % 3 == 2 then "=" else ""
  }

  /** Base 64 encoding with padding (section 4 of RFC 4648). */
  function Encode(bs: seq<byte>): string {
    EncodeUnpadded(bs) + Padding(|bs|)
  }

  /** `btoa(s)`: None where it throws InvalidCharacterError (a character above U+00FF). */
  function Btoa(s: string): Option<string> {
    if Utf8.IsBinaryString(s) then Some(Encode(Utf8.Octets(s))) else None
  }

  /** The ASCII whitespace of the Infra standard: TAB, LF, FF, CR and SPACE. */
  predicate IsAsciiWhitespace(c: char) {
    var n := c as int;
    n == 0x09 || n == 0x0A || n == 0x0C || n == 0x0D || n == 0x20
  }

  function StripAsciiWhitespace(s: string): (r: string)
    ensures forall i :: 0 <= i < |r| ==> !IsAsciiWhitespace(r[i])
  {
    if s == [] then []
    else (if IsAsciiWhitespace(s[0]) then [] else [s[0]]) + StripAsciiWhitespace(s[1..])
  }

  /** Drops one or two trailing `=` from a string whose length is a multiple of four. */
  function StripPadding(d: string): (r: string)
    ensures IsPrefix(r, d)
  {
    if |d| % 4 != 0 then d
    else if |d| >= 2 && d[|d| - 2..] == "==" then d[..|d| - 2]
    else if |d| >= 1 && d[|d| - 1] == '=' then d[..|d| - 1]
    else d
  }

  /** The octets of base 64 characters without padding: each group of four gives three
      octets, a final group of three gives two and one of two gives one, the bits left
      over being dropped. */
  function DecodeUnpadded(t: string): (bs: seq<byte>)
    requires forall i :: 0 <= i < |t| ==> IsBase64Char(t[i])
    requires |t| % 4 != 1
  {
    if |t| == 0 then []
    else
      var a := CharValue(t[0]);
      var b := CharValue(t[1]);
      if |t| == 2 then [a * 4 + b / 16]
      else
        var c := CharValue(t[2]);
        if |t| == 3 then [a * 4 + b / 16, (b % 16) * 16 + c / 4]
        else
          var d := CharValue(t[3]);
          [a * 4 + b / 16, (b % 16) * 16 + c / 4, (c % 4) * 64 + d] + DecodeUnpadded(t[4..])
  }

  /** `atob(s)`: None where it throws InvalidCharacterError. */
  function Atob(s: string): (r: Option<string>)
    ensures r.Some? ==> Utf8.IsBinaryString(r.value)
  {
    var d := StripPadding(StripAsciiWhitespace(s));
    if |d| % 4 == 1 then None
    else if exists i :: 0 <= i < |d| && !IsBase64Char(d[i]) then None
    else Some(Utf8.BinaryString(DecodeUnpadded(d)))
  }

  lemma QuadBits(b0: byte, b1: byte, b2: byte)
    ensures var a, b, c, d := b0 / 4, (b0 % 4) * 16 + b1 / 16, (b1 % 16) * 4 + b2 / 64, b2 % 64;
      && a * 4 + b / 16 == b0 && (b % 16) * 16 + c / 4 == b1 && (c % 4) * 64 + d == b2
  {
    var b := (b0 % 4) * 16 + b1 / 16;
    assert b / 16 == b0 % 4 && b % 16 == b1 / 16;
    var c := (b1 % 16) * 4 + b2 / 64;
    assert c / 4 == b1 % 16 && c % 4 == b2 / 64;
  }

  lemma TailBits(b0: byte, b1: byte)
    ensures var a, b, c := b0 / 4, (b0 % 4) * 16 + b1 / 16, (b1 % 16) * 4;
      && a * 4 + b / 16 == b0 && (b % 16) * 16 + c / 4 == b1
  {
    var b := (b0 % 4) * 16 + b1 / 16;
    assert b / 16 == b0 % 4 && b % 16 == b1 / 16;
  }

  lemma DecodeQuad(b0: byte, b1: byte, b2: byte, rest: string)
    requires forall i :: 0 <= i < |rest| ==> IsBase64Char(rest[i])
    requires |rest| % 4 != 1
    ensures var t := Quad(b0, b1, b2) + rest;
      && (forall i :: 0 <= i < |t| ==> IsBase64Char(t[i])) && |t| % 4 != 1
      && DecodeUnpadded(t) == [b0, b1, b2] + DecodeUnpadded(rest)
  {
    var q := Quad(b0, b1, b2);
    var t := q + rest;
    assert forall i :: 0 <= i < |t| ==> IsBase64Char(t[i]) by {
      AlphabetAppend(q, rest);
    }
    assert |t| % 4 != 1 by {
      PlusFourMod(|rest|);
    }
    assert t[..4] == q && t[4..] == rest;
    DecodeCons(t);
    QuadValues(b0, b1, b2);
  }

  lemma PlusFourMod(x: nat)
    ensures (4 + x) % 4 == x % 4
  {
  }

  lemma AlphabetAppend(a: string, b: string)
    requires forall i :: 0 <= i < |a| ==> IsBase64Char(a[i])
    requires forall i :: 0 <= i < |b| ==> IsBase64Char(b[i])
    ensures forall i :: 0 <= i < |a + b| ==> IsBase64Char((a + b)[i])
  {
    forall i | 0 <= i < |a + b| ensures IsBase64Char((a + b)[i]) {
      if i >= |a| { assert (a + b)[i] == b[i - |a|]; }
    }
  }

  /** Decoding a string of four characters or more: its first four give three octets. */
  lemma DecodeCons(t: string)
    requires forall i :: 0 <= i < |t| ==> IsBase64Char(t[i])
    requires |t| >= 4 && |t| % 4 != 1
    ensures var a, b, c, d := CharValue(t[0]), CharValue(t[1]), CharValue(t[2]), CharValue(t[3]);
      DecodeUnpadded(t) == [a * 4 + b / 16, (b % 16) * 16 + c / 4, (c % 4) * 64 + d] + DecodeUnpadded(t[4..])
  {
  }

  /** The four characters of three octets decode to those octets. */
  lemma QuadValues(b0: byte, b1: byte, b2: byte)
    ensures var q := Quad(b0, b1, b2);
      var a, b, c, d := CharValue(q[0]), CharValue(q[1]), CharValue(q[2]), CharValue(q[3]);
      [a * 4 + b / 16, (b % 16) * 16 + c / 4, (c % 4) * 64 + d] == [b0, b1, b2]
  {
    QuadBits(b0, b1, b2);
  }

  /** Decoding undoes encoding, octet for octet. */
  lemma {:induction false} DecodeEncodeUnpadded(bs: seq<byte>)
    ensures |EncodeUnpadded(bs)| % 4 != 1
    ensures DecodeUnpadded(EncodeUnpadded(bs)) == bs
  {
    if |bs| >= 3 {
      var rest := EncodeUnpadded(bs[3..]);
      assert EncodeUnpadded(bs) == Quad(bs[0], bs[1], bs[2]) + rest;
      assert |rest| % 4 != 1 && DecodeUnpadded(rest) == bs[3..] by {
        DecodeEncodeUnpadded(bs[3..]);
      }
      DecodeQuad(bs[0], bs[1], bs[2], rest);
      SplitThree(bs);
    } else {
      DecodeEncodeShort(bs);
    }
  }

  lemma SplitThree(bs: seq<byte>)
    requires |bs| >= 3
    ensures bs == [bs[0], bs[1], bs[2]] + bs[3..]
  {
  }

  /** Decoding undoes encoding for the last one or two octets. */
  lemma DecodeEncodeShort(bs: seq<byte>)
    requires |bs| < 3
    ensures |EncodeUnpadded(bs)| % 4 != 1
    ensures DecodeUnpadded(EncodeUnpadded(bs)) == bs
  {
    if |bs| == 2 {
      TailBits(bs[0], bs[1]);
    } else if |bs| == 1 {
      TailBits(bs[0], 0);
    }
  }

  /** What `btoa` produces: length 4 * ceil(n / 3), alphabet characters followed by
      at most two `=`. */
  lemma EncodeShape(bs: seq<byte>)
    ensures |Encode(bs)| == 4 * ((|bs| + 2) / 3)
    ensures var e := Encode(bs); var u := EncodeUnpadded(bs);
      && IsPrefix(u, e) && |e| - |u| <= 2
      && forall i :: |u| <= i < |e| ==> e[i] == '='
  {
    var n := |bs|;
    var q := n / 3;
    assert n == 3 * q + n % 3;
    if n % 3 == 0 {
      assert (n + 2) / 3 == q;
    } else {
      assert (n + 2) / 3 == q + 1;
    }
  }

  lemma {:induction false} StripWhitespaceOfAlphabet(t: string)
    requires forall i :: 0 <= i < |t| ==> IsBase64Char(t[i]) || t[i] == '='
    ensures StripAsciiWhitespace(t) == t
  {
    if t != [] {
      StripWhitespaceOfAlphabet(t[1..]);
      assert [t[0]] + t[1..] == t;
    }
  }

  /** Removing the padding of an encoding leaves its unpadded characters. */
  lemma StripPaddingOfEncode(bs: seq<byte>)
    ensures StripPadding(Encode(bs)) == EncodeUnpadded(bs)
  {
    var u := EncodeUnpadded(bs);
    var n := |bs|;
    var k := if n % 3 == 0 then 0 else n % 3 + 1;
    assert |u| == 4 * (n / 3) + k;
    FourTimesPlus(n / 3, k);
    assert u != [] ==> IsBase64Char(u[|u| - 1]);
    if n % 3 == 1 {
      assert Encode(bs) == u + "==";
      StripTwo(u);
    } else if n % 3 == 2 {
      assert Encode(bs) == u + "=";
      StripOne(u);
    } else {
      assert Encode(bs) == u + "";
      assert u + "" == u;
      StripNone(u);
    }
  }

  lemma FourTimesPlus(q: nat, k: nat)
    requires k < 4
    ensures (4 * q + k) % 4 == k
  {
  }

  lemma StripTwo(u: string)
    requires |u| % 4 == 2
    ensures StripPadding(u + "==") == u
  {
    var e := u + "==";
    assert e[|e| - 2..] == "==";
    assert e[..|e| - 2] == u;
  }

  lemma StripOne(u: string)
    requires |u| % 4 == 3 && u[|u| - 1] != '='
    ensures StripPadding(u + "=") == u
  {
    var e := u + "=";
    assert e[|e| - 2..][0] == u[|u| - 1];
    assert e[..|e| - 1] == u;
  }

  lemma StripNone(u: string)
    requires |u| % 4 == 0 && (u == [] || u[|u| - 1] != '=')
    ensures StripPadding(u) == u
  {
    if |u| >= 2 {
      assert u[|u| - 2..][1] == u[|u| - 1];
    }
  }

  /** `atob(btoa(s)) == s` for every binary string. */
  lemma AtobBtoa(s: string)
    requires Utf8.IsBinaryString(s)
    ensures Btoa(s).Some? && Atob(Btoa(s).value) == Some(s)
  {
    var bs := Utf8.Octets(s);
    var e := Encode(bs);
    EncodeShape(bs);
    StripWhitespaceOfAlphabet(e);
    StripPaddingOfEncode(bs);
    DecodeEncodeUnpadded(bs);
    Utf8.BinaryStringOfOctets(s);
  }

  /** `btoa` fails exactly on strings with a character above U+00FF. */
  lemma BtoaFailsIffNotBinary(s: string)
    ensures Btoa(s).None? <==> exists i :: 0 <= i < |s| && s[i] as int > 255
  {
  }
}
