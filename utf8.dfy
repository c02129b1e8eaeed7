/** UTF-8 (RFC 3629) and UTF-16 code units of Unicode scalar values, and the
    "binary strings" (one character per byte, code 0..255) that `btoa`, `atob`,
    `escape` and `unescape` work on. */
module Utf8 {

  type byte = b: int | 0 <= b < 256

  /** The UTF-8 octets of one scalar value (RFC 3629 section 3). */
  function EncodeChar(c: char): (bs: seq<byte>)
    ensures 1 <= |bs| <= 4
  {
    var n := c as int;
    if n < 0x80 then [n]
    else if n < 0x800 then [0xC0 + n / 64, 0x80 + n % 64]
    else if n < 0x10000 then [0xE0 + n / 4096, 0x80 + (n / 64) % 64, 0x80 + n % 64]
    else [0xF0 + n / 262144, 0x80 + (n / 4096) % 64, 0x80 + (n / 64) % 64, 0x80 + n % 64]
  }

  /** The UTF-8 octets of a string. */
  function Encode(s: string): seq<byte> {
    if s == [] then [] else EncodeChar(s[0]) + Encode(s[1..])
  }

  lemma EncodeAppend(s: string, t: string)
    ensures Encode(s + t) == Encode(s) + Encode(t)
  {
    if s != [] {
      assert (s + t)[0] == s[0];
      assert (s + t)[1..] == s[1..] + t;
      EncodeAppend(s[1..], t);
    } else {
      assert s + t == t;
    }
  }

  predicate IsContinuation(b: int) { 0x80 <= b < 0xC0 }

  /** The number of leading one bits of an octet: the "n" of the URI decoding
      algorithm of ECMA-262 (0 for an ASCII octet, 1 for a continuation octet). */
  function LeadingOnes(b: byte): (n: nat)
    ensures n <= 8
  {
    if b < 0x80 then 0 else if b < 0xC0 then 1 else if b < 0xE0 then 2
    else if b < 0xF0 then 3 else if b < 0xF8 then 4 else if b < 0xFC then 5
    else if b < 0xFE then 6 else if b < 0xFF then 7 else 8
  }

  /** The code point the UTF-8 transformation gives for a lead octet with `|os| - 1`
      continuation octets (the payload bits of each octet, most significant first). */
  function DecodeOctets(os: seq<byte>): int
    requires 2 <= |os| <= 4
  {
    var b0: int, b1: int := os[0], os[1];
    if |os| == 2 then (b0 - 0xC0) * 64 + (b1 - 0x80)
    else
      var b2: int := os[2];
      if |os| == 3 then (b0 - 0xE0) * 4096 + (b1 - 0x80) * 64 + (b2 - 0x80)
      else
        var b3: int := os[3];
        (b0 - 0xF0) * 262144 + (b1 - 0x80) * 4096 + (b2 - 0x80) * 64 + (b3 - 0x80)
  }

  predicate IsScalarValue(v: int) {
    0 <= v < 0xD800 || 0xE000 <= v <= 0x10FFFF
  }

  /** The shape of a character's encoding: an ASCII octet alone, or a lead octet announcing
      the length followed by continuation octets, which decode back to the character. */
  lemma EncodeCharShape(c: char)
    ensures var bs := EncodeChar(c);
      && (c as int < 0x80 <==> |bs| == 1)
      && (|bs| == 1 ==> bs[0] == c as int)
      && (|bs| > 1 ==>
            && LeadingOnes(bs[0]) == |bs|
            && (forall j :: 1 <= j < |bs| ==> IsContinuation(bs[j]))
            && DecodeOctets(bs) == c as int)
  {
    var n := c as int;
    if 0x80 <= n < 0x800 {
      Split2(n);
    } else if 0x800 <= n < 0x10000 {
      Split3(n);
    } else if 0x10000 <= n {
      Split4(n);
    }
  }

  lemma Split2(n: int)
    requires 0x80 <= n < 0x800
    ensures 2 <= n / 64 < 32 && (n / 64) * 64 + n % 64 == n
  {
  }

  lemma Split3(n: int)
    requires 0x800 <= n < 0x10000
    ensures n / 4096 < 16 && (n / 4096) * 4096 + ((n / 64) % 64) * 64 + n % 64 == n
  {
    var q := n / 64;
    assert q * 64 + n % 64 == n;
    assert (q / 64) * 64 + q % 64 == q;
    assert q / 64 == n / 4096;
  }

  lemma Split4(n: int)
    requires 0x10000 <= n <= 0x10FFFF
    ensures n / 262144 < 5
    ensures (n / 262144) * 262144 + ((n / 4096) % 64) * 4096 + ((n / 64) % 64) * 64 + n % 64 == n
  {
    var q := n / 64;
    var r := q / 64;
    assert q * 64 + n % 64 == n;
    assert r * 64 + q % 64 == q;
    assert (r / 64) * 64 + r % 64 == r;
    assert r == n / 4096;
    assert r / 64 == n / 262144;
  }

  /** A character's UTF-16 code units, as `charCodeAt` sees them. */
  function Utf16Char(c: char): (us: seq<int>)
    ensures 1 <= |us| <= 2 && forall j :: 0 <= j < |us| ==> 0 <= us[j] < 0x10000
  {
    var n := c as int;
    if n < 0x10000 then [n]
    else [0xD800 + (n - 0x10000) / 1024, 0xDC00 + (n - 0x10000) % 1024]
  }

  /** The UTF-16 code units of a string. */
  function Utf16(s: string): (us: seq<int>)
    ensures forall j :: 0 <= j < |us| ==> 0 <= us[j] < 0x10000
  {
    if s == [] then [] else Utf16Char(s[0]) + Utf16(s[1..])
  }

  /** A "binary string": every character's code is an octet. */
  predicate IsBinaryString(s: string) {
    forall i :: 0 <= i < |s| ==> s[i] as int < 256
  }

  /** The binary string whose character codes are the given octets. */
  function BinaryString(bs: seq<byte>): (s: string)
    ensures |s| == |bs| && IsBinaryString(s)
    ensures forall i :: 0 <= i < |bs| ==> s[i] as int == bs[i]
  {
    if bs == [] then [] else [bs[0] as char] + BinaryString(bs[1..])
  }

  /** The octets of a binary string. */
  function Octets(s: string): (bs: seq<byte>)
    requires IsBinaryString(s)
    ensures |bs| == |s| && forall i :: 0 <= i < |s| ==> bs[i] == s[i] as int
  {
    if s == [] then [] else [s[0] as int] + Octets(s[1..])
  }

  lemma OctetsOfBinaryString(bs: seq<byte>)
    ensures Octets(BinaryString(bs)) == bs
  {
  }

  lemma BinaryStringOfOctets(s: string)
    requires IsBinaryString(s)
    ensures BinaryString(Octets(s)) == s
  {
  }
}
