/** The percent-encodings of ECMA-262 5.1 that the extension relies on:
    `encodeURIComponent` (section 15.1.3.4), `decodeURIComponent` (section 15.1.3.2, through
    the Decode operation of section 15.1.3), and the legacy `escape` and `unescape` of
    sections B.2.1 and B.2.2, with percent-triplets as in section 2.1 of RFC 3986. */
module UriCodec {
  import opened Wrappers
  import opened Text
  import Utf8

  type byte = Utf8.byte

  /** The characters `encodeURIComponent` leaves alone: uriAlpha, DecimalDigit, uriMark. */
  predicate IsUriUnreserved(c: char) {
    IsAsciiAlnum(c) || c == '-' || c == '_' || c == '.' || c == '!' || c == '~'
    || c == '*' || c == '\'' || c == '(' || c == ')'
  }

  /** `%XY` with upper-case hexadecimal digits. */
  function PercentByte(b: byte): (t: string)
    ensures |t| == 3 && t[0] == '%' && IsHexDigit(t[1]) && IsHexDigit(t[2])
    ensures 16 * HexValue(t[1]) + HexValue(t[2]) == b
  {
    ['%', HexUpper(b / 16), HexUpper(b % 16)]
  }

  function PercentBytes(bs: seq<byte>): (t: string)
    ensures |t| == 3 * |bs|
  {
    if bs == [] then [] else PercentByte(bs[0]) + PercentBytes(bs[1..])
  }

  function EncodeComponentChar(c: char): string {
    if IsUriUnreserved(c) then [c] else PercentBytes(Utf8.EncodeChar(c))
  }

  /** `encodeURIComponent(s)`. A string of scalar values has no lone surrogate, so the
      URIError case of the algorithm cannot arise here. */
  function EncodeURIComponent(s: string): string {
    if s == [] then [] else EncodeComponentChar(s[0]) + EncodeURIComponent(s[1..])
  }

  /** The octet of an escape `%XY` at the start of `s`, if there is one. */
  function ReadEscape(s: string): Option<byte> {
    if |s| >= 3 && s[0] == '%' && IsHexDigit(s[1]) && IsHexDigit(s[2])
    then Some(16 * HexValue(s[1]) + HexValue(s[2]))
    else None
  }

  /** The octets of `n` consecutive escapes at the start of `s`. */
  function ReadEscapes(s: string, n: nat): (r: Option<seq<byte>>)
    ensures r.Some? ==> |r.value| == n && 3 * n <= |s|
  {
    if n == 0 then Some([])
    else match ReadEscape(s)
      case None => None
      case Some(b) =>
        match ReadEscapes(s[3..], n - 1)
        case None => None
        case Some(bs) => Some([b] + bs)
  }

  function Prepend(c: char, r: Option<string>): Option<string> {
    match r
    case None => None
    case Some(t) => Some([c] + t)
  }

  /** The character a multi-octet sequence stands for, when the octets are a valid UTF-8
      encoding of one scalar value (well-formed, shortest form, no surrogate). */
  function DecodeSequence(os: seq<byte>): (r: Option<char>)
    requires 2 <= |os| <= 4
    ensures r.Some? ==> Utf8.EncodeChar(r.value) == os
  {
    var v := Utf8.DecodeOctets(os);
    if Utf8.IsScalarValue(v) && Utf8.EncodeChar(v as char) == os then Some(v as char) else None
  }

  /** The first character `decodeURIComponent` reads from a non-empty string and how many
      characters of the input it consumes: a literal character, an escaped ASCII octet, or
      the escapes of a complete UTF-8 sequence. None where the algorithm throws URIError. */
  function DecodeHead(s: string): (r: Option<(char, nat)>)
    requires s != []
    ensures r.Some? ==> 1 <= r.value.1 <= |s|
  {
    if s[0] != '%' then Some((s[0], 1))
    else match ReadEscape(s)
      case None => None
      case Some(b) =>
        if b < 0x80 then Some((b as char, 3))
        else
          var n := Utf8.LeadingOnes(b);
          if n == 1 || n > 4 || |s| < 3 * n then None
          else match ReadEscapes(s, n)
            case None => None
            case Some(os) =>
              if exists j :: 1 <= j < n && !Utf8.IsContinuation(os[j]) then None
              else match DecodeSequence(os)
                case None => None
                case Some(c) => Some((c, 3 * n))
  }

  /** `decodeURIComponent(s)`: None where the algorithm throws URIError. */
  function DecodeURIComponent(s: string): Option<string>
    decreases |s|
  {
    if s == [] then Some([])
    else match DecodeHead(s)
      case None => None
      case Some((c, k)) => Prepend(c, DecodeURIComponent(s[k..]))
  }

  lemma {:induction false} ReadEscapesOfPercentBytes(bs: seq<byte>, rest: string)
    ensures ReadEscapes(PercentBytes(bs) + rest, |bs|) == Some(bs)
  {
    if bs != [] {
      var tail := PercentBytes(bs[1..]) + rest;
      PercentBytesCons(bs, rest);
      ReadPercentByte(bs[0], tail);
      ReadEscapesOfPercentBytes(bs[1..], rest);
      assert [bs[0]] + bs[1..] == bs;
    }
  }

  lemma PercentBytesCons(bs: seq<byte>, rest: string)
    requires bs != []
    ensures PercentBytes(bs) + rest == PercentByte(bs[0]) + (PercentBytes(bs[1..]) + rest)
  {
  }

  /** An escape followed by anything reads as its octet and leaves the rest. */
  lemma ReadPercentByte(b: byte, rest: string)
    ensures ReadEscape(PercentByte(b) + rest) == Some(b)
    ensures (PercentByte(b) + rest)[3..] == rest
  {
    var s := PercentByte(b) + rest;
    assert s[0] == '%' && s[1] == PercentByte(b)[1] && s[2] == PercentByte(b)[2];
  }

  /** Decoding the escapes of a character's UTF-8 octets gives back the character. */
  lemma DecodeEscapedChar(c: char, rest: string)
    ensures DecodeURIComponent(PercentBytes(Utf8.EncodeChar(c)) + rest)
         == Prepend(c, DecodeURIComponent(rest))
  {
    var s := PercentBytes(Utf8.EncodeChar(c)) + rest;
    DecodeHeadOfEscapedChar(c, rest);
    assert s != [];
  }

  /** The head read from those escapes is the character, and the rest follows them. */
  lemma DecodeHeadOfEscapedChar(c: char, rest: string)
    ensures PercentBytes(Utf8.EncodeChar(c)) + rest != []
    ensures var s := PercentBytes(Utf8.EncodeChar(c)) + rest;
      && DecodeHead(s) == Some((c, 3 * |Utf8.EncodeChar(c)|))
      && s[3 * |Utf8.EncodeChar(c)|..] == rest
  {
    var bs := Utf8.EncodeChar(c);
    var s := PercentBytes(bs) + rest;
    Utf8.EncodeCharShape(c);
    PercentBytesCons(bs, rest);
    ReadPercentByte(bs[0], PercentBytes(bs[1..]) + rest);
    assert s[3 * |bs|..] == rest;
    if |bs| > 1 {
      ReadEscapesOfPercentBytes(bs, rest);
      assert DecodeSequence(bs) == Some(c);
    }
  }

  lemma DecodeLiteralChar(c: char, rest: string)
    requires c != '%'
    ensures DecodeURIComponent([c] + rest) == Prepend(c, DecodeURIComponent(rest))
  {
    assert ([c] + rest)[1..] == rest;
  }

  /** decodeURIComponent undoes encodeURIComponent. */
  lemma {:induction false} DecodeEncode(s: string)
    ensures DecodeURIComponent(EncodeURIComponent(s)) == Some(s)
  {
    if s != [] {
      var c := s[0];
      var rest := EncodeURIComponent(s[1..]);
      DecodeEncode(s[1..]);
      if IsUriUnreserved(c) {
        DecodeLiteralChar(c, rest);
      } else {
        DecodeEscapedChar(c, rest);
      }
      assert [c] + s[1..] == s;
    }
  }

  /** What `encodeURIComponent` outputs: the unreserved characters and escapes. */
  lemma {:induction false} EncodeAlphabet(s: string)
    ensures forall i :: 0 <= i < |EncodeURIComponent(s)| ==>
      IsUriUnreserved(EncodeURIComponent(s)[i]) || EncodeURIComponent(s)[i] == '%'
      || (IsHexDigit(EncodeURIComponent(s)[i]) && !IsAsciiLower(EncodeURIComponent(s)[i]))
  {
    if s != [] {
      EncodeAlphabet(s[1..]);
      PercentBytesAlphabet(Utf8.EncodeChar(s[0]));
    }
  }

  lemma {:induction false} PercentBytesAlphabet(bs: seq<byte>)
    ensures forall i :: 0 <= i < |PercentBytes(bs)| ==>
      PercentBytes(bs)[i] == '%' || (IsHexDigit(PercentBytes(bs)[i]) && !IsAsciiLower(PercentBytes(bs)[i]))
  {
    if bs != [] {
      PercentBytesAlphabet(bs[1..]);
    }
  }

  // ---------------------------------------------------------------------------------
  // escape / unescape

  /** The characters `escape` leaves alone. */
  predicate IsEscapeSafe(c: char) {
    IsAsciiAlnum(c) || c == '@' || c == '*' || c == '_' || c == '+' || c == '-' || c == '.' || c == '/'
  }

  /** `escape` of one character whose code is below 256. */
  function EscapeChar(c: char): (t: string)
    requires c as int < 256
    ensures IsEscapeSafe(c) ==> t == [c]
    ensures !IsEscapeSafe(c) ==> t == PercentByte(c as int)
  {
    if IsEscapeSafe(c) then [c] else PercentByte(c as int)
  }

  /** `escape(s)` on a binary string (every code below 256, so the `%uXXXX` form never
      arises). */
  function Escape(s: string): string
    requires Utf8.IsBinaryString(s)
  {
    if s == [] then [] else EscapeChar(s[0]) + Escape(s[1..])
  }

  /** `unescape(s)`, for the `%XY` form. */
  function Unescape(s: string): string {
    if s == [] then []
    else match ReadEscape(s)
      case Some(b) => [b as char] + Unescape(s[3..])
      case None => [s[0]] + Unescape(s[1..])
  }

  lemma BinaryStringCons(bs: seq<byte>)
    requires bs != []
    ensures Utf8.BinaryString(bs) == [bs[0] as char] + Utf8.BinaryString(bs[1..])
  {
  }

  lemma EscapeBytesCons(bs: seq<byte>)
    requires bs != []
    ensures Escape(Utf8.BinaryString(bs)) == EscapeChar(bs[0] as char) + Escape(Utf8.BinaryString(bs[1..]))
  {
    var s := Utf8.BinaryString(bs);
    BinaryStringCons(bs);
    assert s[0] == bs[0] as char && s[1..] == Utf8.BinaryString(bs[1..]);
  }

  lemma UnescapeLiteral(c: char, rest: string)
    requires c != '%'
    ensures Unescape([c] + rest) == [c] + Unescape(rest)
  {
    assert ReadEscape([c] + rest) == None;
    assert ([c] + rest)[1..] == rest;
  }

  lemma UnescapePercentByte(b: byte, rest: string)
    ensures Unescape(PercentByte(b) + rest) == [b as char] + Unescape(rest)
  {
    var s := PercentByte(b) + rest;
    assert ReadEscape(s) == Some(b);
    assert s[3..] == rest;
  }

  lemma {:induction false} UnescapePercentBytes(bs: seq<byte>, rest: string)
    ensures Unescape(PercentBytes(bs) + rest) == Utf8.BinaryString(bs) + Unescape(rest)
  {
    if bs != [] {
      assert PercentBytes(bs) + rest == PercentByte(bs[0]) + (PercentBytes(bs[1..]) + rest);
      UnescapePercentByte(bs[0], PercentBytes(bs[1..]) + rest);
      UnescapePercentBytes(bs[1..], rest);
      BinaryStringCons(bs);
    } else {
      assert PercentBytes(bs) + rest == rest;
    }
  }

  /** An unreserved character is ASCII, so its UTF-8 octets are its own code. */
  lemma UnreservedIsAscii(c: char)
    requires IsUriUnreserved(c)
    ensures Utf8.BinaryString(Utf8.EncodeChar(c)) == [c]
  {
  }

  /** `unescape(encodeURIComponent(s))` is the binary string of the UTF-8 octets of s:
      the idiom the extension uses to feed text to `btoa`. */
  lemma {:induction false} UnescapeEncodeIsUtf8(s: string)
    ensures Unescape(EncodeURIComponent(s)) == Utf8.BinaryString(Utf8.Encode(s))
  {
    if s != [] {
      var c := s[0];
      var rest := EncodeURIComponent(s[1..]);
      assert EncodeURIComponent(s) == EncodeComponentChar(c) + rest;
      UnescapeEncodeIsUtf8(s[1..]);
      BinaryStringAppend(Utf8.EncodeChar(c), Utf8.Encode(s[1..]));
      assert Utf8.Encode(s) == Utf8.EncodeChar(c) + Utf8.Encode(s[1..]);
      if IsUriUnreserved(c) {
        UnescapeLiteral(c, rest);
        UnreservedIsAscii(c);
      } else {
        UnescapePercentBytes(Utf8.EncodeChar(c), rest);
      }
    }
  }

  lemma BinaryStringAppend(a: seq<byte>, b: seq<byte>)
    ensures Utf8.BinaryString(a + b) == Utf8.BinaryString(a) + Utf8.BinaryString(b)
  {
    var l := Utf8.BinaryString(a + b);
    var r := Utf8.BinaryString(a) + Utf8.BinaryString(b);
    forall i | 0 <= i < |l|
      ensures l[i] == r[i]
    {
      if i < |a| {
        assert (a + b)[i] == a[i];
      } else {
        assert (a + b)[i] == b[i - |a|];
      }
    }
  }

  /** `escape` of the binary string of some octets, octet by octet. */
  function EscapeOctets(bs: seq<byte>): string {
    if bs == [] then [] else EscapeChar(bs[0] as char) + EscapeOctets(bs[1..])
  }

  lemma {:induction false} EscapeOfBinaryString(bs: seq<byte>)
    ensures Escape(Utf8.BinaryString(bs)) == EscapeOctets(bs)
  {
    if bs != [] {
      EscapeBytesCons(bs);
      EscapeOfBinaryString(bs[1..]);
    }
  }

  lemma {:induction false} EscapeOctetsAppend(a: seq<byte>, b: seq<byte>)
    ensures EscapeOctets(a + b) == EscapeOctets(a) + EscapeOctets(b)
  {
    if a == [] {
      assert a + b == b;
    } else {
      assert (a + b)[1..] == a[1..] + b;
      EscapeOctetsAppend(a[1..], b);
    }
  }

  /** Escaping octets of 0x80 and above always gives their escapes. */
  lemma {:induction false} EscapeHighOctets(bs: seq<byte>)
    requires forall j :: 0 <= j < |bs| ==> bs[j] >= 0x80
    ensures EscapeOctets(bs) == PercentBytes(bs)
  {
    EscapeUnsafeOctets(bs);
  }

  /** The escaped octets of one character decode back to that character. */
  lemma DecodeEscapedUtf8Char(c: char, rest: string)
    ensures DecodeURIComponent(EscapeOctets(Utf8.EncodeChar(c)) + rest)
         == Prepend(c, DecodeURIComponent(rest))
  {
    var bs := Utf8.EncodeChar(c);
    Utf8.EncodeCharShape(c);
    if |bs| == 1 {
      assert EscapeOctets(bs) == EscapeChar(c);
      if IsEscapeSafe(c) {
        DecodeLiteralChar(c, rest);
      } else {
        assert PercentByte(c as int) == PercentBytes(bs);
        DecodeEscapedChar(c, rest);
      }
    } else {
      EscapeHighOctets(bs);
      DecodeEscapedChar(c, rest);
    }
  }

  /** `decodeURIComponent(escape(binary))` decodes UTF-8: on the octets of a string's
      encoding it returns that string. */
  lemma DecodeEscapeUtf8(t: string)
    ensures DecodeURIComponent(Escape(Utf8.BinaryString(Utf8.Encode(t)))) == Some(t)
  {
    EscapeOfBinaryString(Utf8.Encode(t));
    DecodeEscapeOctetsUtf8(t);
  }

  lemma {:induction false} DecodeEscapeOctetsUtf8(t: string)
    ensures DecodeURIComponent(EscapeOctets(Utf8.Encode(t))) == Some(t)
  {
    if t != [] {
      var c := t[0];
      var bs := Utf8.EncodeChar(c);
      var tailBytes := Utf8.Encode(t[1..]);
      assert Utf8.Encode(t) == bs + tailBytes;
      EscapeOctetsAppend(bs, tailBytes);
      DecodeEscapeOctetsUtf8(t[1..]);
      DecodeEscapedUtf8Char(c, EscapeOctets(tailBytes));
      assert [c] + t[1..] == t;
    }
  }

  /** Conversely, when `decodeURIComponent(escape(binary))` succeeds the octets were exactly
      the UTF-8 encoding of the result: octets that are not valid UTF-8 make it fail. */
  lemma DecodeEscapeOnlyUtf8(bs: seq<byte>)
    requires DecodeURIComponent(Escape(Utf8.BinaryString(bs))).Some?
    ensures bs == Utf8.Encode(DecodeURIComponent(Escape(Utf8.BinaryString(bs))).value)
  {
    EscapeOfBinaryString(bs);
    DecodeEscapeOctetsOnlyUtf8(bs);
  }

  lemma {:induction false} DecodeEscapeOctetsOnlyUtf8(bs: seq<byte>)
    requires DecodeURIComponent(EscapeOctets(bs)).Some?
    ensures bs == Utf8.Encode(DecodeURIComponent(EscapeOctets(bs)).value)
    decreases |bs|
  {
    if bs != [] {
      var t := DecodeURIComponent(EscapeOctets(bs)).value;
      var n := DecodeEscapeStep(bs);
      DecodeEscapeOctetsOnlyUtf8(bs[n..]);
      EncodeOfSplit(bs, n, t);
    }
  }

  lemma EncodeOfSplit(bs: seq<byte>, n: nat, t: string)
    requires 1 <= n <= |bs| && t != []
    requires Utf8.EncodeChar(t[0]) == bs[..n] && bs[n..] == Utf8.Encode(t[1..])
    ensures bs == Utf8.Encode(t)
  {
    assert Utf8.Encode(t) == Utf8.EncodeChar(t[0]) + Utf8.Encode(t[1..]);
    assert bs == bs[..n] + bs[n..];
  }

  /** One step of decoding escaped octets: the first character comes from the first
      `n` octets, which are its UTF-8 encoding. */
  lemma DecodeEscapeStep(bs: seq<byte>) returns (n: nat)
    requires bs != []
    requires DecodeURIComponent(EscapeOctets(bs)).Some?
    ensures var t := DecodeURIComponent(EscapeOctets(bs)).value;
      && 1 <= n <= |bs| && t != []
      && Utf8.EncodeChar(t[0]) == bs[..n]
      && DecodeURIComponent(EscapeOctets(bs[n..])) == Some(t[1..])
  {
    var e := EscapeOctets(bs);
    assert e == EscapeChar(bs[0] as char) + EscapeOctets(bs[1..]);
    assert e != [];
    n := DecodeHeadOfEscape(bs);
  }

  /** The head `decodeURIComponent` reads from escaped octets stands for the first `n`
      octets, and the rest of the input is the escape of the remaining octets. */
  lemma DecodeHeadOfEscape(bs: seq<byte>) returns (n: nat)
    requires bs != [] && EscapeOctets(bs) != []
    requires DecodeHead(EscapeOctets(bs)).Some?
    ensures 1 <= n <= |bs|
    ensures Utf8.EncodeChar(DecodeHead(EscapeOctets(bs)).value.0) == bs[..n]
    ensures EscapeOctets(bs)[DecodeHead(EscapeOctets(bs)).value.1..] == EscapeOctets(bs[n..])
  {
    var e := EscapeOctets(bs);
    var b0 := bs[0];
    var tailE := EscapeOctets(bs[1..]);
    assert e == EscapeChar(b0 as char) + tailE;
    n := 1;
    if IsEscapeSafe(b0 as char) {
      assert e[1..] == tailE;
    } else if b0 < 0x80 {
      ReadPercentByte(b0, tailE);
    } else {
      n := DecodeMultiOctetEscape(bs);
    }
  }

  /** The same for a first octet of 0x80 or above: the head is a whole UTF-8 sequence. */
  lemma DecodeMultiOctetEscape(bs: seq<byte>) returns (n: nat)
    requires bs != [] && bs[0] >= 0x80 && EscapeOctets(bs) != []
    requires DecodeHead(EscapeOctets(bs)).Some?
    ensures 1 <= n <= |bs|
    ensures Utf8.EncodeChar(DecodeHead(EscapeOctets(bs)).value.0) == bs[..n]
    ensures EscapeOctets(bs)[DecodeHead(EscapeOctets(bs)).value.1..] == EscapeOctets(bs[n..])
  {
    var e := EscapeOctets(bs);
    var b0 := bs[0];
    assert e == PercentByte(b0) + EscapeOctets(bs[1..]);
    ReadPercentByte(b0, EscapeOctets(bs[1..]));
    n := DecodeHeadMultiOctet(e, b0);
    EscapedPrefix(bs, n);
  }

  /** A head read from an escape of 0x80 or above spans `n` escapes, whose octets are the
      character's UTF-8 encoding. */
  lemma DecodeHeadMultiOctet(s: string, b: byte) returns (n: nat)
    requires s != [] && DecodeHead(s).Some?
    requires ReadEscape(s) == Some(b) && b >= 0x80
    ensures n == Utf8.LeadingOnes(b) && 2 <= n <= 4
    ensures ReadEscapes(s, n).Some?
    ensures DecodeHead(s).value.1 == 3 * n
    ensures Utf8.EncodeChar(DecodeHead(s).value.0) == ReadEscapes(s, n).value
  {
    n := Utf8.LeadingOnes(b);
  }

  /** When `n` escapes can be read from escaped octets, they are the first `n` octets and
      what follows is the escape of the rest. */
  lemma EscapedPrefix(bs: seq<byte>, n: nat)
    requires ReadEscapes(EscapeOctets(bs), n).Some?
    ensures n <= |bs|
    ensures ReadEscapes(EscapeOctets(bs), n).value == bs[..n]
    ensures EscapeOctets(bs)[3 * n..] == EscapeOctets(bs[n..])
  {
    ReadEscapesOfEscape(bs, n);
    EscapeUnsafeOctets(bs[..n]);
    EscapeOctetsAppend(bs[..n], bs[n..]);
    assert bs[..n] + bs[n..] == bs;
  }

  lemma ReadEscapesPercentCons(b: byte, rest: string, n: nat)
    requires n > 0
    ensures ReadEscapes(PercentByte(b) + rest, n)
         == match ReadEscapes(rest, n - 1)
            case None => None
            case Some(os) => Some([b] + os)
  {
    var s := PercentByte(b) + rest;
    assert ReadEscape(s) == Some(b);
    assert s[3..] == rest;
  }

  lemma ReadEscapesLiteral(c: char, rest: string, n: nat)
    requires n > 0 && c != '%'
    ensures ReadEscapes([c] + rest, n) == None
  {
    assert ReadEscape([c] + rest) == None;
  }

  /** Reading n escapes from escaped octets succeeds only when the first n octets were all
      escaped (none was a safe character), and then returns those octets. */
  lemma {:induction false} ReadEscapesOfEscape(bs: seq<byte>, n: nat)
    requires ReadEscapes(EscapeOctets(bs), n).Some?
    ensures n <= |bs| && AllEscaped(bs[..n])
    ensures ReadEscapes(EscapeOctets(bs), n).value == bs[..n]
  {
    if n > 0 {
      var b := ReadEscapesHead(bs, n);
      var tail := bs[1..];
      ReadEscapesOfEscape(tail, n - 1);
      SplitAfterHead(bs, n);
      assert bs[..n][0] == b;
      assert bs[..n][1..] == tail[..n - 1];
    }
  }

  /** None of the octets is left alone by `escape`. */
  predicate AllEscaped(bs: seq<byte>) {
    forall j :: 0 <= j < |bs| ==> !IsEscapeSafe(bs[j] as char)
  }

  lemma {:induction false} EscapeUnsafeOctets(bs: seq<byte>)
    requires AllEscaped(bs)
    ensures EscapeOctets(bs) == PercentBytes(bs)
  {
    if bs != [] {
      EscapeUnsafeOctets(bs[1..]);
    }
  }

  /** The first of n > 0 escapes read from escaped octets is the escape of the first octet. */
  lemma ReadEscapesHead(bs: seq<byte>, n: nat) returns (b: byte)
    requires n > 0 && ReadEscapes(EscapeOctets(bs), n).Some?
    ensures bs != [] && b == bs[0]
    ensures EscapeOctets(bs) == PercentByte(b) + EscapeOctets(bs[1..])
    ensures ReadEscapes(EscapeOctets(bs[1..]), n - 1).Some?
    ensures ReadEscapes(EscapeOctets(bs), n).value == [b] + ReadEscapes(EscapeOctets(bs[1..]), n - 1).value
  {
    if bs == [] {
      assert false;
    }
    b := bs[0];
    var tailE := EscapeOctets(bs[1..]);
    if IsEscapeSafe(b as char) {
      ReadEscapesLiteral(b as char, tailE, n);
      assert false;
    }
    ReadEscapesPercentCons(b, tailE, n);
  }

  lemma SplitAfterHead(bs: seq<byte>, n: nat)
    requires 0 < n <= |bs|
    ensures bs[1..][..n - 1] == bs[1..n] && bs[1..][n - 1..] == bs[n..]
    ensures [bs[0]] + bs[1..n] == bs[..n]
  {
  }
}
