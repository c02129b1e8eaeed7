/** The base 64 tool: text is converted to the base 64 of its UTF-8 octets and back, with
    the sizes of both sides as UTF-8 byte counts; an uploaded image supplies the payload of
    its data URL. */
module Base64Tool {
  import opened Wrappers
  import opened Text
  import opened ConversionMode
  import Utf8
  import UriCodec
  import Base64

  /** The exception a conversion throws: InvalidCharacterError from `atob`, or URIError
      from `decodeURIComponent`. The message text is the browser's and is not modelled. */
  datatype ConversionError = InvalidCharacter | MalformedUri

  datatype Base64Result = Base64Result(isValid: bool, data: string, originalSize: nat, encodedSize: nat,
                                       error: Option<ConversionError>)

  /** `new Blob([s]).size`: the number of UTF-8 octets. */
  function BlobSize(s: string): nat {
    |Utf8.Encode(s)|
  }

  /** `btoa(unescape(encodeURIComponent(input)))`: the base 64 encoding (section 4 of
      RFC 4648) of the UTF-8 octets of the text; it never throws. */
  function EncodeText(input: string): (r: string)
    ensures r == Base64.Encode(Utf8.Encode(input))
  {
    UriCodec.UnescapeEncodeIsUtf8(input);
    Utf8.OctetsOfBinaryString(Utf8.Encode(input));
    Base64.Btoa(UriCodec.Unescape(UriCodec.EncodeURIComponent(input))).value
  }

  /** `decodeURIComponent(escape(atob(input)))`: text that is not base 64 fails with
      InvalidCharacter, octets that are not UTF-8 with MalformedUri; a decoded text is the
      one whose UTF-8 octets the base 64 carried. */
  function DecodeText(input: string): (r: Result<string, ConversionError>)
    ensures Base64.Atob(input).None? <==> r == Failure(InvalidCharacter)
    ensures r.Success? ==> Utf8.Octets(Base64.Atob(input).value) == Utf8.Encode(r.value)
    ensures r == Failure(MalformedUri) ==>
      forall t :: Utf8.Encode(t) != Utf8.Octets(Base64.Atob(input).value)
  {
    match Base64.Atob(input)
    case None => Failure(InvalidCharacter)
    case Some(binary) =>
      var bs := Utf8.Octets(binary);
      Utf8.BinaryStringOfOctets(binary);
      match UriCodec.DecodeURIComponent(UriCodec.Escape(binary))
      case Some(text) =>
        UriCodec.DecodeEscapeOnlyUtf8(bs);
        Success(text)
      case None =>
        assert forall t :: Utf8.Encode(t) != bs by {
          forall t {
            NoTextEncodes(binary, t);
          }
        }
        Failure(MalformedUri)
  }

  /** When the escaped octets of a binary string do not decode, no text has those octets
      as its UTF-8 encoding. */
  lemma NoTextEncodes(binary: string, t: string)
    requires Utf8.IsBinaryString(binary)
    requires UriCodec.DecodeURIComponent(UriCodec.Escape(binary)).None?
    ensures Utf8.Encode(t) != Utf8.Octets(binary)
  {
    if Utf8.Encode(t) == Utf8.Octets(binary) {
      Utf8.BinaryStringOfOctets(binary);
      UriCodec.DecodeEscapeUtf8(t);
      assert false;
    }
  }

  /** The memoised result: none for a blank input; a failure gives an invalid result with
      no data and zero sizes. */
  function Convert(input: string, mode: Mode): (r: Option<Base64Result>)
    ensures r.None? <==> IsBlank(input)
    ensures !IsBlank(input) && mode == Encode ==>
      r == Some(Base64Result(true, Base64.Encode(Utf8.Encode(input)), BlobSize(input),
                             BlobSize(Base64.Encode(Utf8.Encode(input))), None))
    ensures !IsBlank(input) && mode == Decode && DecodeText(input).Success? ==>
      var text := DecodeText(input).value;
      r == Some(Base64Result(true, text, BlobSize(input), BlobSize(text), None))
    ensures !IsBlank(input) && mode == Decode && DecodeText(input).Failure? ==>
      r == Some(Base64Result(false, [], 0, 0, Some(DecodeText(input).error)))
  {
    TrimEmptyIffBlank(input);
    if Trim(input) == [] then None
    else if mode == Encode then
      var encoded := EncodeText(input);
      Some(Base64Result(true, encoded, BlobSize(input), BlobSize(encoded), None))
    else
      match DecodeText(input)
      case Success(decoded) => Some(Base64Result(true, decoded, BlobSize(input), BlobSize(decoded), None))
      case Failure(e) => Some(Base64Result(false, [], 0, 0, Some(e)))
  }

  /** The encoding of a text of n UTF-8 octets has 4 * ceil(n / 3) characters, all from the
      base 64 alphabet except for at most two trailing `=`. */
  lemma EncodedShape(input: string)
    ensures var e := EncodeText(input); var n := BlobSize(input);
      && |e| == 4 * ((n + 2) / 3)
      && (forall i :: 0 <= i < |e| ==> Base64.IsBase64Char(e[i]) || e[i] == '=')
      && (forall i :: 0 <= i < |e| - 2 ==> e[i] != '=')
      && (forall i, j :: 0 <= i < j < |e| && e[i] == '=' ==> e[j] == '=')
  {
    OctetsShape(Utf8.Encode(input));
  }

  lemma OctetsShape(bs: seq<Utf8.byte>)
    ensures var e := Base64.Encode(bs);
      && |e| == 4 * ((|bs| + 2) / 3)
      && (forall i :: 0 <= i < |e| ==> Base64.IsBase64Char(e[i]) || e[i] == '=')
      && (forall i :: 0 <= i < |e| - 2 ==> e[i] != '=')
      && (forall i, j :: 0 <= i < j < |e| && e[i] == '=' ==> e[j] == '=')
  {
    var e := Base64.Encode(bs);
    var u := Base64.EncodeUnpadded(bs);
    Base64.EncodeShape(bs);
    assert forall i :: 0 <= i < |u| ==> e[i] == u[i];
  }

  /** A non-empty text has a non-empty UTF-8 encoding. */
  lemma EncodeNonEmpty(s: string)
    requires s != []
    ensures Utf8.Encode(s) != []
  {
    Utf8.EncodeCharShape(s[0]);
    assert Utf8.Encode(s) == Utf8.EncodeChar(s[0]) + Utf8.Encode(s[1..]);
  }

  /** Decoding the encoding of a non-blank text gives the text back, valid. */
  lemma DecodeOfEncode(input: string)
    requires !IsBlank(input)
    ensures var e := Convert(input, Encode).value.data;
      Convert(e, Decode) == Some(Base64Result(true, input, BlobSize(e), BlobSize(input), None))
  {
    EncodedNotBlank(input);
    DecodeTextOfEncode(input);
  }

  /** The encoding of a non-blank text starts with a base 64 character, so it is not blank. */
  lemma EncodedNotBlank(input: string)
    requires !IsBlank(input)
    ensures !IsBlank(EncodeText(input))
  {
    var bs := Utf8.Encode(input);
    EncodeNonEmpty(input);
    var e := Base64.Encode(bs);
    OctetsShape(bs);
    assert e[0] != '=';
    assert !IsJsWhitespace(e[0]);
  }

  /** Decoding undoes encoding for every text. */
  lemma DecodeTextOfEncode(input: string)
    ensures DecodeText(EncodeText(input)) == Success(input)
  {
    var bs := Utf8.Encode(input);
    var binary := Utf8.BinaryString(bs);
    Utf8.OctetsOfBinaryString(bs);
    Base64.AtobBtoa(binary);
    assert Base64.Atob(EncodeText(input)) == Some(binary);
    UriCodec.DecodeEscapeUtf8(input);
  }

  /** The tool's state cells. */
  datatype Base64State = Base64State(input: string, mode: Mode, copied: bool)

  /** toggleMode: only the direction changes. */
  function ToggleMode(st: Base64State): (r: Base64State)
    ensures r.input == st.input && r.copied == st.copied && r.mode != st.mode
  {
    st.(mode := Toggled(st.mode))
  }

  /** Toggling twice is the identity. */
  lemma ToggleModeTwice(st: Base64State)
    ensures ToggleMode(ToggleMode(st)) == st
  {
  }

  /** clearInput: only the text is emptied, after which there is no result. */
  function ClearInput(st: Base64State): (r: Base64State)
    ensures r.mode == st.mode && r.copied == st.copied && Convert(r.input, r.mode).None?
  {
    st.(input := [])
  }

  /** copyResult: the result's data is handed to the clipboard when there is any; the
      copied mark is set only when the write succeeds. */
  function CopyResult(st: Base64State, writeSucceeds: bool): (r: (Base64State, Option<string>))
    ensures r.1.Some? <==> Convert(st.input, st.mode).Some? && Convert(st.input, st.mode).value.data != []
    ensures r.1.Some? ==> r.1.value == Convert(st.input, st.mode).value.data
    ensures r.0 == (if r.1.Some? && writeSucceeds then st.(copied := true) else st)
  {
    var res := Convert(st.input, st.mode);
    if res.None? || res.value.data == [] then (st, None)
    else (if writeSucceeds then st.(copied := true) else st, Some(res.value.data))
  }

  /** Nothing is copied for a blank input or a failed decode; a non-blank text in encode
      mode always copies its encoding. */
  lemma CopyResultCases(st: Base64State, writeSucceeds: bool)
    ensures IsBlank(st.input) ==> CopyResult(st, writeSucceeds).1.None?
    ensures !IsBlank(st.input) && st.mode == Decode && DecodeText(st.input).Failure? ==>
      CopyResult(st, writeSucceeds).1.None?
    ensures !IsBlank(st.input) && st.mode == Encode ==>
      CopyResult(st, writeSucceeds).1 == Some(EncodeText(st.input))
  {
    if !IsBlank(st.input) && st.mode == Encode {
      EncodeNonEmpty(st.input);
      EncodedShape(st.input);
    }
  }

  /** The first comma-separated field of a string: everything before its first comma. */
  function FirstField(s: string): (r: string)
    ensures IsPrefix(r, s) && ',' !in r
    ensures ',' !in s ==> r == s
  {
    if s == [] || s[0] == ',' then [] else [s[0]] + FirstField(s[1..])
  }

  /** `content.split(',')[1]`: the text between the first and the second comma, or
      undefined (None) when there is no comma. */
  function SecondField(content: string): (r: Option<string>)
    ensures r.None? <==> ',' !in content
  {
    if content == [] then None
    else if content[0] == ',' then Some(FirstField(content[1..]))
    else SecondField(content[1..])
  }

  /** A file handed to the upload handler, with the reader's result as `content` (a data
      URL for an image, the text otherwise). */
  datatype UploadedFile = UploadedFile(name: string, mimeType: string, content: string)

  /** The input the upload sets: for an image the file name in encode mode and the data
      URL's payload in decode mode; for any other file its text. No input is set only for
      an image read in decode mode whose data URL has no comma. */
  function UploadedInput(file: UploadedFile, mode: Mode): (r: Option<string>)
    ensures IsPrefix("image/", file.mimeType) && mode == Encode ==> r == Some(file.name)
    ensures IsPrefix("image/", file.mimeType) && mode == Decode ==> r == SecondField(file.content)
    ensures !IsPrefix("image/", file.mimeType) ==> r == Some(file.content)
    ensures r.None? <==> IsPrefix("image/", file.mimeType) && mode == Decode && ',' !in file.content
  {
    if IsPrefix("image/", file.mimeType) then
      if mode == Encode then Some(file.name)
      else
        var payload := SecondField(file.content);
        assert mode == Decode && (payload.None? <==> ',' !in file.content);
        payload
    else Some(file.content)
  }

  /** For a data URL `header,payload` with no comma in the header, the image payload is
      the first comma-separated field after the header, which is the whole base 64 data
      since that alphabet has no comma. */
  lemma {:induction false} ImagePayloadOfDataUrl(header: string, payload: string)
    requires ',' !in header
    ensures SecondField(header + "," + payload) == Some(FirstField(payload))
    ensures (forall i :: 0 <= i < |payload| ==> Base64.IsBase64Char(payload[i]) || payload[i] == '=') ==>
      SecondField(header + "," + payload) == Some(payload)
  {
    if header == [] {
      assert (header + "," + payload)[1..] == payload;
    } else {
      assert (header + "," + payload)[1..] == header[1..] + "," + payload;
      ImagePayloadOfDataUrl(header[1..], payload);
    }
    if forall i :: 0 <= i < |payload| ==> Base64.IsBase64Char(payload[i]) || payload[i] == '=' {
      assert ',' !in payload;
    }
  }
}
