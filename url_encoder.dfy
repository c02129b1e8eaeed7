/** The URL encoder tool: the text typed and the direction, and what is derived from them
    (the conversion, whether the text already looks percent-encoded, and the direction to
    suggest). Copying hands the result to the clipboard, whose success is a parameter. */
module UrlEncoder {
  import opened Wrappers
  import opened Text
  import opened ConversionMode
  import UriCodec
  import Utf8

  datatype InputType = Encoded | Plain

  /** A conversion's text and whether it failed. */
  datatype Conversion = Conversion(result: string, isError: bool)

  /** encodeURL. On strings of scalar values `encodeURIComponent` never throws, so the
      error branch is unreachable; the result always decodes back to the text. */
  function EncodeUrl(text: string): (c: Conversion)
    ensures !c.isError && UriCodec.DecodeURIComponent(c.result) == Some(text)
  {
    UriCodec.DecodeEncode(text);
    Conversion(UriCodec.EncodeURIComponent(text), false)
  }

  /** decodeURL: a malformed escape or octets that are not UTF-8 leave the text as it was
      and raise the error flag. */
  function DecodeUrl(text: string): (c: Conversion)
    ensures c.isError <==> UriCodec.DecodeURIComponent(text).None?
    ensures c.isError ==> c.result == text
    ensures !c.isError ==> UriCodec.DecodeURIComponent(text) == Some(c.result)
  {
    match UriCodec.DecodeURIComponent(text)
    case Some(s) => Conversion(s, false)
    case None => Conversion(text, true)
  }

  /** The memoised result: nothing for a blank input, otherwise the conversion the mode
      asks for. */
  function ConversionResult(input: string, mode: Mode): (c: Conversion)
    ensures IsBlank(input) ==> c == Conversion([], false)
    ensures !IsBlank(input) ==> c == (if mode == Encode then EncodeUrl(input) else DecodeUrl(input))
  {
    TrimEmptyIffBlank(input);
    if Trim(input) == [] then Conversion([], false)
    else if mode == Encode then EncodeUrl(input)
    else DecodeUrl(input)
  }

  /** `/%[0-9A-Fa-f]{2}/.test(s)` */
  predicate HasPercentEncoding(s: string) {
    exists i :: 0 <= i && i + 2 < |s| && s[i] == '%' && IsHexDigit(s[i + 1]) && IsHexDigit(s[i + 2])
  }

  /** inputType: none for a blank input, encoded when the text holds a `%XY` escape,
      plain otherwise. */
  function DetectInputType(input: string): (r: Option<InputType>)
    ensures r.None? <==> IsBlank(input)
    ensures r == Some(Encoded) <==> !IsBlank(input) && HasPercentEncoding(input)
    ensures r == Some(Plain) <==> !IsBlank(input) && !HasPercentEncoding(input)
  {
    TrimEmptyIffBlank(input);
    if Trim(input) == [] then None
    else if HasPercentEncoding(input) then Some(Encoded)
    else Some(Plain)
  }

  /** suggestedMode */
  function SuggestedMode(input: string, mode: Mode): Option<Mode> {
    if Trim(input) == [] then None
    else
      var inputType := DetectInputType(input);
      if inputType == Some(Encoded) && mode == Encode then Some(Decode)
      else if inputType == Some(Plain) && mode == Decode then Some(Encode)
      else None
  }

  /** Decoding is suggested exactly for encoded-looking text in encode mode, encoding
      exactly for plain text in decode mode; a suggestion is always the other mode, and
      once it is followed nothing more is suggested. */
  lemma SuggestedModeSpec(input: string, mode: Mode)
    ensures SuggestedMode(input, mode) == Some(Decode) <==> DetectInputType(input) == Some(Encoded) && mode == Encode
    ensures SuggestedMode(input, mode) == Some(Encode) <==> DetectInputType(input) == Some(Plain) && mode == Decode
    ensures SuggestedMode(input, mode).Some? ==>
      SuggestedMode(input, mode).value == Toggled(mode)
      && SuggestedMode(input, SuggestedMode(input, mode).value).None?
  {
    TrimEmptyIffBlank(input);
  }

  /** A character `encodeURIComponent` escapes. */
  predicate NeedsEscape(s: string) {
    exists k :: 0 <= k < |s| && !UriCodec.IsUriUnreserved(s[k])
  }

  /** The encoding of any text holding a character that must be escaped is itself
      classified as encoded, so the tool then suggests decoding it. */
  lemma {:induction false} EncodedOutputLooksEncoded(s: string)
    requires NeedsEscape(s)
    ensures HasPercentEncoding(UriCodec.EncodeURIComponent(s))
  {
    var head := UriCodec.EncodeComponentChar(s[0]);
    var tail := UriCodec.EncodeURIComponent(s[1..]);
    assert UriCodec.EncodeURIComponent(s) == head + tail;
    if !UriCodec.IsUriUnreserved(s[0]) {
      var bs := Utf8.EncodeChar(s[0]);
      Utf8.EncodeCharShape(s[0]);
      assert head == UriCodec.PercentByte(bs[0]) + UriCodec.PercentBytes(bs[1..]);
      EscapeAtFront(head, tail);
    } else {
      var k :| 0 <= k < |s| && !UriCodec.IsUriUnreserved(s[k]);
      assert s[1..][k - 1] == s[k];
      EncodedOutputLooksEncoded(s[1..]);
      EscapeAfterPrefix(head, tail);
    }
  }

  lemma EscapeAtFront(a: string, b: string)
    requires |a| >= 3 && a[0] == '%' && IsHexDigit(a[1]) && IsHexDigit(a[2])
    ensures HasPercentEncoding(a + b)
  {
    var e := a + b;
    assert e[0] == '%' && IsHexDigit(e[1]) && IsHexDigit(e[2]);
  }

  lemma EscapeAfterPrefix(a: string, b: string)
    requires HasPercentEncoding(b)
    ensures HasPercentEncoding(a + b)
  {
    var i :| 0 <= i && i + 2 < |b| && b[i] == '%' && IsHexDigit(b[i + 1]) && IsHexDigit(b[i + 2]);
    var e := a + b;
    assert e[|a| + i] == b[i] && e[|a| + i + 1] == b[i + 1] && e[|a| + i + 2] == b[i + 2];
  }

  /** The encoding of a non-blank text is not blank: its first character is an unreserved
      character or `%`. */
  lemma EncodedNotBlank(s: string)
    requires !IsBlank(s)
    ensures !IsBlank(UriCodec.EncodeURIComponent(s))
  {
    var e := UriCodec.EncodeURIComponent(s);
    var head := UriCodec.EncodeComponentChar(s[0]);
    assert e == head + UriCodec.EncodeURIComponent(s[1..]);
    if !UriCodec.IsUriUnreserved(s[0]) {
      var bs := Utf8.EncodeChar(s[0]);
      Utf8.EncodeCharShape(s[0]);
      assert head == UriCodec.PercentByte(bs[0]) + UriCodec.PercentBytes(bs[1..]);
    }
    assert !IsJsWhitespace(e[0]);
  }

  /** Converting a text and converting the result back in the other direction gives the
      text again, with no error. */
  lemma EncodeThenDecode(input: string)
    requires !IsBlank(input)
    ensures ConversionResult(ConversionResult(input, Encode).result, Decode) == Conversion(input, false)
  {
    EncodedNotBlank(input);
  }

  /** The hook's state cells. */
  datatype UrlEncoderState = UrlEncoderState(input: string, mode: Mode, copied: bool)

  const INITIAL_STATE: UrlEncoderState := UrlEncoderState([], Encode, false)

  /** The result shown for a state. */
  function Result(st: UrlEncoderState): Conversion {
    ConversionResult(st.input, st.mode)
  }

  /** toggleMode: the other direction, and the copied mark cleared. */
  function ToggleMode(st: UrlEncoderState): UrlEncoderState {
    st.(mode := Toggled(st.mode), copied := false)
  }

  /** clearInput: the text emptied and the copied mark cleared. */
  function ClearInput(st: UrlEncoderState): UrlEncoderState {
    st.(input := [], copied := false)
  }

  /** Toggling twice restores the direction (with the mark cleared), and toggling keeps
      the text; after clearing, the tool shows no result, no error, no input type and no
      suggestion, in either direction. */
  lemma ToggleAndClearEffect(st: UrlEncoderState)
    ensures ToggleMode(ToggleMode(st)) == st.(copied := false)
    ensures ToggleMode(st).input == st.input && ToggleMode(st).mode != st.mode && !ToggleMode(st).copied
    ensures var c := ClearInput(st);
      && c.mode == st.mode && !c.copied
      && Result(c) == Conversion([], false)
      && DetectInputType(c.input).None?
      && SuggestedMode(c.input, c.mode).None?
  {
    assert Trim([]) == [];
  }

  /** copyResult: for an empty or failed result nothing happens; otherwise the result is
      written to the clipboard (the text written is returned) and the copied mark raised
      when the write succeeds. */
  function CopyResult(st: UrlEncoderState, writeSucceeds: bool): (r: (UrlEncoderState, Option<string>))
    ensures r.1.Some? <==> Result(st).result != [] && !Result(st).isError
    ensures r.1.Some? ==> r.1.value == Result(st).result
    ensures r.0 == (if r.1.Some? && writeSucceeds then st.(copied := true) else st)
  {
    var c := Result(st);
    if c.result == [] || c.isError then (st, None)
    else if writeSucceeds then (st.(copied := true), Some(c.result))
    else (st, Some(c.result))
  }

  /** Nothing is copied for a blank input or a failed decode; the encoding of a non-blank
      text is always copied. */
  lemma CopyResultCases(st: UrlEncoderState, writeSucceeds: bool)
    ensures IsBlank(st.input) ==> CopyResult(st, writeSucceeds).1.None?
    ensures st.mode == Decode && UriCodec.DecodeURIComponent(st.input).None? ==> CopyResult(st, writeSucceeds).1.None?
    ensures st.mode == Encode && !IsBlank(st.input) ==>
      CopyResult(st, writeSucceeds).1 == Some(UriCodec.EncodeURIComponent(st.input))
  {
    if st.mode == Encode && !IsBlank(st.input) {
      EncodedNotBlank(st.input);
    }
  }
}
