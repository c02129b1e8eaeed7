/** The colour picker: the selected colour and the text field beside it, the colour's
    red, green and blue read from its hex form, the upper-cased hex shown, and the
    seven-step lightness palette around the colour's HSL form. */
module ColorPicker {
  import opened Wrappers
  import opened Text
  import opened HexColor
  import SidebarUtils

  datatype Rgb = Rgb(r: nat, g: nat, b: nat)

  /** The rounded HSL triple the palette is built from. */
  datatype Hsl = Hsl(h: int, s: int, l: int)

  /** The six digits `/^#?([a-f\d]{2})([a-f\d]{2})([a-f\d]{2})$/i` captures: an optional
      '#' and exactly six hex digits of either case, nothing more. */
  function HexBody(hex: string): (r: Option<string>)
    ensures r.Some? ==> |r.value| == 6 && AllHexDigits(r.value)
  {
    if |hex| == 7 && hex[0] == '#' && AllHexDigits(hex[1..]) then Some(hex[1..])
    else if |hex| == 6 && AllHexDigits(hex) then Some(hex)
    else None
  }

  /** hexToRgb: each channel is its digit pair read in base 16; black for any string the
      pattern does not match. */
  function HexToRgb(hex: string): (c: Rgb)
    ensures c.r < 256 && c.g < 256 && c.b < 256
    ensures HexBody(hex).None? ==> c == Rgb(0, 0, 0)
  {
    match HexBody(hex)
    case None => Rgb(0, 0, 0)
    case Some(d) => Rgb(PairValue(d, 0), PairValue(d, 2), PairValue(d, 4))
  }

  /** Two lower-case hex digits for a channel. */
  function ChannelHex(v: nat): (t: string)
    requires v < 256
    ensures |t| == 2 && IsHexDigit(t[0]) && IsHexDigit(t[1])
  {
    [HexLower(v / 16), HexLower(v % 16)]
  }

  /** Reading a colour written as '#' and three digit pairs gives its channels back, with
      or without the '#'. */
  lemma HexToRgbOfChannels(c: Rgb)
    requires c.r < 256 && c.g < 256 && c.b < 256
    ensures var d := ChannelHex(c.r) + ChannelHex(c.g) + ChannelHex(c.b);
      HexToRgb("#" + d) == c && HexToRgb(d) == c
  {
    var d := ChannelHex(c.r) + ChannelHex(c.g) + ChannelHex(c.b);
    assert AllHexDigits(d) by {
      assert forall i :: 0 <= i < 2 ==> d[i] == ChannelHex(c.r)[i];
      assert forall i :: 2 <= i < 4 ==> d[i] == ChannelHex(c.g)[i - 2];
      assert forall i :: 4 <= i < 6 ==> d[i] == ChannelHex(c.b)[i - 4];
    }
    assert ("#" + d)[1..] == d;
  }

  /** The upper-case form of a hex digit is a hex digit of the same value. */
  lemma UpperHexDigit(ch: char)
    ensures IsHexDigit(UpperChar(ch)) <==> IsHexDigit(ch)
    ensures IsHexDigit(ch) ==> HexValue(UpperChar(ch)) == HexValue(ch)
  {
  }

  /** The hex shown is the selected colour upper-cased, and it denotes the same colour. */
  lemma DisplayedHexSameColor(hex: string)
    ensures HexBody(ToUpper(hex)).Some? <==> HexBody(hex).Some?
    ensures HexToRgb(ToUpper(hex)) == HexToRgb(hex)
  {
    var u := ToUpper(hex);
    forall i | 0 <= i < |hex|
      ensures IsHexDigit(u[i]) <==> IsHexDigit(hex[i])
      ensures IsHexDigit(hex[i]) ==> HexValue(u[i]) == HexValue(hex[i])
    {
      UpperHexDigit(hex[i]);
    }
    if |hex| == 7 {
      assert forall i :: 0 <= i < 6 ==> u[1..][i] == u[i + 1] && hex[1..][i] == hex[i + 1];
    }
  }

  /** The palette: the colour's HSL triple with seven lightness values, lightest first. */
  function Palette(base: Hsl): seq<Hsl> {
    [ base.(l := if base.l + 30 < 90 then base.l + 30 else 90),
      base.(l := if base.l + 20 < 80 then base.l + 20 else 80),
      base.(l := if base.l + 10 < 70 then base.l + 10 else 70),
      base,
      base.(l := if base.l - 10 > 30 then base.l - 10 else 30),
      base.(l := if base.l - 20 > 20 then base.l - 20 else 20),
      base.(l := if base.l - 30 > 10 then base.l - 30 else 10) ]
  }

  /** Seven entries sharing the hue and saturation, the middle one the colour itself; for
      a lightness in 0 .. 100 every entry's lightness is too, and for a lightness in
      40 .. 60 the entries run strictly from light to dark. */
  lemma PaletteSpec(base: Hsl)
    ensures var p := Palette(base);
      && |p| == 7 && p[3] == base
      && (forall i :: 0 <= i < 7 ==> p[i].h == base.h && p[i].s == base.s)
      && p[0].l <= 90 && p[1].l <= 80 && p[2].l <= 70
      && p[4].l >= 30 && p[5].l >= 20 && p[6].l >= 10
      && (0 <= base.l <= 100 ==> forall i :: 0 <= i < 7 ==> 0 <= p[i].l <= 100)
      && (40 <= base.l <= 60 ==> forall i, j :: 0 <= i < j < 7 ==> p[i].l > p[j].l)
  {
  }

  /** The picker's state cells: the colour, the text field, and which value was last
      copied. */
  datatype PickerState = PickerState(selectedColor: string, inputValue: string, copied: Option<string>)

  const INITIAL_COLOR: string := "#3b82f6"

  const INITIAL_STATE: PickerState := PickerState(INITIAL_COLOR, INITIAL_COLOR, None)

  /** The hex shown for the colour. */
  function DisplayedHex(st: PickerState): string {
    ToUpper(st.selectedColor)
  }

  /** handleInputChange: the text is always stored; it becomes the colour only when it is
      '#' and exactly six hex digits. */
  function HandleInputChange(st: PickerState, value: string): (r: PickerState)
    ensures r.inputValue == value && r.copied == st.copied
    ensures r.selectedColor == (if IsHexColor(value) then value else st.selectedColor)
  {
    var typed := st.(inputValue := value);
    if IsHexColor(value) then typed.(selectedColor := value) else typed
  }

  /** clearInput: the text field is emptied, the colour kept. */
  function ClearInput(st: PickerState): (r: PickerState)
    ensures r.inputValue == [] && r.selectedColor == st.selectedColor && r.copied == st.copied
  {
    st.(inputValue := [])
  }

  /** generateRandomColor, for the random number `n` it floors: the same formula as
      getRandomHexColor, set as both the colour and the text. */
  function GenerateRandomColor(st: PickerState, n: nat): (r: PickerState)
    requires n < SidebarUtils.RANDOM_RANGE
    ensures r.selectedColor == r.inputValue == SidebarUtils.RandomHexColor(n)
  {
    var c := SidebarUtils.RandomHexColor(n);
    st.(selectedColor := c, inputValue := c)
  }

  /** The colour is always a '#rrggbb' colour, so hexToRgb never falls back to black for it. */
  predicate Valid(st: PickerState) {
    IsHexColor(st.selectedColor)
  }

  /** The initial state is valid and every change keeps it so; a valid colour's channels
      are its digit pairs, and so are the channels of the hex shown. */
  lemma ValidPreserved(st: PickerState, value: string, n: nat)
    requires n < SidebarUtils.RANDOM_RANGE
    ensures Valid(INITIAL_STATE)
    ensures Valid(st) ==> Valid(HandleInputChange(st, value)) && Valid(ClearInput(st))
    ensures Valid(GenerateRandomColor(st, n))
    ensures Valid(st) ==> HexBody(st.selectedColor) == Some(st.selectedColor[1..])
    ensures Valid(st) ==>
      HexToRgb(DisplayedHex(st))
        == Rgb(PairValue(st.selectedColor, 1), PairValue(st.selectedColor, 3), PairValue(st.selectedColor, 5))
  {
    assert IsHexColor(INITIAL_COLOR) by {
      assert forall i :: 0 <= i < 6 ==> INITIAL_COLOR[1..][i] == INITIAL_COLOR[i + 1];
    }
    SidebarUtils.RandomHexColorSpec(n);
    DisplayedHexSameColor(st.selectedColor);
    if Valid(st) {
      var d := st.selectedColor[1..];
      assert d[0] == st.selectedColor[1] && d[1] == st.selectedColor[2] && d[2] == st.selectedColor[3];
      assert d[3] == st.selectedColor[4] && d[4] == st.selectedColor[5] && d[5] == st.selectedColor[6];
    }
  }

  /** copyToClipboard: after a successful write the copied mark names the value copied;
      a failed write changes nothing. */
  function CopyToClipboard(st: PickerState, kind: string, writeSucceeds: bool): (r: PickerState)
    ensures r.selectedColor == st.selectedColor && r.inputValue == st.inputValue
    ensures r.copied == (if writeSucceeds then Some(kind) else st.copied)
  {
    if writeSucceeds then st.(copied := Some(kind)) else st
  }
}
