/** The shadow-DOM host registry of the highlighter: every popover or highlight host is kept
    under its id with the style text it was given; hosts are created, replaced, destroyed
    and cleaned up by id. The CSS of the three style sheets is not part of this model: their
    texts are fixed when the manager is built. */
module ShadowStyles {
  import opened Wrappers
  import opened Text
  import opened HighlightModel

  datatype HostType = HighlightHost | PopoverHost

  const HOST_ID_PREFIX: string := "effikit-shadow-"
  const POPOVER_CSS: string := "position: fixed; height: 100%; z-index: 2147483647;"
  const HIGHLIGHT_CSS: string := "position: relative; display: contents;"

  /** One registered host: its element id, inline style, the full style text its shadow
      root receives, and the colour rules inserted later, in sheet order. `insertRule`
      without an index inserts at index 0, so the newest rule comes first and every
      inserted rule precedes the rules of the style text. */
  datatype ShadowHost = ShadowHost(elementId: string, cssText: string, styleText: string, rules: seq<string>)

  /** The style text of a host: the base sheet, a newline, and the highlight or popover
      sheet. */
  function StyleText(base: string, highlight: string, popover: string, t: HostType): (s: string)
    ensures |s| > |base| && s[..|base|] == base && s[|base|] == '\n'
    ensures t.HighlightHost? ==> s[|base| + 1..] == highlight
    ensures t.PopoverHost? ==> s[|base| + 1..] == popover
  {
    base + "\n" + (if t.HighlightHost? then highlight else popover)
  }

  /** Two host types get the same style text only when the two sheets agree. */
  lemma StyleTextDistinguishesTypes(base: string, highlight: string, popover: string)
    requires highlight != popover
    ensures StyleText(base, highlight, popover, HighlightHost) != StyleText(base, highlight, popover, PopoverHost)
  {
  }

  /** The background colour each highlight colour is drawn with. */
  function ColorHex(c: HighlightColor): string {
    match c
    case Yellow => "#ffd700"
    case Red => "#ff6b6b"
    case Blue => "#4dabf7"
    case Green => "#51cf66"
    case Purple => "#9775fa"
    case Orange => "#ff922b"
  }

  /** Each colour's hex is '#' and six lower-case hex digits, and no two colours share one. */
  lemma ColorHexWellFormed(c: HighlightColor, d: HighlightColor)
    ensures |ColorHex(c)| == 7 && ColorHex(c)[0] == '#'
    ensures forall i :: 1 <= i < 7 ==> IsHexDigit(ColorHex(c)[i]) && !IsAsciiUpper(ColorHex(c)[i])
    ensures c != d ==> ColorHex(c) != ColorHex(d)
  {
    var x, y := ColorHex(c), ColorHex(d);
    if c != d {
      assert x[3] != y[3];
    }
  }

  const RULE_PREFIX: string := ".highlight-bg.color-"
  const RULE_MIDDLE: string := " { background-color: "
  const RULE_SUFFIX: string := "; }"

  /** getHighlightColorRule */
  function HighlightColorRule(c: HighlightColor): string {
    RULE_PREFIX + ColorKeyword(c) + RULE_MIDDLE + ColorHex(c) + RULE_SUFFIX
  }

  /** Different colours give different rules. */
  lemma HighlightColorRuleInjective(c: HighlightColor, d: HighlightColor)
    requires HighlightColorRule(c) == HighlightColorRule(d)
    ensures c == d
  {
    var r := HighlightColorRule(c);
    var n := |RULE_PREFIX + ColorKeyword(c) + RULE_MIDDLE|;
    var m := |RULE_PREFIX + ColorKeyword(d) + RULE_MIDDLE|;
    // both rules end in a seven-character hex and "; }", so the keywords have equal length
    ColorHexWellFormed(c, d);
    ColorHexWellFormed(d, c);
    assert |r| == n + 10 && |HighlightColorRule(d)| == m + 10;
    assert r[|RULE_PREFIX|..n - |RULE_MIDDLE|] == ColorKeyword(c);
    assert HighlightColorRule(d)[|RULE_PREFIX|..m - |RULE_MIDDLE|] == ColorKeyword(d);
    ColorKeywordInjective(c, d);
  }

  class ShadowStyleManager {
    var shadowHosts: map<string, ShadowHost>
    /** Whether the constructable style sheets exist (the base sheet was built when the
        manager started); without them colour rules are not inserted, and building a host's
        sheet throws. */
    const sheetsSupported: bool
    const baseStyles: string
    const highlightStyles: string
    const popoverStyles: string

    constructor(sheetsSupported: bool, baseStyles: string, highlightStyles: string, popoverStyles: string)
      ensures shadowHosts == map[]
      ensures this.sheetsSupported == sheetsSupported && this.baseStyles == baseStyles
      ensures this.highlightStyles == highlightStyles && this.popoverStyles == popoverStyles
    {
      shadowHosts := map[];
      this.sheetsSupported := sheetsSupported;
      this.baseStyles := baseStyles;
      this.highlightStyles := highlightStyles;
      this.popoverStyles := popoverStyles;
    }

    /** The host createShadowHost builds for id: element id, inline style and style text by
        type, and no inserted rules yet. */
    function NewHost(id: string, t: HostType): ShadowHost {
      ShadowHost(HOST_ID_PREFIX + id, if t.HighlightHost? then HIGHLIGHT_CSS else POPOVER_CSS,
                 StyleText(baseStyles, highlightStyles, popoverStyles, t), [])
    }

    /** createShadowHost: any old host under id is destroyed first, then the new one is
        registered under id; other ids are untouched. Without constructable style sheets
        building the host's sheet throws (None) after the old host is gone, and nothing is
        registered. */
    method CreateShadowHost(id: string, t: HostType) returns (r: Option<ShadowHost>)
      modifies this
      ensures r.Some? <==> sheetsSupported
      ensures sheetsSupported ==> shadowHosts == old(shadowHosts)[id := r.value] && r.value == NewHost(id, t)
      ensures !sheetsSupported ==> shadowHosts == old(shadowHosts) - {id}
      ensures r.Some? ==> r.value.elementId == HOST_ID_PREFIX + id
      ensures r.Some? ==> r.value.cssText == (if t.HighlightHost? then HIGHLIGHT_CSS else POPOVER_CSS)
      ensures r.Some? ==> r.value.styleText == StyleText(baseStyles, highlightStyles, popoverStyles, t)
      ensures r.Some? ==> r.value.rules == []
    {
      DestroyShadowHost(id);
      if !sheetsSupported {
        return None;
      }
      var cssText := POPOVER_CSS;
      if t.HighlightHost? {
        cssText := HIGHLIGHT_CSS;
      }
      var styles := baseStyles;
      if t.HighlightHost? {
        styles := styles + "\n" + highlightStyles;
      } else {
        styles := styles + "\n" + popoverStyles;
      }
      var host := ShadowHost(HOST_ID_PREFIX + id, cssText, styles, []);
      shadowHosts := shadowHosts[id := host];
      r := Some(host);
    }

    /** destroyShadowHost: removes id when present, a no-op otherwise. */
    method DestroyShadowHost(id: string)
      modifies this
      ensures shadowHosts == old(shadowHosts) - {id}
      ensures id !in old(shadowHosts) ==> shadowHosts == old(shadowHosts)
    {
      if id in shadowHosts {
        shadowHosts := shadowHosts - {id};
      }
    }

    /** updateHighlightColor: inserts the colour's rule at the front of a known host's
        sheet when the sheets exist; an unknown id changes nothing. */
    method UpdateHighlightColor(id: string, c: HighlightColor)
      modifies this
      ensures id !in old(shadowHosts) || !sheetsSupported ==> shadowHosts == old(shadowHosts)
      ensures id in old(shadowHosts) && sheetsSupported ==>
        shadowHosts == old(shadowHosts)[id := old(shadowHosts)[id].(rules := [HighlightColorRule(c)] + old(shadowHosts)[id].rules)]
    {
      if id in shadowHosts && sheetsSupported {
        var data := shadowHosts[id];
        shadowHosts := shadowHosts[id := data.(rules := [HighlightColorRule(c)] + data.rules)];
      }
    }

    /** getActiveShadowHosts: a copy of the registry; maps are values, so changing the copy
        cannot reach the registry. */
    method GetActiveShadowHosts() returns (copy: map<string, ShadowHost>)
      ensures copy.Keys == shadowHosts.Keys
      ensures forall id :: id in copy ==> copy[id] == shadowHosts[id]
    {
      copy := map id | id in shadowHosts :: shadowHosts[id];
    }

    /** cleanup: every host is destroyed one by one, then the registry is cleared. */
    method Cleanup()
      modifies this
      ensures shadowHosts == map[]
    {
      var ids := shadowHosts.Keys;
      while ids != {}
        invariant shadowHosts.Keys <= old(shadowHosts.Keys)
        invariant forall id :: id in shadowHosts ==> id in ids
        decreases |ids|
      {
        var id :| id in ids;
        DestroyShadowHost(id);
        ids := ids - {id};
      }
      shadowHosts := map[];
    }
  }
}
