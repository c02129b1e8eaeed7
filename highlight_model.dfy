/** The highlighter's records (highlights, their tags and tag contents) and its colour
    helpers: the six highlight colours, their CSS class names and display names. */
module HighlightModel {
  import opened Wrappers
  import opened Text

  datatype TagType = Word | Annotation | Sentence

  datatype HighlightColor = Yellow | Red | Blue | Green | Purple | Orange

  datatype TextRange = TextRange(startOffset: int, endOffset: int,
                                 startContainer: string, endContainer: string)

  /** A tag's content: word entries, a user note, or the (empty) sentence analysis. Optional
      dictionary and analysis fields that nothing in the highlighter reads are left out. */
  datatype TagContent =
    | WordContent(definitions: seq<string>)
    | AnnotationContent(note: string, createdAt: int, updatedAt: int)
    | SentenceContent

  datatype HighlightTag = HighlightTag(id: string, tagType: TagType, title: string,
                                       content: TagContent, createdAt: int, updatedAt: int,
                                       isActive: Option<bool>)

  /** A stored highlight; records written by older versions carry no `tags`. */
  datatype Highlight = Highlight(id: string, text: string, url: string, color: HighlightColor,
                                 range: TextRange, tags: Option<seq<HighlightTag>>,
                                 timestamp: int, lastModified: int)

  /** The colour as it appears in CSS class names and in storage. */
  function ColorKeyword(c: HighlightColor): string {
    match c
    case Yellow => "yellow"
    case Red => "red"
    case Blue => "blue"
    case Green => "green"
    case Purple => "purple"
    case Orange => "orange"
  }

  /** Different colours have different keywords. */
  lemma ColorKeywordInjective(c: HighlightColor, d: HighlightColor)
    requires ColorKeyword(c) == ColorKeyword(d)
    ensures c == d
  {
    var k := ColorKeyword(c);
    assert k[0] == ColorKeyword(d)[0];
    if k[0] == 'r' || k[0] == 'y' || k[0] == 'b' || k[0] == 'o' {
    } else {
      assert k[0] == 'g' || k[0] == 'p';
    }
  }

  const CLASS_PREFIX: string := "effikit-highlight-"

  /** getHighlightColorClass. */
  function ColorClass(c: HighlightColor): (cls: string)
    ensures IsPrefix(CLASS_PREFIX, cls) && cls[|CLASS_PREFIX|..] == ColorKeyword(c)
  {
    CLASS_PREFIX + ColorKeyword(c)
  }

  /** The class name identifies the colour. */
  lemma ColorClassInjective(c: HighlightColor, d: HighlightColor)
    requires ColorClass(c) == ColorClass(d)
    ensures c == d
  {
    assert ColorClass(c)[|CLASS_PREFIX|..] == ColorClass(d)[|CLASS_PREFIX|..];
    ColorKeywordInjective(c, d);
  }

  /** getHighlightColors. */
  function Colors(): seq<HighlightColor> {
    [Yellow, Red, Blue, Green, Purple, Orange]
  }

  /** Every colour is listed exactly once, in the order yellow, red, blue, green, purple,
      orange. */
  lemma ColorsListEach()
    ensures |Colors()| == 6 && Colors()[0] == Yellow && Colors()[5] == Orange
    ensures forall c: HighlightColor :: c in Colors()
    ensures forall i, j :: 0 <= i < j < |Colors()| ==> Colors()[i] != Colors()[j]
  {
    forall c: HighlightColor
      ensures c in Colors()
    {
      match c
      case Yellow => assert Colors()[0] == c;
      case Red => assert Colors()[1] == c;
      case Blue => assert Colors()[2] == c;
      case Green => assert Colors()[3] == c;
      case Purple => assert Colors()[4] == c;
      case Orange => assert Colors()[5] == c;
    }
  }

  /** getHighlightColorName: the Chinese display name. */
  function ColorName(c: HighlightColor): string {
    match c
    case Yellow => "黄色"
    case Red => "红色"
    case Blue => "蓝色"
    case Green => "绿色"
    case Purple => "紫色"
    case Orange => "橙色"
  }

  /** Every colour has a two-character name ending in 色 ("colour"), and no two colours
      share a name. */
  lemma ColorNamesDistinct(c: HighlightColor, d: HighlightColor)
    ensures |ColorName(c)| == 2 && ColorName(c)[1] == '色'
    ensures ColorName(c) == ColorName(d) ==> c == d
  {
    if ColorName(c) == ColorName(d) {
      assert ColorName(c)[0] == ColorName(d)[0];
    }
  }
}
