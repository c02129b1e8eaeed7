/** The content script's highlight manager: creating a highlight from the page selection,
    reading the page's highlights, and the tag operations on a highlight (add, edit, make
    active, delete), each loading the highlight by id, changing it and saving it back. */
module HighlighterManager {
  import opened Wrappers
  import opened Text
  import opened HighlightModel
  import opened HighlightStore
  import Urls

  // ---------------------------------------------------------------------------------
  // Tags

  function TagTypeName(t: TagType): string {
    match t
    case Word => "word"
    case Annotation => "annotation"
    case Sentence => "sentence"
  }

  /** A new tag's title: its type with the first letter upper-cased. */
  function TagTitle(t: TagType): (title: string)
    ensures |title| == |TagTypeName(t)| && title[1..] == TagTypeName(t)[1..]
    ensures title[0] == UpperChar(TagTypeName(t)[0])
  {
    var name := TagTypeName(t);
    [UpperChar(name[0])] + name[1..]
  }

  lemma TagTitles()
    ensures TagTitle(Word) == "Word" && TagTitle(Annotation) == "Annotation"
    ensures TagTitle(Sentence) == "Sentence"
  {
  }

  /** createInitialTagContent. */
  function InitialTagContent(t: TagType, now: int): TagContent {
    match t
    case Annotation => AnnotationContent("", now, now)
    case Word => WordContent([])
    case Sentence => SentenceContent
  }

  /** The initial content has the tag's own kind, and starts empty: an annotation with an
      empty note created and updated now, a word with no definitions. */
  lemma InitialTagContentFitsType(t: TagType, now: int)
    ensures var c := InitialTagContent(t, now);
      && (c.AnnotationContent? <==> t == Annotation)
      && (c.WordContent? <==> t == Word)
      && (c.SentenceContent? <==> t == Sentence)
      && (c.AnnotationContent? ==> c.note == [] && c.createdAt == now && c.updatedAt == now)
      && (c.WordContent? ==> c.definitions == [])
  {
  }

  predicate IsActive(t: HighlightTag) {
    t.isActive == Some(true)
  }

  function ActiveCount(tags: seq<HighlightTag>): nat {
    if tags == [] then 0 else (if IsActive(tags[0]) then 1 else 0) + ActiveCount(tags[1..])
  }

  lemma {:induction false} ActiveCountNone(tags: seq<HighlightTag>)
    requires forall i :: 0 <= i < |tags| ==> !IsActive(tags[i])
    ensures ActiveCount(tags) == 0
  {
    if tags != [] {
      ActiveCountNone(tags[1..]);
    }
  }

  lemma {:induction false} ActiveCountOne(tags: seq<HighlightTag>, k: nat)
    requires k < |tags| && IsActive(tags[k])
    requires forall i :: 0 <= i < |tags| && i != k ==> !IsActive(tags[i])
    ensures ActiveCount(tags) == 1
  {
    if k == 0 {
      ActiveCountNone(tags[1..]);
    } else {
      ActiveCountOne(tags[1..], k - 1);
    }
  }

  /** A fresh tag of a type, active, created and updated now. */
  function NewTag(id: string, t: TagType, now: int): HighlightTag {
    HighlightTag(id, t, TagTitle(t), InitialTagContent(t, now), now, now, Some(true))
  }

  /** Every tag made inactive, then the new tag appended. */
  function WithNewTag(tags: seq<HighlightTag>, tag: HighlightTag): (r: seq<HighlightTag>)
    ensures |r| == |tags| + 1 && r[|tags|] == tag
    ensures forall i :: 0 <= i < |tags| ==> r[i] == tags[i].(isActive := Some(false))
  {
    if tags == [] then [tag] else [tags[0].(isActive := Some(false))] + WithNewTag(tags[1..], tag)
  }

  /** After adding, the new tag is last and the only active tag. */
  lemma WithNewTagOnlyActive(tags: seq<HighlightTag>, tag: HighlightTag)
    requires IsActive(tag)
    ensures var r := WithNewTag(tags, tag);
      ActiveCount(r) == 1 && IsActive(r[|r| - 1])
  {
    ActiveCountOne(WithNewTag(tags, tag), |tags|);
  }

  /** setActiveTag's update: a tag is active exactly when its id is the given one. */
  function Activated(tags: seq<HighlightTag>, tagId: string): (r: seq<HighlightTag>)
    ensures |r| == |tags|
    ensures forall i :: 0 <= i < |tags| ==> r[i] == tags[i].(isActive := Some(tags[i].id == tagId))
  {
    if tags == [] then [] else [tags[0].(isActive := Some(tags[0].id == tagId))] + Activated(tags[1..], tagId)
  }

  /** Tags listed once each: a setActiveTag with a listed id leaves exactly one tag active,
      one with an unknown id none. */
  lemma ActivatedCount(tags: seq<HighlightTag>, tagId: string)
    requires forall i, j :: 0 <= i < j < |tags| ==> tags[i].id != tags[j].id
    ensures (exists i :: 0 <= i < |tags| && tags[i].id == tagId) ==> ActiveCount(Activated(tags, tagId)) == 1
    ensures (forall i :: 0 <= i < |tags| ==> tags[i].id != tagId) ==> ActiveCount(Activated(tags, tagId)) == 0
  {
    var r := Activated(tags, tagId);
    if exists i :: 0 <= i < |tags| && tags[i].id == tagId {
      var k :| 0 <= k < |tags| && tags[k].id == tagId;
      ActiveCountOne(r, k);
    } else {
      ActiveCountNone(r);
    }
  }

  /** findIndex on tag ids: the first position with the id, or -1. */
  function FindTag(tags: seq<HighlightTag>, tagId: string): (k: int)
    ensures -1 <= k < |tags|
    ensures k >= 0 ==> tags[k].id == tagId && forall j :: 0 <= j < k ==> tags[j].id != tagId
    ensures k == -1 ==> forall j :: 0 <= j < |tags| ==> tags[j].id != tagId
  {
    if tags == [] then -1
    else if tags[0].id == tagId then 0
    else var k := FindTag(tags[1..], tagId); if k == -1 then -1 else k + 1
  }

  /** The tags without the one at position k. */
  function Spliced(tags: seq<HighlightTag>, k: nat): (r: seq<HighlightTag>)
    requires k < |tags|
    ensures |r| == |tags| - 1
    ensures forall i {:trigger r[i]} :: 0 <= i < |r| ==> r[i] == (if i < k then tags[i] else tags[i + 1])
  {
    tags[..k] + tags[k + 1..]
  }

  /** The tags with the first one marked active; nothing else changes. */
  function WithFirstActive(tags: seq<HighlightTag>): (r: seq<HighlightTag>)
    requires tags != []
    ensures |r| == |tags| && IsActive(r[0]) && r[0].id == tags[0].id
    ensures forall i :: 1 <= i < |r| ==> r[i] == tags[i]
  {
    tags[0 := tags[0].(isActive := Some(true))]
  }

  /** deleteTag's update: None for an unknown id; otherwise the tag is spliced out and,
      when it was the active one and tags remain, the first remaining tag becomes active. */
  function DeletedTag(tags: seq<HighlightTag>, tagId: string): Option<seq<HighlightTag>> {
    var k := FindTag(tags, tagId);
    if k < 0 then None
    else
      var rest := Spliced(tags, k);
      if IsActive(tags[k]) && rest != [] then Some(WithFirstActive(rest))
      else Some(rest)
  }

  /** Deleting fails exactly for an unknown id. */
  lemma DeletedTagFails(tags: seq<HighlightTag>, tagId: string)
    ensures DeletedTag(tags, tagId).None? <==> forall j :: 0 <= j < |tags| ==> tags[j].id != tagId
  {
    var k := FindTag(tags, tagId);
    if k >= 0 {
      assert tags[k].id == tagId;
    }
  }

  /** Deleting a listed tag removes exactly that tag and keeps the others in order. */
  lemma DeletedTagEffect(tags: seq<HighlightTag>, tagId: string)
    ensures DeletedTag(tags, tagId).Some? ==>
      var k := FindTag(tags, tagId);
      var r := DeletedTag(tags, tagId).value;
      && |r| == |tags| - 1
      && (forall i {:trigger r[i]} :: 0 <= i < |r| ==> r[i].id == (if i < k then tags[i] else tags[i + 1]).id)
      && (forall i {:trigger r[i]} :: 1 <= i < |r| ==> r[i] == (if i < k then tags[i] else tags[i + 1]))
      && (IsActive(tags[k]) && r != [] ==> IsActive(r[0]))
  {
    if DeletedTag(tags, tagId).Some? {
      DeletedFound(tags, tagId, FindTag(tags, tagId));
    }
  }

  lemma DeletedFound(tags: seq<HighlightTag>, tagId: string, k: nat)
    requires k < |tags| && k == FindTag(tags, tagId)
    ensures DeletedTag(tags, tagId).Some?
    ensures var r := DeletedTag(tags, tagId).value;
      && |r| == |tags| - 1
      && (forall i {:trigger r[i]} :: 0 <= i < |r| ==> r[i].id == (if i < k then tags[i] else tags[i + 1]).id)
      && (forall i {:trigger r[i]} :: 1 <= i < |r| ==> r[i] == (if i < k then tags[i] else tags[i + 1]))
      && (IsActive(tags[k]) && r != [] ==> IsActive(r[0]))
  {
    var rest := Spliced(tags, k);
    if IsActive(tags[k]) && rest != [] {
      assert DeletedTag(tags, tagId).value == WithFirstActive(rest);
      DeletedThenActivated(tags, k, rest, WithFirstActive(rest));
    } else {
      assert DeletedTag(tags, tagId).value == rest;
    }
  }

  lemma DeletedThenActivated(tags: seq<HighlightTag>, k: nat, rest: seq<HighlightTag>, r: seq<HighlightTag>)
    requires k < |tags| && rest == Spliced(tags, k) && rest != [] && r == WithFirstActive(rest)
    ensures |r| == |tags| - 1
    ensures forall i :: 0 <= i < |r| ==> r[i].id == (if i < k then tags[i] else tags[i + 1]).id
    ensures forall i :: 1 <= i < |r| ==> r[i] == (if i < k then tags[i] else tags[i + 1])
  {
    forall i | 0 <= i < |r|
      ensures r[i].id == rest[i].id
    {
    }
  }

  /** With exactly one active tag before, deleting any tag leaves exactly one active tag
      as long as tags remain. */
  lemma DeletedTagKeepsOneActive(tags: seq<HighlightTag>, tagId: string)
    requires ActiveCount(tags) == 1
    requires DeletedTag(tags, tagId).Some? && DeletedTag(tags, tagId).value != []
    ensures ActiveCount(DeletedTag(tags, tagId).value) == 1
  {
    var k := FindTag(tags, tagId);
    var rest := Spliced(tags, k);
    assert tags == tags[..k] + [tags[k]] + tags[k + 1..];
    ActiveCountAppend(tags[..k] + [tags[k]], tags[k + 1..]);
    ActiveCountAppend(tags[..k], [tags[k]]);
    ActiveCountAppend(tags[..k], tags[k + 1..]);
    if IsActive(tags[k]) {
      assert ActiveCount(rest) == 0;
      ActiveCountZero(rest);
      var r := WithFirstActive(rest);
      ActiveCountOne(r, 0);
    }
  }

  lemma {:induction false} ActiveCountAppend(a: seq<HighlightTag>, b: seq<HighlightTag>)
    ensures ActiveCount(a + b) == ActiveCount(a) + ActiveCount(b)
  {
    if a != [] {
      assert (a + b)[1..] == a[1..] + b;
      ActiveCountAppend(a[1..], b);
    } else {
      assert a + b == b;
    }
  }

  lemma {:induction false} ActiveCountZero(tags: seq<HighlightTag>)
    requires ActiveCount(tags) == 0
    ensures forall i :: 0 <= i < |tags| ==> !IsActive(tags[i])
  {
    if tags != [] {
      ActiveCountZero(tags[1..]);
    }
  }

  /** updateTagContent's update on the tag list: None for an unknown tag; otherwise the
      first tag with the id gets the content and the update time. */
  function ContentUpdated(tags: seq<HighlightTag>, tagId: string, content: TagContent, now: int)
    : Option<seq<HighlightTag>>
  {
    var k := FindTag(tags, tagId);
    if k < 0 then None else Some(tags[k := tags[k].(content := content, updatedAt := now)])
  }

  /** Only that tag's content and update time change. */
  lemma ContentUpdatedEffect(tags: seq<HighlightTag>, tagId: string, content: TagContent, now: int)
    ensures ContentUpdated(tags, tagId, content, now).None? <==>
      forall j :: 0 <= j < |tags| ==> tags[j].id != tagId
    ensures ContentUpdated(tags, tagId, content, now).Some? ==>
      var r := ContentUpdated(tags, tagId, content, now).value;
      var k := FindTag(tags, tagId);
      && |r| == |tags|
      && (forall i :: 0 <= i < |tags| && i != k ==> r[i] == tags[i])
      && r[k].content == content && r[k].updatedAt == now
      && r[k].id == tags[k].id && r[k].isActive == tags[k].isActive && r[k].title == tags[k].title
  {
  }

  // ---------------------------------------------------------------------------------
  // Highlights

  /** A tag operation on a whole highlight: None where the source throws (a stored record
      without a tag list, or the tag update failing), else the highlight with the new tags,
      modified now. */
  function WithTags(h: Highlight, update: Option<seq<HighlightTag>>, now: int): Option<Highlight> {
    if update.None? then None else Some(h.(tags := update, lastModified := now))
  }

  function AddTagTo(h: Highlight, tagId: string, t: TagType, now: int): Option<Highlight> {
    if h.tags.None? then None else WithTags(h, Some(WithNewTag(h.tags.value, NewTag(tagId, t, now))), now)
  }

  /** addTagToHighlight on a found highlight: one more tag, the new one last and the only
      active one, modified now. */
  lemma AddTagToEffect(h: Highlight, tagId: string, t: TagType, now: int)
    requires h.tags.Some?
    ensures var r := AddTagTo(h, tagId, t, now);
      && r.Some? && r.value.tags.Some?
      && |r.value.tags.value| == |h.tags.value| + 1
      && r.value.tags.value[|h.tags.value|] == NewTag(tagId, t, now)
      && ActiveCount(r.value.tags.value) == 1
      && r.value.lastModified == now && r.value.id == h.id && r.value.url == h.url
  {
    WithNewTagOnlyActive(h.tags.value, NewTag(tagId, t, now));
  }

  /** `tags: h.tags || []` for each highlight read by the manager. */
  function DefaultTags(hs: seq<Highlight>): (r: seq<Highlight>)
    ensures |r| == |hs|
    ensures forall i :: 0 <= i < |hs| ==> r[i] == hs[i].(tags := Some(hs[i].tags.GetOr([])))
  {
    if hs == [] then [] else [hs[0].(tags := Some(hs[0].tags.GetOr([])))] + DefaultTags(hs[1..])
  }

  /** Every highlight the manager returns has a tag list, and is otherwise the stored
      record. */
  lemma DefaultTagsComplete(hs: seq<Highlight>)
    ensures forall i :: 0 <= i < |hs| ==> DefaultTags(hs)[i].tags.Some?
    ensures forall i :: 0 <= i < |hs| ==>
      DefaultTags(hs)[i].(tags := hs[i].tags) == hs[i]
    ensures forall i :: 0 <= i < |hs| && hs[i].tags.Some? ==> DefaultTags(hs)[i] == hs[i]
  {
  }

  /** What window.getSelection() reports: its range count and its text. */
  datatype Selection = Selection(rangeCount: nat, text: string)

  /** The highlight createHighlight builds, or None where it gives up: disabled, no
      selection or no range in it, blank text, no range to store, or the page refusing the
      wrapping element. */
  function NewHighlight(enabled: bool, selection: Option<Selection>, range: Option<TextRange>,
                        wrapped: bool, id: string, pageUrl: string, color: HighlightColor,
                        now: int): Option<Highlight>
  {
    if !enabled || selection.None? || selection.value.rangeCount == 0 then None
    else if Trim(selection.value.text) == [] || range.None? || !wrapped then None
    else Some(Highlight(id, Trim(selection.value.text), pageUrl, color, range.value, Some([]), now, now))
  }

  /** createHighlight succeeds exactly when every guard passes, and then stores the
      trimmed text, with no tags, created and modified now. */
  lemma NewHighlightGuards(enabled: bool, selection: Option<Selection>, range: Option<TextRange>,
                           wrapped: bool, id: string, pageUrl: string, color: HighlightColor, now: int)
    ensures var r := NewHighlight(enabled, selection, range, wrapped, id, pageUrl, color, now);
      && (r.Some? <==> (enabled && selection.Some? && selection.value.rangeCount > 0
                        && !IsBlank(selection.value.text) && range.Some? && wrapped))
      && (r.Some? ==> r.value.text == Trim(selection.value.text) && r.value.tags == Some([])
                      && r.value.timestamp == now && r.value.lastModified == now
                      && r.value.url == pageUrl && r.value.id == id && r.value.color == color)
  {
    var r := NewHighlight(enabled, selection, range, wrapped, id, pageUrl, color, now);
    if enabled && selection.Some? && selection.value.rangeCount > 0 {
      var text := selection.value.text;
      TrimEmptyIffBlank(text);
      if Trim(text) != [] && range.Some? && wrapped {
        assert r == Some(Highlight(id, Trim(text), pageUrl, color, range.value, Some([]), now, now));
      } else {
        assert r.None?;
      }
    } else {
      assert r.None?;
    }
  }

  /** The highlight with the id on the page, as getHighlightById reads it. */
  function Lookup(store: HighlightStorage, pageUrl: string, id: string): Option<Highlight>
    requires store.Valid()
    reads store
  {
    FirstWithId(store.GetHighlights(Some(pageUrl)), id)
  }

  class HighlightManager {
    var isEnabled: bool
    var currentHighlight: Option<Highlight>

    constructor()
      ensures isEnabled && currentHighlight.None?
    {
      isEnabled := true;
      currentHighlight := None;
    }

    method SetEnabled(enabled: bool)
      modifies this
      ensures isEnabled == enabled && currentHighlight == old(currentHighlight)
    {
      isEnabled := enabled;
    }

    /** createHighlight: on success the highlight is saved under its page. */
    method CreateHighlight(store: HighlightStorage, selection: Option<Selection>,
                           range: Option<TextRange>, wrapped: bool, id: string,
                           pageUrl: string, color: HighlightColor, now: int)
      returns (r: Option<Highlight>)
      requires store.Valid()
      modifies store
      ensures store.Valid()
      ensures r == NewHighlight(isEnabled, selection, range, wrapped, id, pageUrl, color, now)
      ensures r.None? ==> store.buckets == old(store.buckets)
      ensures r.Some? ==> store.buckets == Appended(old(store.buckets), Urls.NormalizeUrl(pageUrl), r.value)
    {
      r := NewHighlight(isEnabled, selection, range, wrapped, id, pageUrl, color, now);
      if r.Some? {
        store.SaveHighlight(r.value);
      }
    }

    /** getHighlights: the page's highlights (all of them for an empty page URL), each with
        a tag list. */
    function GetHighlights(store: HighlightStorage, url: Option<string>, pageUrl: string)
      : seq<Highlight>
      requires store.Valid()
      reads store
    {
      var u := if url.Some? && url.value != [] then url.value else pageUrl;
      DefaultTags(store.GetHighlights(Some(u)))
    }

    /** getHighlightById: the first stored record with the id; remembered when found. */
    method GetHighlightById(store: HighlightStorage, pageUrl: string, id: string)
      returns (found: Option<Highlight>)
      requires store.Valid()
      modifies this
      ensures found == Lookup(store, pageUrl, id)
      ensures found.Some? ==> currentHighlight == found
      ensures found.None? ==> currentHighlight == old(currentHighlight)
      ensures isEnabled == old(isEnabled)
    {
      found := FirstWithId(store.GetHighlights(Some(pageUrl)), id);
      if found.Some? {
        currentHighlight := found;
      }
    }

    /** The shared shape of the tag operations: look the highlight up, apply the change,
        save the result in place of the stored record. */
    method SaveResult(store: HighlightStorage, updated: Option<Highlight>)
      requires store.Valid()
      modifies store
      ensures store.Valid()
      ensures updated.None? ==> store.buckets == old(store.buckets)
      ensures updated.Some? ==> store.buckets == Replacing(old(store.buckets), updated.value)
    {
      if updated.Some? {
        store.SaveHighlightReplacing(updated.value);
      }
    }

    method AddTagToHighlight(store: HighlightStorage, pageUrl: string, highlightId: string,
                             t: TagType, tagId: string, now: int)
      returns (r: Option<Highlight>)
      requires store.Valid()
      modifies this, store
      ensures store.Valid()
      ensures var found := old(Lookup(store, pageUrl, highlightId));
        r == (if found.None? then None else AddTagTo(found.value, tagId, t, now))
      ensures r.None? ==> store.buckets == old(store.buckets)
      ensures r.Some? ==> store.buckets == Replacing(old(store.buckets), r.value)
      ensures r.Some? && pageUrl != [] ==> Lookup(store, pageUrl, highlightId) == r
    {
      var found := GetHighlightById(store, pageUrl, highlightId);
      r := if found.None? then None else AddTagTo(found.value, tagId, t, now);
      SaveResult(store, r);
      if r.Some? && pageUrl != [] {
        ReadBackAfterReplacing(old(store.buckets), Urls.NormalizeUrl(pageUrl), found.value, r.value);
      }
    }

    method UpdateTagContent(store: HighlightStorage, pageUrl: string, highlightId: string,
                            tagId: string, content: TagContent, now: int)
      returns (r: Option<Highlight>)
      requires store.Valid()
      modifies this, store
      ensures store.Valid()
      ensures var found := old(Lookup(store, pageUrl, highlightId));
        r == (if found.None? || found.value.tags.None? then None
              else WithTags(found.value, ContentUpdated(found.value.tags.value, tagId, content, now), now))
      ensures r.None? ==> store.buckets == old(store.buckets)
      ensures r.Some? ==> store.buckets == Replacing(old(store.buckets), r.value)
      ensures r.Some? && pageUrl != [] ==> Lookup(store, pageUrl, highlightId) == r
    {
      var found := GetHighlightById(store, pageUrl, highlightId);
      r := if found.None? || found.value.tags.None? then None
           else WithTags(found.value, ContentUpdated(found.value.tags.value, tagId, content, now), now);
      SaveResult(store, r);
      if r.Some? && pageUrl != [] {
        ReadBackAfterReplacing(old(store.buckets), Urls.NormalizeUrl(pageUrl), found.value, r.value);
      }
    }

    /** setActiveTag: the highlight is saved again but, as written, not marked modified. */
    method SetActiveTag(store: HighlightStorage, pageUrl: string, highlightId: string, tagId: string)
      returns (r: Option<Highlight>)
      requires store.Valid()
      modifies this, store
      ensures store.Valid()
      ensures var found := old(Lookup(store, pageUrl, highlightId));
        r == (if found.None? || found.value.tags.None? then None
              else Some(found.value.(tags := Some(Activated(found.value.tags.value, tagId)))))
      ensures r.None? ==> store.buckets == old(store.buckets)
      ensures r.Some? ==> store.buckets == Replacing(old(store.buckets), r.value)
      ensures r.Some? && pageUrl != [] ==> Lookup(store, pageUrl, highlightId) == r
    {
      var found := GetHighlightById(store, pageUrl, highlightId);
      r := if found.None? || found.value.tags.None? then None
           else Some(found.value.(tags := Some(Activated(found.value.tags.value, tagId))));
      SaveResult(store, r);
      if r.Some? && pageUrl != [] {
        ReadBackAfterReplacing(old(store.buckets), Urls.NormalizeUrl(pageUrl), found.value, r.value);
      }
    }

    method DeleteTag(store: HighlightStorage, pageUrl: string, highlightId: string,
                     tagId: string, now: int)
      returns (r: Option<Highlight>)
      requires store.Valid()
      modifies this, store
      ensures store.Valid()
      ensures var found := old(Lookup(store, pageUrl, highlightId));
        r == (if found.None? || found.value.tags.None? then None
              else WithTags(found.value, DeletedTag(found.value.tags.value, tagId), now))
      ensures r.None? ==> store.buckets == old(store.buckets)
      ensures r.Some? ==> store.buckets == Replacing(old(store.buckets), r.value)
      ensures r.Some? && pageUrl != [] ==> Lookup(store, pageUrl, highlightId) == r
    {
      var found := GetHighlightById(store, pageUrl, highlightId);
      r := if found.None? || found.value.tags.None? then None
           else WithTags(found.value, DeletedTag(found.value.tags.value, tagId), now);
      SaveResult(store, r);
      if r.Some? && pageUrl != [] {
        ReadBackAfterReplacing(old(store.buckets), Urls.NormalizeUrl(pageUrl), found.value, r.value);
      }
    }
  }

  /** With the corrected save, the saved result of a tag operation on a highlight found
      under some page is what the next lookup on that page returns. */
  lemma ReadBackAfterReplacing(buckets: Buckets, key: string, found: Highlight, h: Highlight)
    requires KeysMatchUrls(buckets) && key in buckets && found in buckets[key]
    requires h.url == found.url && h.id == found.id
    ensures key == Urls.NormalizeUrl(h.url)
    ensures FirstWithId(Replacing(buckets, h)[key], h.id) == Some(h)
  {
    ReplacedFindsSaved(buckets[key], h);
  }
}
