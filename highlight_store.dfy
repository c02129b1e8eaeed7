/** The highlighter's persisted store: highlights grouped per normalised page URL, in the
    key order a JavaScript object keeps (insertion order), together with the settings
    record read with defaults. */
module HighlightStore {
  import opened Wrappers
  import opened HighlightModel
  import Urls
  import Seqs

  type Buckets = map<string, seq<Highlight>>

  /** The keys listed once each, exactly the keys of the map. */
  ghost predicate OrderMatches(order: seq<string>, buckets: Buckets) {
    NoDuplicates(order) && forall k :: k in buckets <==> k in order
  }

  /** Every highlight sits in the bucket of its own normalised URL. */
  ghost predicate KeysMatchUrls(buckets: Buckets) {
    forall k, h :: k in buckets && h in buckets[k] ==> Urls.NormalizeUrl(h.url) == k
  }

  predicate NoDuplicates(s: seq<string>) {
    s == [] || (s[0] !in s[1..] && NoDuplicates(s[1..]))
  }

  /** `Object.values(storage).flat()`: the buckets concatenated in key order. */
  function Flatten(order: seq<string>, buckets: Buckets): seq<Highlight>
    requires forall k :: k in order ==> k in buckets
  {
    if order == [] then [] else buckets[order[0]] + Flatten(order[1..], buckets)
  }

  function TotalSize(order: seq<string>, buckets: Buckets): nat
    requires forall k :: k in order ==> k in buckets
  {
    if order == [] then 0 else |buckets[order[0]]| + TotalSize(order[1..], buckets)
  }

  /** The flattened list is as long as all buckets together, and holds exactly the
      highlights of the buckets. */
  lemma {:induction false} FlattenContents(order: seq<string>, buckets: Buckets)
    requires forall k :: k in order ==> k in buckets
    ensures |Flatten(order, buckets)| == TotalSize(order, buckets)
    ensures forall h :: h in Flatten(order, buckets) <==>
      exists k :: k in order && h in buckets[k]
  {
    if order != [] {
      FlattenContents(order[1..], buckets);
      var f := Flatten(order, buckets);
      forall h
        ensures h in f <==> exists k :: k in order && h in buckets[k]
      {
        if h in buckets[order[0]] {
          assert order[0] in order;
        }
        if exists k :: k in order && h in buckets[k] {
          var k :| k in order && h in buckets[k];
          if k != order[0] {
            assert k in order[1..];
          }
        }
      }
    }
  }

  /** The store after saving h under key, as written: h is appended to the bucket, which is
      created if missing, even when the bucket already holds a highlight with h's id. */
  function Appended(buckets: Buckets, key: string, h: Highlight): Buckets {
    buckets[key := (if key in buckets then buckets[key] else []) + [h]]
  }

  /** The first highlight with the given id (`find`). */
  function FirstWithId(hs: seq<Highlight>, id: string): (r: Option<Highlight>)
    ensures r.Some? ==> r.value in hs && r.value.id == id
    ensures r.None? ==> forall i :: 0 <= i < |hs| ==> hs[i].id != id
  {
    if hs == [] then None else if hs[0].id == id then Some(hs[0]) else FirstWithId(hs[1..], id)
  }

  lemma {:induction false} FirstWithIdAppend(hs: seq<Highlight>, extra: seq<Highlight>, id: string)
    requires FirstWithId(hs, id).Some?
    ensures FirstWithId(hs + extra, id) == FirstWithId(hs, id)
  {
    if hs[0].id != id {
      assert (hs + extra)[1..] == hs[1..] + extra;
      FirstWithIdAppend(hs[1..], extra, id);
    }
  }

  /** Saving a changed copy of a stored highlight does not change what a lookup by id
      returns: the bucket grows by one, and the lookup still finds the earlier record. */
  lemma AppendedKeepsStaleRecord(buckets: Buckets, key: string, h: Highlight)
    requires key in buckets && FirstWithId(buckets[key], h.id).Some?
    ensures var b := Appended(buckets, key, h)[key];
      |b| == |buckets[key]| + 1 && FirstWithId(b, h.id) == FirstWithId(buckets[key], h.id)
  {
    FirstWithIdAppend(buckets[key], [h], h.id);
  }

  /** Replaces every record with h's id by h, keeping the position of the first, or
      appends h when there is none. */
  function Replaced(hs: seq<Highlight>, h: Highlight): (r: seq<Highlight>)
    ensures FirstWithId(hs, h.id).None? ==> r == hs + [h]
  {
    if FirstWithId(hs, h.id).None? then hs + [h] else ReplaceFirstDropRest(hs, h)
  }

  /** The store after the corrected save of h. */
  function Replacing(buckets: Buckets, h: Highlight): Buckets {
    var key := Urls.NormalizeUrl(h.url);
    buckets[key := Replaced(if key in buckets then buckets[key] else [], h)]
  }

  /** The corrected save introduces no record but h. */
  lemma ReplacedSubset(hs: seq<Highlight>, h: Highlight)
    ensures forall x :: x in Replaced(hs, h) ==> x in hs || x == h
  {
    if FirstWithId(hs, h.id).Some? {
      ReplaceFirstSubset(hs, h);
    }
  }

  lemma {:induction false} ReplaceFirstSubset(hs: seq<Highlight>, h: Highlight)
    ensures forall x :: x in ReplaceFirstDropRest(hs, h) ==> x in hs || x == h
  {
    if hs != [] {
      ReplaceFirstSubset(hs[1..], h);
    }
  }

  function ReplaceFirstDropRest(hs: seq<Highlight>, h: Highlight): seq<Highlight> {
    if hs == [] then []
    else if hs[0].id == h.id then [h] + RemoveId(hs[1..], h.id)
    else [hs[0]] + ReplaceFirstDropRest(hs[1..], h)
  }

  /** `filter(h => h.id !== id)`. */
  function RemoveId(hs: seq<Highlight>, id: string): (r: seq<Highlight>)
    ensures |r| <= |hs|
    ensures forall x :: x in r <==> x in hs && x.id != id
    ensures forall x :: multiset(r)[x] == if x.id != id then multiset(hs)[x] else 0
  {
    if hs == [] then []
    else
      assert multiset(hs) == multiset{hs[0]} + multiset(hs[1..]) by { assert hs == [hs[0]] + hs[1..]; }
      (if hs[0].id == id then [] else [hs[0]]) + RemoveId(hs[1..], id)
  }

  lemma {:induction false} ReplaceFirstFinds(hs: seq<Highlight>, h: Highlight)
    requires FirstWithId(hs, h.id).Some?
    ensures FirstWithId(ReplaceFirstDropRest(hs, h), h.id) == Some(h)
    ensures forall x :: x in ReplaceFirstDropRest(hs, h) && x.id == h.id ==> x == h
  {
    if hs[0].id != h.id {
      ReplaceFirstFinds(hs[1..], h);
    }
  }

  /** The corrected save: afterwards a lookup by id finds exactly what was saved, and it is
      the only record with that id in its bucket. */
  lemma ReplacedFindsSaved(hs: seq<Highlight>, h: Highlight)
    ensures FirstWithId(Replaced(hs, h), h.id) == Some(h)
    ensures forall x :: x in Replaced(hs, h) && x.id == h.id ==> x == h
  {
    if FirstWithId(hs, h.id).Some? {
      ReplaceFirstFinds(hs, h);
    } else {
      FirstWithIdOfAbsent(hs, h);
    }
  }

  lemma {:induction false} FirstWithIdOfAbsent(hs: seq<Highlight>, h: Highlight)
    requires forall i :: 0 <= i < |hs| ==> hs[i].id != h.id
    ensures FirstWithId(hs + [h], h.id) == Some(h)
  {
    if hs != [] {
      assert (hs + [h])[1..] == hs[1..] + [h];
      FirstWithIdOfAbsent(hs[1..], h);
    }
  }

  /** Records with other ids keep their relative order and are all kept. */
  lemma {:induction false} ReplacedKeepsOthers(hs: seq<Highlight>, h: Highlight)
    ensures forall x :: x in hs && x.id != h.id ==> x in Replaced(hs, h)
  {
    if FirstWithId(hs, h.id).Some? {
      ReplaceFirstKeepsOthers(hs, h);
    }
  }

  lemma {:induction false} ReplaceFirstKeepsOthers(hs: seq<Highlight>, h: Highlight)
    ensures forall x :: x in hs && x.id != h.id ==> x in ReplaceFirstDropRest(hs, h)
  {
    if hs != [] {
      ReplaceFirstKeepsOthers(hs[1..], h);
    }
  }

  datatype HighlightSettings = HighlightSettings(enabled: bool, defaultColor: HighlightColor)

  const DEFAULT_SETTINGS: HighlightSettings := HighlightSettings(true, Yellow)

  /** getHighlightSettings: the stored record, or enabled yellow highlighting when nothing
      is stored or the read fails. */
  function GetHighlightSettings(stored: Option<HighlightSettings>, readOk: bool): (s: HighlightSettings)
    ensures readOk && stored.Some? ==> s == stored.value
    ensures !readOk || stored.None? ==> s.enabled && s.defaultColor == Yellow
  {
    if readOk && stored.Some? then stored.value else DEFAULT_SETTINGS
  }

  /** The `effikit_highlights` object. */
  class HighlightStorage {
    var buckets: Buckets
    var order: seq<string>

    ghost predicate Valid()
      reads this
    {
      OrderMatches(order, buckets) && KeysMatchUrls(buckets)
    }

    constructor()
      ensures Valid() && buckets == map[] && order == []
    {
      buckets := map[];
      order := [];
    }

    /** saveHighlight as written: append under the normalised URL. */
    method SaveHighlight(h: Highlight)
      requires Valid()
      modifies this
      ensures Valid()
      ensures buckets == Appended(old(buckets), Urls.NormalizeUrl(h.url), h)
    {
      var url := Urls.NormalizeUrl(h.url);
      SavedBucketValid(buckets, order, h, (if url in buckets then buckets[url] else []) + [h]);
      if url !in buckets {
        buckets := buckets[url := []];
        order := order + [url];
      }
      buckets := buckets[url := buckets[url] + [h]];
    }

    /** The corrected save used by the tag operations: replace the record with the same
        id, or append when there is none. */
    method SaveHighlightReplacing(h: Highlight)
      requires Valid()
      modifies this
      ensures Valid()
      ensures buckets == Replacing(old(buckets), h)
    {
      var url := Urls.NormalizeUrl(h.url);
      ghost var bucket := if url in buckets then buckets[url] else [];
      ReplacedSubset(bucket, h);
      SavedBucketValid(buckets, order, h, Replaced(bucket, h));
      if url !in buckets {
        buckets := buckets[url := []];
        order := order + [url];
      }
      buckets := buckets[url := Replaced(buckets[url], h)];
    }

    /** getHighlights(url) for a non-empty url. */
    function HighlightsAt(url: string): (hs: seq<Highlight>)
      reads this
      ensures Urls.NormalizeUrl(url) in buckets ==> hs == buckets[Urls.NormalizeUrl(url)]
      ensures Urls.NormalizeUrl(url) !in buckets ==> hs == []
    {
      var key := Urls.NormalizeUrl(url);
      if key in buckets then buckets[key] else []
    }

    /** getHighlights(): every bucket, flattened in key order. */
    function AllHighlights(): (hs: seq<Highlight>)
      requires Valid()
      reads this
    {
      Flatten(order, buckets)
    }

    /** getHighlights with an optional URL; an empty URL reads as none. */
    function GetHighlights(url: Option<string>): seq<Highlight>
      requires Valid()
      reads this
    {
      if url.Some? && url.value != [] then HighlightsAt(url.value) else AllHighlights()
    }

    /** removeHighlight: drop every record with the id from that page's bucket, deleting
        the bucket once empty; nothing happens for a page without a bucket. */
    method RemoveHighlight(id: string, url: string)
      requires Valid()
      modifies this
      ensures Valid()
      ensures var key := Urls.NormalizeUrl(url);
        && (key !in old(buckets) ==> buckets == old(buckets))
        && (key in old(buckets) && RemoveId(old(buckets)[key], id) == [] ==>
              buckets == old(buckets) - {key})
        && (key in old(buckets) && RemoveId(old(buckets)[key], id) != [] ==>
              buckets == old(buckets)[key := RemoveId(old(buckets)[key], id)])
    {
      var key := Urls.NormalizeUrl(url);
      if key in buckets {
        buckets := buckets[key := RemoveId(buckets[key], id)];
        if buckets[key] == [] {
          buckets := buckets - {key};
          RemoveKeyDistinct(order, key);
          order := RemoveKey(order, key);
        }
      }
    }

    /** clearHighlights: with a URL only its bucket goes, without one the whole store. */
    method ClearHighlights(url: Option<string>)
      requires Valid()
      modifies this
      ensures Valid()
      ensures url.Some? && url.value != [] ==> buckets == old(buckets) - {Urls.NormalizeUrl(url.value)}
      ensures !(url.Some? && url.value != []) ==> buckets == map[]
    {
      if url.Some? && url.value != [] {
        var key := Urls.NormalizeUrl(url.value);
        buckets := buckets - {key};
        RemoveKeyDistinct(order, key);
        order := RemoveKey(order, key);
      } else {
        buckets := map[];
        order := [];
      }
    }
  }

  /** Writing a bucket under h's normalised URL that holds only that bucket's records and
      h, with the URL appended to the key order when it is new, keeps the store valid. */
  lemma SavedBucketValid(buckets: Buckets, order: seq<string>, h: Highlight, bucket: seq<Highlight>)
    requires OrderMatches(order, buckets) && KeysMatchUrls(buckets)
    requires var key := Urls.NormalizeUrl(h.url);
      forall x :: x in bucket ==> x == h || (key in buckets && x in buckets[key])
    ensures var key := Urls.NormalizeUrl(h.url);
      var order' := if key in buckets then order else order + [key];
      OrderMatches(order', buckets[key := bucket]) && KeysMatchUrls(buckets[key := bucket])
  {
    var key := Urls.NormalizeUrl(h.url);
    if key !in buckets {
      AppendNewKeyDistinct(order, key);
    }
  }

  /** The key list without one key (the order of the others kept). */
  function RemoveKey(order: seq<string>, key: string): (r: seq<string>)
    ensures forall k :: k in r <==> k in order && k != key
  {
    if order == [] then []
    else (if order[0] == key then [] else [order[0]]) + RemoveKey(order[1..], key)
  }

  lemma {:induction false} RemoveKeyDistinct(order: seq<string>, key: string)
    requires NoDuplicates(order)
    ensures NoDuplicates(RemoveKey(order, key))
  {
    if order != [] {
      RemoveKeyDistinct(order[1..], key);
      var r := RemoveKey(order, key);
      if order[0] != key {
        assert r == [order[0]] + RemoveKey(order[1..], key);
        assert r[1..] == RemoveKey(order[1..], key);
        assert r[0] == order[0] && order[0] !in r[1..];
      } else {
        assert r == RemoveKey(order[1..], key);
      }
    }
  }

  lemma {:induction false} AppendNewKeyDistinct(order: seq<string>, key: string)
    requires NoDuplicates(order) && key !in order
    ensures NoDuplicates(order + [key])
  {
    if order != [] {
      assert (order + [key])[1..] == order[1..] + [key];
      AppendNewKeyDistinct(order[1..], key);
    } else {
      assert [key][1..] == [];
    }
  }

  /** Removing a highlight leaves the other pages' buckets, and the other records of its
      own page, as they were. */
  lemma {:induction false} RemoveKeepsOthers(hs: seq<Highlight>, id: string)
    ensures forall x :: x in hs && x.id != id ==> x in RemoveId(hs, id)
    ensures forall x :: x in RemoveId(hs, id) ==> x.id != id
    ensures RemoveId(hs, id) == Seqs.Filter((x: Highlight) => x.id != id, hs)
    ensures Seqs.IsSubsequence(RemoveId(hs, id), hs)
  {
    if hs != [] {
      RemoveKeepsOthers(hs[1..], id);
    }
    Seqs.FilterIsSubsequence((x: Highlight) => x.id != id, hs);
  }
}
