/** The capture half of the request interceptor's background worker: which
    XMLHttpRequests are recorded, the per-page buckets they are recorded in (keyed by the
    normalised tab URL, one entry per URL and method, newest first), the side panel's
    queries and clears, and the TAB_CHANGED notifications. */
module RequestCapture {
  import opened Wrappers
  import opened Text
  import Urls

  datatype CapturedRequest = CapturedRequest(url: string, httpMethod: string, tabUrl: string, timestamp: int)

  /** What onBeforeRequest is told about a request. */
  datatype RequestDetails = RequestDetails(tabId: int, url: string, httpMethod: string)

  // ---------------------------------------------------------------------------------
  // The file-extension test: /\.[a-zA-Z0-9]+([?#].*)?$/

  /** The part of the pattern after the extension matches `url[j..]`: nothing, or `?` or
      `#` followed by characters other than line terminators. */
  predicate TailMatches(url: string, j: nat)
    requires j <= |url|
  {
    j == |url| || ((url[j] == '?' || url[j] == '#')
                   && forall k :: j < k < |url| ==> !IsLineTerminator(url[k]))
  }

  /** The pattern matches with the dot at index i and the extension ending at index j. */
  predicate ExtensionAt(url: string, i: nat, j: nat) {
    && i + 1 < j <= |url| && url[i] == '.'
    && (forall k :: i < k < j ==> IsAsciiAlnum(url[k]))
    && TailMatches(url, j)
  }

  /** `RegExp.prototype.test` of the pattern: a match somewhere in the string. */
  ghost predicate MatchesExtensionPattern(url: string) {
    exists i: nat, j: nat :: ExtensionAt(url, i, j)
  }

  /** The start of the run of ASCII letters and digits that ends at index j. */
  function RunStart(url: string, j: nat): (p: nat)
    requires j <= |url|
    ensures p <= j && forall k :: p <= k < j ==> IsAsciiAlnum(url[k])
    ensures p == 0 || !IsAsciiAlnum(url[p - 1])
  {
    if j > 0 && IsAsciiAlnum(url[j - 1]) then RunStart(url, j - 1) else j
  }

  /** Whether some end index j' <= j completes a match: for each candidate end, the only
      possible dot is the one just before the maximal alphanumeric run ending there. */
  function ScanExtension(url: string, j: nat): bool
    requires j <= |url|
  {
    var p := RunStart(url, j);
    (TailMatches(url, j) && 1 <= p < j && url[p - 1] == '.')
    || (j > 0 && ScanExtension(url, j - 1))
  }

  /** hasFileExtension, decided by scanning candidate end positions. */
  function HasFileExtension(url: string): bool {
    ScanExtension(url, |url|)
  }

  lemma {:induction false} ScanSound(url: string, j: nat)
    requires j <= |url| && ScanExtension(url, j)
    ensures MatchesExtensionPattern(url)
  {
    var p := RunStart(url, j);
    if TailMatches(url, j) && 1 <= p < j && url[p - 1] == '.' {
      assert ExtensionAt(url, p - 1, j);
    } else {
      ScanSound(url, j - 1);
    }
  }

  lemma {:induction false} ScanComplete(url: string, i: nat, j: nat, j': nat)
    requires ExtensionAt(url, i, j) && j <= j' <= |url|
    ensures ScanExtension(url, j')
    decreases j'
  {
    if j' == j {
      var p := RunStart(url, j);
      RunStartIsAfterDot(url, i, j);
    } else {
      ScanComplete(url, i, j, j' - 1);
    }
  }

  lemma {:induction false} RunStartIsAfterDot(url: string, i: nat, j: nat)
    requires i < j <= |url| && url[i] == '.'
    requires forall k :: i < k < j ==> IsAsciiAlnum(url[k])
    ensures RunStart(url, j) == i + 1
    decreases j
  {
    if j > i + 1 {
      RunStartIsAfterDot(url, i, j - 1);
    }
  }

  /** The scan decides exactly the regular expression. */
  lemma HasFileExtensionIffPattern(url: string)
    ensures HasFileExtension(url) <==> MatchesExtensionPattern(url)
  {
    if HasFileExtension(url) {
      ScanSound(url, |url|);
    }
    if MatchesExtensionPattern(url) {
      var i: nat, j: nat :| ExtensionAt(url, i, j);
      ScanComplete(url, i, j, |url|);
    }
  }

  // ---------------------------------------------------------------------------------
  // The capture decision

  const NO_TAB: int := -1

  /** The start of the browser's own page URLs, which are never recorded. */
  const CHROME_PREFIX: string := "chrome" + Urls.SCHEME_SEPARATOR

  /** The request onBeforeRequest announces (NEW_REQUEST_FOUND) and records, given the
      tab's URL as `chrome.tabs.get` reports it; None when the request is ignored. */
  function Announcement(d: RequestDetails, tabUrl: Option<string>, now: int): (r: Option<CapturedRequest>)
    ensures r.Some? ==> tabUrl.Some?
  {
    if d.tabId == NO_TAB || HasFileExtension(d.url) then None
    else match tabUrl
      case None => None
      case Some(t) =>
        if t == [] || Includes(t, CHROME_PREFIX) then None
        else Some(CapturedRequest(Urls.GetUriFromUrl(d.url), d.httpMethod, t, now))
  }

  /** A request is recorded exactly when it has a tab, no file extension, and a tab URL that
      is non-empty and not a browser page (chrome scheme). */
  lemma AnnouncementConditions(d: RequestDetails, tabUrl: Option<string>, now: int)
    ensures Announcement(d, tabUrl, now).Some? <==>
      && d.tabId != NO_TAB
      && !MatchesExtensionPattern(d.url)
      && tabUrl.Some? && tabUrl.value != [] && !Includes(tabUrl.value, CHROME_PREFIX)
    ensures Announcement(d, tabUrl, now).Some? ==>
      var r := Announcement(d, tabUrl, now).value;
      && r.url == Urls.GetUriFromUrl(d.url) && r.httpMethod == d.httpMethod
      && r.tabUrl == tabUrl.value && r.timestamp == now
  {
    HasFileExtensionIffPattern(d.url);
  }

  // ---------------------------------------------------------------------------------
  // Buckets

  /** The bucket holds an entry with this URL and method. */
  predicate HasPair(bucket: seq<CapturedRequest>, url: string, httpMethod: string) {
    exists k :: 0 <= k < |bucket| && bucket[k].url == url && bucket[k].httpMethod == httpMethod
  }

  /** No two entries share URL and method. */
  predicate PairsUnique(bucket: seq<CapturedRequest>) {
    forall k, l :: 0 <= k < l < |bucket| ==>
      !(bucket[k].url == bucket[l].url && bucket[k].httpMethod == bucket[l].httpMethod)
  }

  predicate AllBucketsUnique(m: map<string, seq<CapturedRequest>>) {
    forall key :: key in m ==> PairsUnique(m[key])
  }

  function Bucket(m: map<string, seq<CapturedRequest>>, key: string): seq<CapturedRequest> {
    if key in m then m[key] else []
  }

  /** The map after recording r under key: prepended when its URL and method are new to
      the bucket, which is created if needed; otherwise the bucket exists and is kept. */
  function Recorded(m: map<string, seq<CapturedRequest>>, key: string, r: CapturedRequest)
    : map<string, seq<CapturedRequest>>
  {
    var b := Bucket(m, key);
    if HasPair(b, r.url, r.httpMethod) then m else m[key := [r] + b]
  }

  /** Recording touches one bucket: a new pair is prepended, a repeat changes nothing
      (its stored timestamp included), and no other key appears or changes. */
  lemma RecordedEffect(m: map<string, seq<CapturedRequest>>, key: string, r: CapturedRequest)
    ensures var m' := Recorded(m, key, r);
      && m'.Keys == m.Keys + {key}
      && (forall k :: k in m && k != key ==> m'[k] == m[k])
      && (HasPair(Bucket(m, key), r.url, r.httpMethod) ==> m' == m)
      && (!HasPair(Bucket(m, key), r.url, r.httpMethod) ==> m'[key] == [r] + Bucket(m, key))
  {
    if HasPair(Bucket(m, key), r.url, r.httpMethod) {
      assert key in m;
    }
  }

  /** Recording keeps every bucket free of duplicate (URL, httpMethod) pairs. */
  lemma RecordedKeepsUnique(m: map<string, seq<CapturedRequest>>, key: string, r: CapturedRequest)
    requires AllBucketsUnique(m)
    ensures AllBucketsUnique(Recorded(m, key, r))
  {
    var b := Bucket(m, key);
    if !HasPair(b, r.url, r.httpMethod) {
      var nb := [r] + b;
      forall k, l | 0 <= k < l < |nb|
        ensures !(nb[k].url == nb[l].url && nb[k].httpMethod == nb[l].httpMethod)
      {
        if k == 0 {
          assert nb[l] == b[l - 1];
        } else {
          assert nb[k] == b[k - 1] && nb[l] == b[l - 1];
        }
      }
    }
  }

  /** After recording, the bucket holds the request's URL and method. */
  lemma RecordedHasPair(m: map<string, seq<CapturedRequest>>, key: string, r: CapturedRequest)
    ensures HasPair(Bucket(Recorded(m, key, r), key), r.url, r.httpMethod)
  {
    var b := Bucket(m, key);
    if !HasPair(b, r.url, r.httpMethod) {
      assert ([r] + b)[0] == r;
    }
  }

  /** The state of the background worker's capture map. */
  class CaptureStore {
    var buckets: map<string, seq<CapturedRequest>>

    /** Starts from the map persisted in storage, when there is one. */
    constructor(persisted: Option<map<string, seq<CapturedRequest>>>)
      ensures buckets == persisted.GetOr(map[])
    {
      buckets := persisted.GetOr(map[]);
    }

    /** onBeforeRequest and the tab lookup that follows it: returns the NEW_REQUEST_FOUND
        announcement, sent for every request that passes the filters, duplicates
        included. */
    method OnBeforeRequest(d: RequestDetails, tabUrl: Option<string>, now: int)
      returns (announced: Option<CapturedRequest>)
      modifies this
      ensures announced == Announcement(d, tabUrl, now)
      ensures announced.None? ==> buckets == old(buckets)
      ensures announced.Some? ==>
        buckets == Recorded(old(buckets), Urls.GetUriFromUrl(tabUrl.value), announced.value)
    {
      announced := Announcement(d, tabUrl, now);
      if announced.Some? {
        Store(Urls.GetUriFromUrl(tabUrl.value), announced.value);
      }
    }

    /** The bucket update: create the bucket if missing, then prepend the request unless
        its URL and method are already there. */
    method Store(key: string, newRequest: CapturedRequest)
      modifies this
      ensures buckets == Recorded(old(buckets), key, newRequest)
    {
      ghost var before := buckets;
      if key !in buckets {
        buckets := buckets[key := []];
      }
      assert buckets[key] == Bucket(before, key);
      var isDuplicate := HasPair(buckets[key], newRequest.url, newRequest.httpMethod);
      if !isDuplicate {
        buckets := buckets[key := [newRequest] + buckets[key]];
        assert buckets == before[key := [newRequest] + Bucket(before, key)];
      } else {
        assert key in before;
      }
    }

    /** GET_CURRENT_REQUESTS: the bucket under the given key, or an empty list. */
    function CurrentRequests(tabUrl: string): (rs: seq<CapturedRequest>)
      reads this
      ensures tabUrl in buckets ==> rs == buckets[tabUrl]
      ensures tabUrl !in buckets ==> rs == []
    {
      Bucket(buckets, tabUrl)
    }

    /** CLEAR_REQUESTS: deletes the key when it is non-empty and present. */
    method ClearRequests(tabUrl: string) returns (success: bool)
      modifies this
      ensures success <==> tabUrl != [] && tabUrl in old(buckets)
      ensures success ==> buckets == old(buckets) - {tabUrl}
      ensures !success ==> buckets == old(buckets)
    {
      if tabUrl != [] && tabUrl in buckets {
        buckets := buckets - {tabUrl};
        success := true;
      } else {
        success := false;
      }
    }
  }

  // ---------------------------------------------------------------------------------
  // TAB_CHANGED

  /** The TAB_CHANGED payload for a tab's URL: its normalisation, unless that is a
      browser page (chrome scheme) or the tab has no URL. */
  function TabChangedPayload(tabUrl: Option<string>): (r: Option<string>)
    ensures r.Some? ==> tabUrl.Some? && r.value == Urls.GetUriFromUrl(tabUrl.value)
    ensures r.Some? ==> !Includes(r.value, CHROME_PREFIX)
  {
    match tabUrl
    case None => None
    case Some(u) =>
      if u == [] then None
      else
        var normalized := Urls.GetUriFromUrl(u);
        if Includes(normalized, CHROME_PREFIX) then None else Some(normalized)
  }

  /** tabs.onActivated: the newly active tab's URL. */
  function OnActivated(tabUrl: Option<string>): Option<string> {
    TabChangedPayload(tabUrl)
  }

  /** tabs.onUpdated: only a URL change of the active tab is reported. */
  function OnUpdated(changedUrl: Option<string>, tabActive: bool): (r: Option<string>)
    ensures r.Some? ==> tabActive && changedUrl.Some?
  {
    if tabActive then TabChangedPayload(changedUrl) else None
  }

  /** The key TAB_CHANGED reports for a tab is the key the tab's requests are recorded
      under: after a request from that tab is recorded, asking for the reported key finds
      it. */
  lemma TabChangedFindsRecorded(m: map<string, seq<CapturedRequest>>, d: RequestDetails,
                                tabUrl: string, now: int)
    requires Announcement(d, Some(tabUrl), now).Some?
    requires TabChangedPayload(Some(tabUrl)).Some?
    ensures var r := Announcement(d, Some(tabUrl), now).value;
      var key := TabChangedPayload(Some(tabUrl)).value;
      HasPair(Bucket(Recorded(m, Urls.GetUriFromUrl(tabUrl), r), key), r.url, r.httpMethod)
  {
    var r := Announcement(d, Some(tabUrl), now).value;
    RecordedHasPair(m, Urls.GetUriFromUrl(tabUrl), r);
  }
}
