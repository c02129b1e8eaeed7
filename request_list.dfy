/** The side panel's list of intercepted requests: entries keyed by a request id, refreshed
    in place when an id repeats, prepended and capped at 100 when new, with per-entry
    intercept and mock flags and a case-insensitive search over URL and method. */
module RequestList {
  import opened Wrappers
  import opened Text
  import Seqs

  type Headers = map<string, string>

  datatype OriginalRequest = OriginalRequest(headers: Option<Headers>, body: Option<string>)

  datatype HttpRequest = HttpRequest(
    id: string, httpMethod: string, url: string, timestamp: int,
    isIntercepted: bool, isMocked: bool, mockData: Option<string>,
    originalRequest: OriginalRequest)

  /** The payload of a NEW_REQUEST_INTERCEPTED message. */
  datatype InterceptedRequestData = InterceptedRequestData(
    requestId: Option<string>, httpMethod: string, url: string, timestamp: int,
    headers: Option<Headers>, body: Option<string>)

  const MAX_REQUESTS: nat := 100

  /** generateRequestId: `method:url`. */
  function RequestId(httpMethod: string, url: string): (id: string)
    ensures |id| == |httpMethod| + 1 + |url| && id[|httpMethod|] == ':'
  {
    httpMethod + ":" + url
  }

  /** Method names contain no colon, so the generated id determines method and URL. */
  lemma RequestIdInjective(m1: string, u1: string, m2: string, u2: string)
    requires forall i :: 0 <= i < |m1| ==> m1[i] != ':'
    requires forall i :: 0 <= i < |m2| ==> m2[i] != ':'
    requires RequestId(m1, u1) == RequestId(m2, u2)
    ensures m1 == m2 && u1 == u2
  {
    var id := RequestId(m1, u1);
    assert forall i :: 0 <= i < |m1| ==> id[i] == m1[i];
    assert forall i :: 0 <= i < |m2| ==> id[i] == m2[i];
    assert |m1| == |m2|;
    assert m1 == id[..|m1|] == m2;
    assert u1 == id[|m1| + 1..] == u2;
  }

  /** JavaScript truthiness of an optional string: present and non-empty. */
  predicate Truthy(s: Option<string>) {
    s.Some? && s.value != []
  }

  /** The id addRequest files the data under: the supplied id unless it is missing or
      empty, else the generated one. */
  function IdOf(data: InterceptedRequestData): (id: string)
    ensures Truthy(data.requestId) ==> id == data.requestId.value
    ensures !Truthy(data.requestId) ==> id == RequestId(data.httpMethod, data.url)
  {
    if Truthy(data.requestId) then data.requestId.value else RequestId(data.httpMethod, data.url)
  }

  /** findIndex on ids: the first position holding the id, or -1. */
  function FindIndex(rs: seq<HttpRequest>, id: string): (k: int)
    ensures -1 <= k < |rs|
    ensures k >= 0 ==> rs[k].id == id && forall j :: 0 <= j < k ==> rs[j].id != id
    ensures k == -1 ==> forall j :: 0 <= j < |rs| ==> rs[j].id != id
  {
    if rs == [] then -1
    else if rs[0].id == id then 0
    else var k := FindIndex(rs[1..], id); if k == -1 then -1 else k + 1
  }

  /** An existing entry seen again: new timestamp, and the new headers and body where the
      message carries them (a body only when non-empty). */
  function Refreshed(r: HttpRequest, data: InterceptedRequestData): HttpRequest {
    r.(timestamp := data.timestamp,
       originalRequest := OriginalRequest(
         if data.headers.Some? then data.headers else r.originalRequest.headers,
         if Truthy(data.body) then data.body else r.originalRequest.body))
  }

  /** A first-seen request: neither intercepted nor mocked, headers defaulting to none. */
  function NewEntry(id: string, data: InterceptedRequestData): HttpRequest {
    HttpRequest(id, data.httpMethod, data.url, data.timestamp, false, false, None,
                OriginalRequest(Some(data.headers.GetOr(map[])), data.body))
  }

  function Take(s: seq<HttpRequest>, n: nat): seq<HttpRequest> {
    if |s| <= n then s else s[..n]
  }

  /** The list after addRequest. */
  function Added(rs: seq<HttpRequest>, data: InterceptedRequestData): seq<HttpRequest> {
    var id := IdOf(data);
    var k := FindIndex(rs, id);
    if k >= 0 then rs[k := Refreshed(rs[k], data)]
    else Take([NewEntry(id, data)] + rs, MAX_REQUESTS)
  }

  predicate IdsUnique(rs: seq<HttpRequest>) {
    forall i, j :: 0 <= i < j < |rs| ==> rs[i].id != rs[j].id
  }

  /** A repeated id refreshes that entry where it stands: same length, same positions,
      only timestamp, headers and body of that entry change, and absent headers or body
      keep the old ones. */
  lemma AddedExisting(rs: seq<HttpRequest>, data: InterceptedRequestData, k: nat)
    requires k < |rs| && rs[k].id == IdOf(data) && IdsUnique(rs)
    ensures var r := Added(rs, data);
      && |r| == |rs|
      && (forall j :: 0 <= j < |rs| && j != k ==> r[j] == rs[j])
      && r[k].id == rs[k].id && r[k].url == rs[k].url && r[k].httpMethod == rs[k].httpMethod
      && r[k].isIntercepted == rs[k].isIntercepted && r[k].isMocked == rs[k].isMocked
      && r[k].mockData == rs[k].mockData
      && r[k].timestamp == data.timestamp
      && (data.headers.None? ==> r[k].originalRequest.headers == rs[k].originalRequest.headers)
      && (!Truthy(data.body) ==> r[k].originalRequest.body == rs[k].originalRequest.body)
  {
    assert FindIndex(rs, IdOf(data)) == k;
  }

  /** A new id is prepended, neither intercepted nor mocked, and the list keeps its first
      100 entries. */
  lemma AddedNew(rs: seq<HttpRequest>, data: InterceptedRequestData)
    requires forall j :: 0 <= j < |rs| ==> rs[j].id != IdOf(data)
    ensures var r := Added(rs, data);
      && |r| == (if |rs| + 1 <= MAX_REQUESTS then |rs| + 1 else MAX_REQUESTS)
      && r[0].id == IdOf(data) && !r[0].isIntercepted && !r[0].isMocked && r[0].mockData.None?
      && r[0].url == data.url && r[0].httpMethod == data.httpMethod
      && forall j :: 1 <= j < |r| ==> r[j] == rs[j - 1]
  {
  }

  /** The list never grows past 100 entries once it is within that bound. */
  lemma AddedBounded(rs: seq<HttpRequest>, data: InterceptedRequestData)
    requires |rs| <= MAX_REQUESTS
    ensures |Added(rs, data)| <= MAX_REQUESTS
  {
  }

  /** Request ids stay unique. */
  lemma AddedKeepsIdsUnique(rs: seq<HttpRequest>, data: InterceptedRequestData)
    requires IdsUnique(rs)
    ensures IdsUnique(Added(rs, data))
  {
    var id := IdOf(data);
    var k := FindIndex(rs, id);
    if k < 0 {
      var full := [NewEntry(id, data)] + rs;
      assert IdsUnique(full) by {
        forall i, j | 0 <= i < j < |full|
          ensures full[i].id != full[j].id
        {
          assert full[j] == rs[j - 1];
          if i > 0 {
            assert full[i] == rs[i - 1];
          }
        }
      }
    }
  }

  /** `prev.map(...)` with a change applied to the entries with the given id. */
  function MapWhere(rs: seq<HttpRequest>, id: string, f: HttpRequest -> HttpRequest): (r: seq<HttpRequest>)
    ensures |r| == |rs|
    ensures forall i :: 0 <= i < |rs| ==> r[i] == if rs[i].id == id then f(rs[i]) else rs[i]
  {
    if rs == [] then [] else [if rs[0].id == id then f(rs[0]) else rs[0]] + MapWhere(rs[1..], id, f)
  }

  function SetIntercept(r: HttpRequest, on: bool): HttpRequest {
    if on then r.(isIntercepted := true)
    else r.(isIntercepted := false, isMocked := false, mockData := None)
  }

  /** toggleIntercept's update. */
  function ToggledIntercept(rs: seq<HttpRequest>, id: string, on: bool): seq<HttpRequest> {
    MapWhere(rs, id, r => SetIntercept(r, on))
  }

  /** Switching interception off also drops the mock; switching it on changes only the
      flag; other entries are untouched and ids stay where they were. */
  lemma ToggledInterceptEffect(rs: seq<HttpRequest>, id: string, on: bool)
    ensures var r := ToggledIntercept(rs, id, on);
      && |r| == |rs|
      && (forall i :: 0 <= i < |rs| ==> r[i].id == rs[i].id)
      && (forall i :: 0 <= i < |rs| && rs[i].id != id ==> r[i] == rs[i])
      && (forall i :: 0 <= i < |rs| && rs[i].id == id ==>
            r[i].isIntercepted == on
            && (on ==> r[i] == rs[i].(isIntercepted := true))
            && (!on ==> !r[i].isMocked && r[i].mockData.None?
                        && r[i].originalRequest == rs[i].originalRequest
                        && r[i].url == rs[i].url && r[i].timestamp == rs[i].timestamp))
  {
  }

  /** updateMockData's update. */
  function WithMockData(rs: seq<HttpRequest>, id: string, mockData: string): seq<HttpRequest> {
    MapWhere(rs, id, (r: HttpRequest) => r.(isMocked := true, mockData := Some(mockData)))
  }

  /** updateRequestHeaders' update. */
  function WithHeaders(rs: seq<HttpRequest>, id: string, headers: Headers): seq<HttpRequest> {
    MapWhere(rs, id, (r: HttpRequest) => r.(originalRequest := r.originalRequest.(headers := Some(headers))))
  }

  /** Mock data is set, and marked, on the matching entries only. */
  lemma WithMockDataEffect(rs: seq<HttpRequest>, id: string, mockData: string)
    ensures var r := WithMockData(rs, id, mockData);
      && |r| == |rs|
      && (forall i :: 0 <= i < |rs| && rs[i].id != id ==> r[i] == rs[i])
      && (forall i :: 0 <= i < |rs| && rs[i].id == id ==>
            r[i].isMocked && r[i].mockData == Some(mockData) && r[i].id == id
            && r[i].isIntercepted == rs[i].isIntercepted
            && r[i].originalRequest == rs[i].originalRequest)
  {
  }

  /** Headers are replaced on the matching entries only, bodies kept. */
  lemma WithHeadersEffect(rs: seq<HttpRequest>, id: string, headers: Headers)
    ensures var r := WithHeaders(rs, id, headers);
      && |r| == |rs|
      && (forall i :: 0 <= i < |rs| && rs[i].id != id ==> r[i] == rs[i])
      && (forall i :: 0 <= i < |rs| && rs[i].id == id ==>
            r[i].originalRequest.headers == Some(headers)
            && r[i].originalRequest.body == rs[i].originalRequest.body
            && r[i].isMocked == rs[i].isMocked && r[i].mockData == rs[i].mockData)
  {
  }

  /** The entry matches the lower-cased term in its URL or method. */
  predicate MatchesTerm(r: HttpRequest, lowered: string) {
    Includes(ToLower(r.url), lowered) || Includes(ToLower(r.httpMethod), lowered)
  }

  /** filteredRequests. */
  function FilteredRequests(rs: seq<HttpRequest>, term: string): seq<HttpRequest> {
    if Trim(term) == [] then rs
    else Seqs.Filter((r: HttpRequest) => MatchesTerm(r, ToLower(term)), rs)
  }

  /** A blank term shows everything; any other term shows, in list order, exactly the
      entries whose URL or method contains it, ignoring case. */
  lemma FilteredRequestsSpec(rs: seq<HttpRequest>, term: string)
    ensures IsBlank(term) ==> FilteredRequests(rs, term) == rs
    ensures !IsBlank(term) ==>
      var r := FilteredRequests(rs, term);
      && Seqs.IsSubsequence(r, rs)
      && (forall i :: 0 <= i < |rs| ==> (rs[i] in r <==> MatchesTerm(rs[i], ToLower(term))))
      && (forall x :: multiset(r)[x] == if MatchesTerm(x, ToLower(term)) then multiset(rs)[x] else 0)
  {
    TrimEmptyIffBlank(term);
    if !IsBlank(term) {
      Seqs.FilterIsSubsequence((r: HttpRequest) => MatchesTerm(r, ToLower(term)), rs);
      Seqs.FilterMultiset((r: HttpRequest) => MatchesTerm(r, ToLower(term)), rs);
    }
  }

  /** The hook's state. */
  class RequestInterceptorState {
    var requests: seq<HttpRequest>
    var searchTerm: string

    constructor()
      ensures requests == [] && searchTerm == []
    {
      requests := [];
      searchTerm := [];
    }

    /** addRequest: look the id up, then refresh the entry or prepend a new one. */
    method AddRequest(data: InterceptedRequestData)
      modifies this
      ensures requests == Added(old(requests), data)
      ensures searchTerm == old(searchTerm)
    {
      var id := IdOf(data);
      var i := 0;
      while i < |requests| && requests[i].id != id
        invariant 0 <= i <= |requests|
        invariant forall j :: 0 <= j < i ==> requests[j].id != id
      {
        i := i + 1;
      }
      if i < |requests| {
        assert FindIndex(requests, id) == i;
        requests := requests[i := Refreshed(requests[i], data)];
      } else {
        var newRequests := [NewEntry(id, data)] + requests;
        requests := if |newRequests| <= MAX_REQUESTS then newRequests else newRequests[..MAX_REQUESTS];
      }
    }

    method UpdateRequestHeaders(requestId: string, headers: Headers)
      modifies this
      ensures requests == WithHeaders(old(requests), requestId, headers)
      ensures searchTerm == old(searchTerm)
    {
      requests := WithHeaders(requests, requestId, headers);
    }

    method ToggleIntercept(requestId: string, isIntercepted: bool)
      modifies this
      ensures requests == ToggledIntercept(old(requests), requestId, isIntercepted)
      ensures searchTerm == old(searchTerm)
    {
      requests := ToggledIntercept(requests, requestId, isIntercepted);
    }

    method UpdateMockData(requestId: string, mockData: string)
      modifies this
      ensures requests == WithMockData(old(requests), requestId, mockData)
      ensures searchTerm == old(searchTerm)
    {
      requests := WithMockData(requests, requestId, mockData);
    }

    method HandleSearch(term: string)
      modifies this
      ensures searchTerm == term && requests == old(requests)
    {
      searchTerm := term;
    }

    method ClearAllRequests()
      modifies this
      ensures requests == [] && searchTerm == old(searchTerm)
    {
      requests := [];
    }
  }
}
