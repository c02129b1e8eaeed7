/** The mock-response half of the request interceptor's background worker: the rule-id
    hash, the compilation of a mock payload into a declarative redirect rule whose target
    is a `data:` URL (section 2 of RFC 2397) carrying base 64 (section 4 of RFC 4648) of the
    UTF-8 octets (RFC 3629) of the mock body, and the replace-all synchronisation of the
    browser's dynamic rule table. */
module MockRules {
  import opened Wrappers
  import opened Text
  import Utf8
  import UriCodec
  import Base64

  const TWO_32: int := 0x1_0000_0000
  const TWO_31: int := 0x8000_0000

  /** ToInt32: the signed 32-bit integer congruent to x modulo 2^32. */
  function Wrap32(x: int): (r: int)
    ensures -TWO_31 <= r < TWO_31
    ensures (r - x) % TWO_32 == 0
  {
    var m := x % TWO_32;
    if m >= TWO_31 then m - TWO_32 else m
  }

  /** One step of the loop as written: `hash = ((hash << 5) - hash) + char; hash |= 0`.
      The shift is itself a 32-bit operation; the subtraction and addition are exact. */
  function HashStep(h: int, unit: int): int {
    Wrap32(Wrap32(h * 32) - h + unit)
  }

  /** The same step read as arithmetic: `h * 31 + unit` wrapped to 32 bits. */
  lemma HashStepIsTimes31(h: int, unit: int)
    ensures HashStep(h, unit) == Wrap32(h * 31 + unit)
  {
    var a := Wrap32(h * 32);
    var x := a - h + unit;
    var y := h * 31 + unit;
    assert x - y == a - h * 32;
    SameWrap(x, y);
  }

  /** Numbers congruent modulo 2^32 wrap to the same 32-bit value. */
  lemma SameWrap(x: int, y: int)
    requires (x - y) % TWO_32 == 0
    ensures Wrap32(x) == Wrap32(y)
  {
    var k := (x - y) / TWO_32;
    assert x == y + k * TWO_32;
    ModShift(y, k);
  }

  lemma ModShift(y: int, k: int)
    ensures (y + k * TWO_32) % TWO_32 == y % TWO_32
  {
  }

  /** The fold over UTF-16 code units, from 0, of h := (h * 31 + unit) wrapped to 32 bits. */
  function HashFold(units: seq<int>): (h: int)
    ensures -TWO_31 <= h < TWO_31
  {
    if units == [] then 0
    else Wrap32(HashFold(units[..|units| - 1]) * 31 + units[|units| - 1])
  }

  function Abs(x: int): nat { if x < 0 then -x else x }

  /** The id stringToHash gives a string: `Math.abs(hash) + 1`. */
  function RuleId(s: string): int {
    Abs(HashFold(Utf8.Utf16(s))) + 1
  }

  /** Every rule id is a positive integer no larger than 2^31 + 1. */
  lemma RuleIdRange(s: string)
    ensures 1 <= RuleId(s) <= TWO_31 + 1
  {
    var h := HashFold(Utf8.Utf16(s));
    assert -TWO_31 <= h < TWO_31;
  }

  /** stringToHash: the loop over the string's code units. */
  method StringToHash(s: string) returns (id: int)
    ensures id == RuleId(s)
    ensures 1 <= id <= TWO_31 + 1
  {
    var units := Utf8.Utf16(s);
    var hash := 0;
    var i := 0;
    while i < |units|
      invariant 0 <= i <= |units|
      invariant hash == HashFold(units[..i])
    {
      HashStepIsTimes31(hash, units[i]);
      assert units[..i + 1][..i] == units[..i];
      hash := HashStep(hash, units[i]);
      i := i + 1;
    }
    assert units[..i] == units;
    id := Abs(hash) + 1;
    RuleIdRange(s);
  }

  datatype UpsertPayload = UpsertPayload(enabled: bool, mockData: string, url: string)

  datatype ResourceType = XmlHttpRequest

  /** A declarativeNetRequest rule with a redirect action. */
  datatype Rule = Rule(id: int, priority: int, redirectUrl: string, urlFilter: string,
                       resourceTypes: seq<ResourceType>)

  const DATA_URL_PREFIX: string := "data:application/json;base64,"

  /** `btoa(unescape(encodeURIComponent(body)))`. */
  function EncodeBody(body: string): string {
    var binary := UriCodec.Unescape(UriCodec.EncodeURIComponent(body));
    UriCodec.UnescapeEncodeIsUtf8(body);
    Base64.Btoa(binary).value
  }

  /** The encoded body is base 64 of the UTF-8 octets of the body. */
  lemma EncodeBodyIsBase64OfUtf8(body: string)
    ensures EncodeBody(body) == Base64.Encode(Utf8.Encode(body))
  {
    UriCodec.UnescapeEncodeIsUtf8(body);
    Utf8.OctetsOfBinaryString(Utf8.Encode(body));
  }

  /** createDeclarativeNetRequestRule: no rule for a disabled payload. */
  function CreateRule(p: UpsertPayload): (r: Option<Rule>)
    ensures r.Some? <==> p.enabled
    ensures r.Some? ==> 1 <= r.value.id <= TWO_31 + 1
  {
    if !p.enabled then None
    else
      RuleIdRange(p.url);
      Some(Rule(RuleId(p.url), 1, DATA_URL_PREFIX + EncodeBody(p.mockData),
                "|" + p.url + "|", [XmlHttpRequest]))
  }

  /** The text after the first comma of a data URL (where the payload starts). */
  function AfterFirstComma(s: string): string {
    if s == [] then []
    else if s[0] == ',' then s[1..]
    else AfterFirstComma(s[1..])
  }

  lemma {:induction false} AfterFirstCommaOfPrefix(a: string, b: string)
    requires forall i :: 0 <= i < |a| ==> a[i] != ','
    ensures AfterFirstComma(a + "," + b) == b
  {
    if a == [] {
      assert a + "," + b == [','] + b;
    } else {
      assert (a + "," + b)[1..] == a[1..] + "," + b;
      AfterFirstCommaOfPrefix(a[1..], b);
    }
  }

  /** What a browser serves for a compiled rule: reading the payload of the data URL,
      `atob` on it and UTF-8 decoding give back exactly the mock body. */
  lemma CreateRuleServesMockData(p: UpsertPayload)
    requires p.enabled
    ensures var url := CreateRule(p).value.redirectUrl;
      && IsPrefix(DATA_URL_PREFIX, url)
      && Base64.Atob(AfterFirstComma(url)).Some?
      && UriCodec.DecodeURIComponent(UriCodec.Escape(Base64.Atob(AfterFirstComma(url)).value))
         == Some(p.mockData)
  {
    var body := EncodeBody(p.mockData);
    var url := CreateRule(p).value.redirectUrl;
    assert url == DATA_URL_PREFIX + body;
    assert url == "data:application/json;base64" + "," + body;
    AfterFirstCommaOfPrefix("data:application/json;base64", body);
    EncodeBodyIsBase64OfUtf8(p.mockData);
    var bin := Utf8.BinaryString(Utf8.Encode(p.mockData));
    Base64.AtobBtoa(bin);
    Utf8.OctetsOfBinaryString(Utf8.Encode(p.mockData));
    UriCodec.DecodeEscapeUtf8(p.mockData);
  }

  /** The rule matches the payload's URL as a whole (anchored at both ends) and only for
      XMLHttpRequest, with priority 1 and the hashed URL as its id. */
  lemma CreateRuleCondition(p: UpsertPayload)
    requires p.enabled
    ensures var r := CreateRule(p).value;
      && r.id == RuleId(p.url) && r.priority == 1
      && r.urlFilter == "|" + p.url + "|" && r.resourceTypes == [XmlHttpRequest]
  {
  }

  function RuleIds(rules: seq<Rule>): (ids: seq<int>)
    ensures |ids| == |rules| && forall i :: 0 <= i < |rules| ==> ids[i] == rules[i].id
  {
    if rules == [] then [] else [rules[0].id] + RuleIds(rules[1..])
  }

  /** `updateDynamicRules({removeRuleIds, addRules})`: drop the rules with the listed ids,
      then add the new ones. */
  function UpdateDynamicRules(table: seq<Rule>, removeIds: seq<int>, add: seq<Rule>): (t: seq<Rule>)
    ensures forall r :: r in t ==> (r in table && r.id !in removeIds) || r in add
  {
    (if table == [] then []
     else (if table[0].id in removeIds then [] else [table[0]])
          + UpdateDynamicRules(table[1..], removeIds, [])) + add
  }

  /** Removing every installed id leaves only the added rules. */
  lemma {:induction false} RemoveAllIds(table: seq<Rule>, add: seq<Rule>)
    ensures UpdateDynamicRules(table, RuleIds(table), add) == add
  {
    if table != [] {
      var ids := RuleIds(table);
      assert table[0].id in ids;
      RemoveOthers(table[1..], ids);
    }
  }

  lemma {:induction false} RemoveOthers(table: seq<Rule>, ids: seq<int>)
    requires forall r :: r in table ==> r.id in ids
    ensures UpdateDynamicRules(table, ids, []) == []
  {
    if table != [] {
      assert table[0] in table;
      RemoveOthers(table[1..], ids);
    }
  }

  /** The browser's dynamic rule table as the worker sees it. */
  class DynamicRules {
    var rules: seq<Rule>

    constructor(installed: seq<Rule>)
      ensures rules == installed
    {
      rules := installed;
    }

    /** upsertDeclarativeNetRequestRules: compile the payload, read the installed rules and
        replace them all. `accepted` is the browser's verdict on the update; a rejected
        update leaves the table as it was and the call fails. */
    method Upsert(p: UpsertPayload, accepted: bool) returns (success: bool)
      modifies this
      ensures success == accepted
      ensures success ==> rules == AddedRules(p)
      ensures !success ==> rules == old(rules)
    {
      var existingIds := RuleIds(rules);
      var add := AddedRules(p);
      if accepted {
        RemoveAllIds(rules, add);
        rules := UpdateDynamicRules(rules, existingIds, add);
      }
      success := accepted;
    }
  }

  /** The rules an upsert installs: the payload's rule, or none when it has no mock data. */
  function AddedRules(p: UpsertPayload): seq<Rule> {
    match CreateRule(p)
    case Some(r) => [r]
    case None => []
  }

  /** Synchronising the same payload twice gives the same table as once, whatever was
      installed before. */
  lemma UpsertTableIndependentOfPrevious(p: UpsertPayload, t1: seq<Rule>, t2: seq<Rule>)
    ensures UpdateDynamicRules(t1, RuleIds(t1), AddedRules(p)) == UpdateDynamicRules(t2, RuleIds(t2), AddedRules(p))
  {
    var add := AddedRules(p);
    RemoveAllIds(t1, add);
    RemoveAllIds(t2, add);
  }
}
