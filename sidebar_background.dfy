/** The side panel's part of the background worker: filling in the default settings on
    start-up, and answering the two storage messages. */
module SidebarBackground {
  import opened Wrappers
  import opened Settings

  const GET_STORAGE_DATA: string := "getStorageData"
  const SET_STORAGE_DATA: string := "setStorageData"

  /** The defaults, in the order the start-up loop visits them. */
  const DEFAULTS: seq<(string, SettingValue)> := [
    ("networkMonitorEnabled", BoolValue(true)),
    ("responseEditingEnabled", BoolValue(false)),
    ("performanceMonitorEnabled", BoolValue(true)),
    ("automationEnabled", BoolValue(false))
  ]

  /** The object written when no settings exist at all. */
  function DefaultSettings(): (d: SettingsObject)
    ensures forall j :: 0 <= j < |DEFAULTS| ==> DEFAULTS[j].0 in d && d[DEFAULTS[j].0] == DEFAULTS[j].1
    ensures forall k :: k in d ==> exists j :: 0 <= j < |DEFAULTS| && DEFAULTS[j].0 == k
  {
    assert DEFAULTS[0].0 == "networkMonitorEnabled" && DEFAULTS[1].0 == "responseEditingEnabled";
    assert DEFAULTS[2].0 == "performanceMonitorEnabled" && DEFAULTS[3].0 == "automationEnabled";
    map[
      "networkMonitorEnabled" := BoolValue(true),
      "responseEditingEnabled" := BoolValue(false),
      "performanceMonitorEnabled" := BoolValue(true),
      "automationEnabled" := BoolValue(false)
    ]
  }

  predicate KeysDistinct(ds: seq<(string, SettingValue)>) {
    forall i, j :: 0 <= i < j < |ds| ==> ds[i].0 != ds[j].0
  }

  /** One step of the loop: a missing key takes its default. */
  function FillOne(s: SettingsObject, d: (string, SettingValue)): SettingsObject {
    if d.0 in s then s else s[d.0 := d.1]
  }

  /** The settings after the loop has visited the first i defaults. */
  function FillPrefix(s: SettingsObject, ds: seq<(string, SettingValue)>, i: nat): SettingsObject
    requires i <= |ds|
  {
    if i == 0 then s else FillOne(FillPrefix(s, ds, i - 1), ds[i - 1])
  }

  /** After visiting the first i defaults: the keys are the stored ones plus those defaults;
      stored values are kept (false included); a missing key holds its default. */
  lemma {:induction false} FillPrefixSpec(s: SettingsObject, ds: seq<(string, SettingValue)>, i: nat)
    requires i <= |ds| && KeysDistinct(ds)
    ensures forall k :: k in FillPrefix(s, ds, i) <==> (k in s || exists j :: 0 <= j < i && ds[j].0 == k)
    ensures forall k :: k in s ==> FillPrefix(s, ds, i)[k] == s[k]
    ensures forall j :: 0 <= j < i && ds[j].0 !in s ==>
      ds[j].0 in FillPrefix(s, ds, i) && FillPrefix(s, ds, i)[ds[j].0] == ds[j].1
  {
    FillPrefixKeys(s, ds, i);
    FillPrefixKeeps(s, ds, i);
    FillPrefixDefaults(s, ds, i);
  }

  lemma {:induction false} FillPrefixKeys(s: SettingsObject, ds: seq<(string, SettingValue)>, i: nat)
    requires i <= |ds|
    ensures forall k :: k in FillPrefix(s, ds, i) <==> (k in s || exists j :: 0 <= j < i && ds[j].0 == k)
  {
    if i > 0 {
      FillPrefixKeys(s, ds, i - 1);
    }
  }

  lemma {:induction false} FillPrefixKeeps(s: SettingsObject, ds: seq<(string, SettingValue)>, i: nat)
    requires i <= |ds|
    ensures forall k :: k in s ==> k in FillPrefix(s, ds, i) && FillPrefix(s, ds, i)[k] == s[k]
  {
    if i > 0 {
      FillPrefixKeeps(s, ds, i - 1);
    }
  }

  lemma {:induction false} FillPrefixDefaults(s: SettingsObject, ds: seq<(string, SettingValue)>, i: nat)
    requires i <= |ds| && KeysDistinct(ds)
    ensures forall j :: 0 <= j < i && ds[j].0 !in s ==>
      ds[j].0 in FillPrefix(s, ds, i) && FillPrefix(s, ds, i)[ds[j].0] == ds[j].1
  {
    if i > 0 {
      FillPrefixDefaults(s, ds, i - 1);
      FillPrefixKeys(s, ds, i - 1);
      var last := ds[i - 1].0;
      forall j | 0 <= j < i - 1
        ensures ds[j].0 != last
      {
      }
    }
  }

  /** Some default key is missing from the stored settings. */
  predicate MissesDefault(s: SettingsObject) {
    exists j :: 0 <= j < |DEFAULTS| && DEFAULTS[j].0 !in s
  }

  /** What the start-up writes: the defaults when nothing is stored, the filled-in settings
      when a default key is missing, else nothing. */
  function InitialSidebarSettings(stored: Option<SettingsObject>): Option<SettingsObject> {
    match stored
    case None => Some(DefaultSettings())
    case Some(s) => if MissesDefault(s) then Some(FillPrefix(s, DEFAULTS, |DEFAULTS|)) else None
  }

  /** The loop finds the i-th default key missing exactly when it was not stored. */
  lemma MissingAtStep(s: SettingsObject, i: nat)
    requires i < |DEFAULTS|
    ensures DEFAULTS[i].0 !in FillPrefix(s, DEFAULTS, i) <==> DEFAULTS[i].0 !in s
  {
    FillPrefixKeys(s, DEFAULTS, i);
    assert KeysDistinct(DEFAULTS);
  }

  /** initializeSidebarStorage: copy the stored object, give each missing default key its
      value while raising `needsUpdate`, and write only if it was raised. */
  method InitializeSidebarStorage(stored: Option<SettingsObject>) returns (write: Option<SettingsObject>)
    ensures write == InitialSidebarSettings(stored)
  {
    if stored.None? {
      return Some(DefaultSettings());
    }
    var updated := stored.value;
    var needsUpdate := false;
    var i := 0;
    while i < |DEFAULTS|
      invariant 0 <= i <= |DEFAULTS|
      invariant updated == FillPrefix(stored.value, DEFAULTS, i)
      invariant needsUpdate <==> exists j :: 0 <= j < i && DEFAULTS[j].0 !in stored.value
    {
      MissingAtStep(stored.value, i);
      var (key, defaultValue) := DEFAULTS[i];
      if key !in updated {
        updated := updated[key := defaultValue];
        needsUpdate := true;
      }
      i := i + 1;
    }
    if needsUpdate {
      write := Some(updated);
    } else {
      write := None;
    }
  }

  /** With nothing stored the four defaults are written; stored values survive (false
      included) and so do keys outside the defaults; every default key is present after a
      write; a write happens exactly when a default key is missing, so a second run writes
      nothing. */
  lemma InitialSidebarSettingsEffect(stored: Option<SettingsObject>)
    ensures stored.None? ==> InitialSidebarSettings(stored) == Some(DefaultSettings())
    ensures stored.Some? ==> (InitialSidebarSettings(stored).Some? <==> MissesDefault(stored.value))
    ensures var w := InitialSidebarSettings(stored);
      w.Some? ==> forall j :: 0 <= j < |DEFAULTS| ==> DEFAULTS[j].0 in w.value
    ensures var w := InitialSidebarSettings(stored);
      w.Some? && stored.Some? ==> forall k :: k in stored.value ==> k in w.value && w.value[k] == stored.value[k]
    ensures var w := InitialSidebarSettings(stored);
      w.Some? ==> InitialSidebarSettings(w).None?
  {
    if stored.Some? {
      FillPrefixSpec(stored.value, DEFAULTS, |DEFAULTS|);
    }
    var w := InitialSidebarSettings(stored);
    if w.Some? {
      assert !MissesDefault(w.value);
    }
  }

  /** What the background sends back. */
  datatype SidebarResponse = StorageData(data: SettingsObject) | SetDone(success: bool)

  /** handleSidebarMessage: whether the channel stays open, the local storage afterwards,
      and the response sent. */
  function HandleSidebarMessage(action: string, data: SettingsObject, storage: SettingsObject)
    : (r: (bool, SettingsObject, Option<SidebarResponse>))
    ensures r.0 <==> action == GET_STORAGE_DATA || action == SET_STORAGE_DATA
    ensures !r.0 ==> r.1 == storage && r.2.None?
    ensures action == GET_STORAGE_DATA ==> r.1 == storage && r.2 == Some(StorageData(storage))
    ensures action == SET_STORAGE_DATA ==>
      && r.2 == Some(SetDone(true))
      && r.1.Keys == storage.Keys + data.Keys
      && (forall k :: k in data ==> r.1[k] == data[k])
      && (forall k :: k in storage && k !in data ==> r.1[k] == storage[k])
  {
    if action == GET_STORAGE_DATA then (true, storage, Some(StorageData(storage)))
    else if action == SET_STORAGE_DATA then (true, storage + data, Some(SetDone(true)))
    else (false, storage, None)
  }
}
