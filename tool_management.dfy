/** Enabling and disabling catalogue tools: a map from tool id to on/off kept beside the
    tool list, loaded from storage at start-up, changed one tool or many at a time, saved
    after each change and rolled back when the save fails. Whether a load or a save
    succeeds is a parameter. */
module ToolManagement {
  import opened Wrappers
  import opened ToolData
  import Seqs

  type ToolSettings = map<string, bool>

  const LOAD_FAILED: string := "加载工具设置失败"
  const SAVE_FAILED: string := "保存工具设置失败"
  const RESET_FAILED: string := "重置工具设置失败"

  /** `enabledTools[toolId]` tested for truth: a missing entry is off. */
  predicate IsOn(settings: ToolSettings, toolId: string) {
    toolId in settings && settings[toolId]
  }

  /** The settings the start-up loop has built after the first i tools: each id maps to its
      saved value, or to the tool's own flag when nothing is saved. */
  function SettingsFor(tools: seq<CatalogTool>, saved: ToolSettings, i: nat): ToolSettings
    requires i <= |tools|
  {
    if i == 0 then map[]
    else
      var t := tools[i - 1];
      SettingsFor(tools, saved, i - 1)[t.id := if t.id in saved then saved[t.id] else t.enabled]
  }

  /** With distinct ids: the keys are exactly the ids seen, each mapped to its saved value
      or its default. */
  lemma {:induction false} SettingsForSpec(tools: seq<CatalogTool>, saved: ToolSettings, i: nat)
    requires i <= |tools| && IdsDistinct(tools)
    ensures forall k :: k in SettingsFor(tools, saved, i) <==> exists j :: 0 <= j < i && tools[j].id == k
    ensures forall j :: 0 <= j < i ==>
      tools[j].id in SettingsFor(tools, saved, i)
      && SettingsFor(tools, saved, i)[tools[j].id] == (if tools[j].id in saved then saved[tools[j].id] else tools[j].enabled)
  {
    if i > 0 {
      SettingsForSpec(tools, saved, i - 1);
    }
  }

  /** The next tool maps to its saved value, or to its own flag when nothing is saved. */
  lemma SettingsForStep(tools: seq<CatalogTool>, saved: ToolSettings, i: nat)
    requires i < |tools|
    ensures SettingsFor(tools, saved, i + 1)
         == SettingsFor(tools, saved, i)[tools[i].id := if tools[i].id in saved then saved[tools[i].id] else tools[i].enabled]
  {
  }

  /** The tools with their flags set from the settings (tools without an entry unchanged). */
  function WithFlags(tools: seq<CatalogTool>, settings: ToolSettings): (r: seq<CatalogTool>)
    ensures |r| == |tools|
    ensures forall j :: 0 <= j < |tools| ==>
      r[j] == (if tools[j].id in settings then tools[j].(enabled := settings[tools[j].id]) else tools[j])
  {
    if tools == [] then []
    else
      var t := tools[0];
      [if t.id in settings then t.(enabled := settings[t.id]) else t] + WithFlags(tools[1..], settings)
  }

  /** getEnabledTools: the tools whose entry is on, in order. */
  function EnabledToolsOf(tools: seq<CatalogTool>, settings: ToolSettings): (r: seq<CatalogTool>)
    ensures forall j :: 0 <= j < |tools| ==> (tools[j] in r <==> IsOn(settings, tools[j].id))
    ensures Seqs.IsSubsequence(r, tools)
    ensures forall t :: multiset(r)[t] == if IsOn(settings, t.id) then multiset(tools)[t] else 0
  {
    Seqs.FilterIsSubsequence((t: CatalogTool) => IsOn(settings, t.id), tools);
    Seqs.FilterMultiset((t: CatalogTool) => IsOn(settings, t.id), tools);
    Seqs.Filter((t: CatalogTool) => IsOn(settings, t.id), tools)
  }

  /** Setting only the flag through updateTool is the record update of the flag. */
  lemma MergedEnabled(t: CatalogTool, enabled: bool)
    ensures Merged(t, EnabledOnly(enabled)) == t.(enabled := enabled)
  {
  }

  /** `updateTool(toolId, { enabled })` */
  function SetFlag(tools: seq<CatalogTool>, toolId: string, enabled: bool): (r: seq<CatalogTool>)
    ensures |r| == |tools|
    ensures forall j :: 0 <= j < |tools| ==>
      r[j] == (if tools[j].id == toolId then tools[j].(enabled := enabled) else tools[j])
  {
    var r := UpdateTool(tools, toolId, EnabledOnly(enabled));
    assert forall j :: 0 <= j < |tools| && tools[j].id == toolId ==> r[j] == tools[j].(enabled := enabled) by {
      forall j | 0 <= j < |tools| && tools[j].id == toolId {
        MergedEnabled(tools[j], enabled);
      }
    }
    r
  }

  /** The map after the listed ids have been set, one after the other. */
  function SetAll(settings: ToolSettings, ids: seq<string>, enabled: bool): (r: ToolSettings)
    ensures forall k :: k in ids ==> k in r
  {
    if ids == [] then settings
    else
      assert ids == ids[..|ids| - 1] + [ids[|ids| - 1]];
      SetAll(settings, ids[..|ids| - 1], enabled)[ids[|ids| - 1] := enabled]
  }

  lemma {:induction false} SetAllSpec(settings: ToolSettings, ids: seq<string>, enabled: bool)
    ensures forall k :: k in SetAll(settings, ids, enabled) <==> k in settings || k in ids
    ensures forall k :: k in ids ==> SetAll(settings, ids, enabled)[k] == enabled
    ensures forall k :: k in settings && k !in ids ==> SetAll(settings, ids, enabled)[k] == settings[k]
  {
    if ids != [] {
      var init := ids[..|ids| - 1];
      SetAllSpec(settings, init, enabled);
      assert ids == init + [ids[|ids| - 1]];
    }
  }

  /** Each listed id's previous entry, off when it had none. */
  function PriorStates(settings: ToolSettings, ids: seq<string>): (r: ToolSettings)
    ensures forall k :: k in ids ==> k in r
  {
    if ids == [] then map[]
    else
      assert ids == ids[..|ids| - 1] + [ids[|ids| - 1]];
      PriorStates(settings, ids[..|ids| - 1])[ids[|ids| - 1] := IsOn(settings, ids[|ids| - 1])]
  }

  lemma {:induction false} PriorStatesSpec(settings: ToolSettings, ids: seq<string>)
    ensures forall k :: k in PriorStates(settings, ids) <==> k in ids
    ensures forall k :: k in PriorStates(settings, ids) ==> PriorStates(settings, ids)[k] == IsOn(settings, k)
  {
    if ids != [] {
      var init := ids[..|ids| - 1];
      PriorStatesSpec(settings, init);
      assert ids == init + [ids[|ids| - 1]];
    }
  }

  /** The tools after `updateTool(id, { enabled: flag(id) })` for each listed id in turn. */
  function SetFlags(tools: seq<CatalogTool>, ids: seq<string>, flags: ToolSettings): (r: seq<CatalogTool>)
    requires forall k :: k in ids ==> k in flags
    ensures |r| == |tools|
  {
    if ids == [] then tools
    else SetFlag(SetFlags(tools, ids[..|ids| - 1], flags), ids[|ids| - 1], flags[ids[|ids| - 1]])
  }

  lemma {:induction false} SetFlagsSpec(tools: seq<CatalogTool>, ids: seq<string>, flags: ToolSettings)
    requires forall k :: k in ids ==> k in flags
    ensures |SetFlags(tools, ids, flags)| == |tools|
    ensures forall j :: 0 <= j < |tools| ==>
      SetFlags(tools, ids, flags)[j] == (if tools[j].id in ids then tools[j].(enabled := flags[tools[j].id]) else tools[j])
  {
    if ids != [] {
      var init := ids[..|ids| - 1];
      SetFlagsSpec(tools, init, flags);
      assert ids == init + [ids[|ids| - 1]];
    }
  }

  /** A flag change keeps the ids, and so keeps them distinct. */
  lemma SetFlagsKeepsIds(tools: seq<CatalogTool>, ids: seq<string>, flags: ToolSettings)
    requires forall k :: k in ids ==> k in flags
    ensures |SetFlags(tools, ids, flags)| == |tools|
    ensures forall j :: 0 <= j < |tools| ==> SetFlags(tools, ids, flags)[j].id == tools[j].id
    ensures IdsDistinct(tools) ==> IdsDistinct(SetFlags(tools, ids, flags))
  {
    SetFlagsSpec(tools, ids, flags);
  }

  /** One more listed id: each of SetAll, PriorStates and SetFlags on the first i + 1 ids
      is the same on the first i ids followed by that id's step. */
  lemma SetAllStep(settings: ToolSettings, ids: seq<string>, i: nat, enabled: bool)
    requires i < |ids|
    ensures SetAll(settings, ids[..i + 1], enabled) == SetAll(settings, ids[..i], enabled)[ids[i] := enabled]
  {
    assert ids[..i + 1][..i] == ids[..i];
  }

  lemma PriorStatesStep(settings: ToolSettings, ids: seq<string>, i: nat)
    requires i < |ids|
    ensures PriorStates(settings, ids[..i + 1]) == PriorStates(settings, ids[..i])[ids[i] := IsOn(settings, ids[i])]
  {
    assert ids[..i + 1][..i] == ids[..i];
  }

  lemma SetFlagsStep(tools: seq<CatalogTool>, ids: seq<string>, i: nat, flags: ToolSettings)
    requires i < |ids| && forall k :: k in ids ==> k in flags
    ensures forall k :: k in ids[..i + 1] ==> k in flags
    ensures SetFlags(tools, ids[..i + 1], flags) == SetFlag(SetFlags(tools, ids[..i], flags), ids[i], flags[ids[i]])
  {
    assert ids[..i + 1][..i] == ids[..i];
  }

  class ToolManager {
    var tools: seq<CatalogTool>
    var enabledTools: ToolSettings
    var isInitialized: bool
    var dataLoading: bool
    var error: Option<string>
    /** What the settings storage holds. */
    var stored: ToolSettings

    ghost predicate Valid()
      reads this
    {
      IdsDistinct(tools)
    }

    constructor(stored: ToolSettings)
      ensures Valid()
      ensures tools == InitialTools() && enabledTools == map[] && !isInitialized && !dataLoading
      ensures error.None? && this.stored == stored
    {
      InitialToolsWellFormed();
      tools := InitialTools();
      enabledTools := map[];
      isInitialized := false;
      dataLoading := false;
      error := None;
      this.stored := stored;
    }

    /** The hook's isLoading. */
    predicate IsLoading()
      reads this
    {
      dataLoading || !isInitialized
    }

    /** Start-up: `load` is the loaded settings, or None when loading threw. Each tool id
        maps to its saved value or its own flag (only its own flag after a failed load);
        after a successful load the tool list takes the new flags. */
    method Initialize(load: Option<ToolSettings>)
      requires Valid()
      modifies this
      ensures Valid() && isInitialized && !dataLoading && !IsLoading() && stored == old(stored)
      ensures enabledTools == SettingsFor(old(tools), load.GetOr(map[]), |old(tools)|)
      ensures load.None? ==> tools == old(tools) && error == Some(LOAD_FAILED)
      ensures load.Some? ==> tools == WithFlags(old(tools), enabledTools) && error == old(error)
    {
      ghost var original := tools;
      dataLoading := true;
      var defaultSettings := LoadedSettings(load.GetOr(map[]));
      enabledTools := defaultSettings;
      if load.Some? {
        SyncTools(defaultSettings);
        assert tools == WithFlags(original, defaultSettings);
      } else {
        error := Some(LOAD_FAILED);
      }
      isInitialized := true;
      dataLoading := false;
    }

    /** The start-up's first loop: each tool id is mapped to its saved value, or to the
        tool's own flag when nothing is saved. */
    method LoadedSettings(saved: ToolSettings) returns (settings: ToolSettings)
      ensures settings == SettingsFor(tools, saved, |tools|)
    {
      var original := tools;
      settings := map[];
      var i := 0;
      while i < |original|
        invariant 0 <= i <= |original|
        invariant settings == SettingsFor(original, saved, i)
      {
        var t := original[i];
        SettingsForStep(original, saved, i);
        settings := settings[t.id := if t.id in saved then saved[t.id] else t.enabled];
        i := i + 1;
      }
    }

    /** The start-up's second loop: a tool whose flag differs from its entry is updated. */
    method SyncTools(settings: ToolSettings)
      requires Valid()
      modifies this
      ensures Valid() && tools == WithFlags(old(tools), settings)
      ensures enabledTools == old(enabledTools) && error == old(error) && stored == old(stored)
      ensures isInitialized == old(isInitialized) && dataLoading == old(dataLoading)
    {
      var original := tools;
      var i := 0;
      while i < |original|
        invariant 0 <= i <= |original| && |tools| == |original|
        invariant forall j :: 0 <= j < |original| ==> tools[j].id == original[j].id
        invariant forall j :: 0 <= j < |original| ==>
          tools[j] == (if j < i && original[j].id in settings then original[j].(enabled := settings[original[j].id])
                       else original[j])
        invariant enabledTools == old(enabledTools) && error == old(error) && stored == old(stored)
        invariant isInitialized == old(isInitialized) && dataLoading == old(dataLoading)
      {
        var t := original[i];
        if t.id in settings && t.enabled != settings[t.id] {
          tools := SetFlag(tools, t.id, settings[t.id]);
        }
        i := i + 1;
      }
    }

    /** toggleTool: the entry is negated (a missing one becomes on) in the map and on the
        tools with that id, and the new map is saved. When the save fails the entry and
        the tools are set back to the negation of the new state and the error is raised. */
    method ToggleTool(toolId: string, saveSucceeds: bool) returns (r: Result<(), string>)
      requires Valid()
      modifies this
      ensures Valid() && isInitialized == old(isInitialized) && dataLoading == old(dataLoading)
      ensures r.Success? <==> saveSucceeds
      ensures saveSucceeds ==>
        && enabledTools == old(enabledTools)[toolId := !IsOn(old(enabledTools), toolId)]
        && stored == enabledTools
        && tools == SetFlag(old(tools), toolId, !IsOn(old(enabledTools), toolId))
        && error == old(error)
      ensures !saveSucceeds ==>
        && enabledTools == old(enabledTools)[toolId := IsOn(old(enabledTools), toolId)]
        && (toolId in old(enabledTools) ==> enabledTools == old(enabledTools))
        && stored == old(stored)
        && tools == SetFlag(old(tools), toolId, IsOn(old(enabledTools), toolId))
        && r == Failure(SAVE_FAILED) && error == Some(SAVE_FAILED)
    {
      var newState := !IsOn(enabledTools, toolId);
      EntryRestored(enabledTools, toolId, !newState);
      SetFlagTwice(tools, toolId, newState, !newState);
      SetFlagKeepsIds(tools, toolId, newState);
      SetFlagKeepsIds(tools, toolId, !newState);
      enabledTools := enabledTools[toolId := newState];
      tools := SetFlag(tools, toolId, newState);
      if saveSucceeds {
        stored := enabledTools;
        return Success(());
      }
      enabledTools := enabledTools[toolId := !newState];
      tools := SetFlag(tools, toolId, !newState);
      error := Some(SAVE_FAILED);
      r := Failure(SAVE_FAILED);
    }

    /** toggleMultipleTools: every listed id is set to `enabled`, in the map and on its
        tools, and the map is saved. When the save fails the whole previous map comes back,
        each listed id's tools take the id's previous entry (off when it had none), and the
        error is raised. */
    method ToggleMultipleTools(toolIds: seq<string>, enabled: bool, saveSucceeds: bool) returns (r: Result<(), string>)
      requires Valid()
      modifies this
      ensures Valid() && isInitialized == old(isInitialized) && dataLoading == old(dataLoading)
      ensures r.Success? <==> saveSucceeds
      ensures saveSucceeds ==>
        && enabledTools == SetAll(old(enabledTools), toolIds, enabled)
        && stored == enabledTools && error == old(error)
        && tools == SetFlags(old(tools), toolIds, SetAll(map[], toolIds, enabled))
      ensures !saveSucceeds ==>
        && enabledTools == old(enabledTools) && stored == old(stored)
        && r == Failure(SAVE_FAILED) && error == Some(SAVE_FAILED)
        && tools == SetFlags(old(tools), toolIds, PriorStates(old(enabledTools), toolIds))
    {
      var previous := enabledTools;
      var original := tools;
      var newEnabledTools, originalStates := SetListedFlags(toolIds, enabled);
      SetFlagsKeepsIds(original, toolIds, SetAll(map[], toolIds, enabled));
      enabledTools := newEnabledTools;
      if saveSucceeds {
        stored := newEnabledTools;
        return Success(());
      }
      RollbackFlags(original, toolIds, enabled, previous);
      RestoreListedFlags(toolIds, originalStates);
      SetFlagsKeepsIds(original, toolIds, originalStates);
      enabledTools := previous;
      error := Some(SAVE_FAILED);
      r := Failure(SAVE_FAILED);
    }

    /** toggleMultipleTools' loop: each listed tool is set, and the new map and each
        listed id's previous entry are collected. */
    method SetListedFlags(toolIds: seq<string>, enabled: bool) returns (newEnabledTools: ToolSettings, originalStates: ToolSettings)
      modifies this
      ensures newEnabledTools == SetAll(enabledTools, toolIds, enabled)
      ensures originalStates == PriorStates(enabledTools, toolIds)
      ensures tools == SetFlags(old(tools), toolIds, SetAll(map[], toolIds, enabled))
      ensures enabledTools == old(enabledTools) && stored == old(stored) && error == old(error)
      ensures isInitialized == old(isInitialized) && dataLoading == old(dataLoading)
    {
      var list;
      newEnabledTools, originalStates, list := ListedFlags(toolIds, enabled);
      tools := list;
    }

    /** The values toggleMultipleTools' loop computes from the current state: the new map,
        each listed id's previous entry, and the tool list with the listed tools set. */
    method ListedFlags(toolIds: seq<string>, enabled: bool)
      returns (newEnabledTools: ToolSettings, originalStates: ToolSettings, list: seq<CatalogTool>)
      ensures newEnabledTools == SetAll(enabledTools, toolIds, enabled)
      ensures originalStates == PriorStates(enabledTools, toolIds)
      ensures list == SetFlags(tools, toolIds, SetAll(map[], toolIds, enabled))
    {
      var all := SetAll(map[], toolIds, enabled);
      assert forall k :: k in toolIds ==> k in all && all[k] == enabled by {
        SetAllSpec(map[], toolIds, enabled);
      }
      var settings, original := enabledTools, tools;
      newEnabledTools, originalStates, list := settings, map[], original;
      var i := 0;
      while i < |toolIds|
        invariant 0 <= i <= |toolIds|
        invariant newEnabledTools == SetAll(settings, toolIds[..i], enabled)
        invariant originalStates == PriorStates(settings, toolIds[..i])
        invariant list == SetFlags(original, toolIds[..i], all)
      {
        var toolId := toolIds[i];
        assert SetAll(settings, toolIds[..i + 1], enabled) == newEnabledTools[toolId := enabled] by {
          SetAllStep(settings, toolIds, i, enabled);
        }
        assert PriorStates(settings, toolIds[..i + 1]) == originalStates[toolId := IsOn(settings, toolId)] by {
          PriorStatesStep(settings, toolIds, i);
        }
        assert SetFlags(original, toolIds[..i + 1], all) == SetFlag(list, toolId, enabled) by {
          SetFlagsStep(original, toolIds, i, all);
        }
        originalStates := originalStates[toolId := IsOn(settings, toolId)];
        newEnabledTools := newEnabledTools[toolId := enabled];
        list := SetFlag(list, toolId, enabled);
        i := i + 1;
      }
      assert toolIds[..|toolIds|] == toolIds;
    }

    /** toggleMultipleTools' rollback loop: each listed tool is set to its id's saved state. */
    method RestoreListedFlags(toolIds: seq<string>, states: ToolSettings)
      requires forall k :: k in toolIds ==> k in states
      modifies this
      ensures tools == SetFlags(old(tools), toolIds, states)
      ensures enabledTools == old(enabledTools) && stored == old(stored) && error == old(error)
      ensures isInitialized == old(isInitialized) && dataLoading == old(dataLoading)
    {
      var i := 0;
      while i < |toolIds|
        invariant 0 <= i <= |toolIds|
        invariant tools == SetFlags(old(tools), toolIds[..i], states)
        invariant enabledTools == old(enabledTools) && stored == old(stored) && error == old(error)
        invariant isInitialized == old(isInitialized) && dataLoading == old(dataLoading)
      {
        var toolId := toolIds[i];
        SetFlagsStep(old(tools), toolIds, i, states);
        tools := SetFlag(tools, toolId, states[toolId]);
        i := i + 1;
      }
      assert toolIds[..|toolIds|] == toolIds;
    }

    /** resetToolSettings: every tool id maps to the tool's own flag and the map is saved;
        a failed save keeps the reset map and raises the error. */
    method ResetToolSettings(saveSucceeds: bool) returns (r: Result<(), string>)
      requires Valid()
      modifies this
      ensures Valid() && tools == old(tools)
      ensures isInitialized == old(isInitialized) && dataLoading == old(dataLoading)
      ensures enabledTools == SettingsFor(tools, map[], |tools|)
      ensures r.Success? <==> saveSucceeds
      ensures saveSucceeds ==> stored == enabledTools && error == old(error)
      ensures !saveSucceeds ==> stored == old(stored) && r == Failure(RESET_FAILED) && error == Some(RESET_FAILED)
    {
      var defaultSettings := ResetFlags();
      enabledTools := defaultSettings;
      if saveSucceeds {
        stored := defaultSettings;
        return Success(());
      }
      error := Some(RESET_FAILED);
      r := Failure(RESET_FAILED);
    }

    /** resetToolSettings' loop: each tool id is mapped to the tool's own flag, and the
        tool is updated to that flag, which leaves it as it was. */
    method ResetFlags() returns (defaultSettings: ToolSettings)
      requires Valid()
      modifies this
      ensures defaultSettings == SettingsFor(tools, map[], |tools|)
      ensures tools == old(tools) && enabledTools == old(enabledTools)
      ensures stored == old(stored) && error == old(error)
      ensures isInitialized == old(isInitialized) && dataLoading == old(dataLoading)
    {
      var original := tools;
      defaultSettings := map[];
      var i := 0;
      while i < |original|
        invariant 0 <= i <= |original|
        invariant defaultSettings == SettingsFor(original, map[], i)
        invariant tools == original
        invariant enabledTools == old(enabledTools) && stored == old(stored) && error == old(error)
        invariant isInitialized == old(isInitialized) && dataLoading == old(dataLoading)
      {
        var t := original[i];
        SettingsForStep(original, map[], i);
        defaultSettings := defaultSettings[t.id := t.enabled];
        SetFlagSelf(tools, i);
        tools := SetFlag(tools, t.id, t.enabled);
        i := i + 1;
      }
    }

    /** The hook's getEnabledTools. */
    function GetEnabledTools(): seq<CatalogTool>
      reads this
    {
      EnabledToolsOf(tools, enabledTools)
    }
  }

  /** Setting a tool's flag to its own value changes nothing when ids are distinct. */
  lemma SetFlagSelf(tools: seq<CatalogTool>, i: nat)
    requires i < |tools| && IdsDistinct(tools)
    ensures SetFlag(tools, tools[i].id, tools[i].enabled) == tools
  {
  }

  lemma SetFlagKeepsIds(tools: seq<CatalogTool>, toolId: string, enabled: bool)
    ensures forall j :: 0 <= j < |tools| ==> SetFlag(tools, toolId, enabled)[j].id == tools[j].id
    ensures IdsDistinct(tools) ==> IdsDistinct(SetFlag(tools, toolId, enabled))
  {
  }

  /** Setting an entry back to its old truth value after negating it: the map has the
      old truth value under the id, the same map when the id had an entry. */
  lemma EntryRestored(settings: ToolSettings, toolId: string, on: bool)
    requires on == IsOn(settings, toolId)
    ensures settings[toolId := !on][toolId := on] == settings[toolId := on]
    ensures toolId in settings ==> settings[toolId := on] == settings
  {
  }

  /** The second of two flag changes on the same id wins. */
  lemma SetFlagTwice(tools: seq<CatalogTool>, toolId: string, a: bool, b: bool)
    ensures SetFlag(SetFlag(tools, toolId, a), toolId, b) == SetFlag(tools, toolId, b)
  {
  }

  /** Rolling back the listed ids' flags after setting them leaves each listed tool with
      its id's previous entry. */
  lemma RollbackFlags(tools: seq<CatalogTool>, ids: seq<string>, enabled: bool, previous: ToolSettings)
    ensures forall k :: k in ids ==> k in SetAll(map[], ids, enabled) && k in PriorStates(previous, ids)
    ensures SetFlags(SetFlags(tools, ids, SetAll(map[], ids, enabled)), ids, PriorStates(previous, ids))
      == SetFlags(tools, ids, PriorStates(previous, ids))
  {
    SetAllSpec(map[], ids, enabled);
    PriorStatesSpec(previous, ids);
    var all := SetAll(map[], ids, enabled);
    var prior := PriorStates(previous, ids);
    var once := SetFlags(tools, ids, all);
    SetFlagsSpec(tools, ids, all);
    SetFlagsSpec(once, ids, prior);
    SetFlagsSpec(tools, ids, prior);
  }

  /** The tool flags agree with the map wherever the map has an entry. */
  predicate InSync(tools: seq<CatalogTool>, settings: ToolSettings) {
    forall j :: 0 <= j < |tools| && tools[j].id in settings ==> tools[j].enabled == settings[tools[j].id]
  }

  /** A toggle turns every tool with the id to the new state and touches no other tool;
      the rollback after a failed save restores the tools exactly when they agreed with
      an entry the map had, and otherwise leaves them off. */
  lemma {:induction false} ToggleToolEffect(tools: seq<CatalogTool>, settings: ToolSettings, toolId: string)
    ensures forall j :: 0 <= j < |tools| ==>
      SetFlag(tools, toolId, !IsOn(settings, toolId))[j].enabled
        == (if tools[j].id == toolId then !IsOn(settings, toolId) else tools[j].enabled)
    ensures InSync(tools, settings) && toolId in settings ==> SetFlag(tools, toolId, IsOn(settings, toolId)) == tools
    ensures toolId !in settings ==>
      forall j :: 0 <= j < |tools| && tools[j].id == toolId ==> !SetFlag(tools, toolId, IsOn(settings, toolId))[j].enabled
  {
    if InSync(tools, settings) && toolId in settings {
      var r := SetFlag(tools, toolId, IsOn(settings, toolId));
      forall j | 0 <= j < |tools|
        ensures r[j] == tools[j]
      {
        if tools[j].id == toolId {
          assert tools[j].enabled == settings[toolId];
        }
      }
    }
  }

  /** Setting several tools: every listed id is on or off as asked in the map and on its
      tools, everything unlisted is unchanged. */
  lemma ToggleMultipleEffect(tools: seq<CatalogTool>, settings: ToolSettings, ids: seq<string>, enabled: bool)
    ensures forall k :: k in ids ==> SetAll(settings, ids, enabled)[k] == enabled
    ensures forall k :: k in settings && k !in ids ==> k in SetAll(settings, ids, enabled) && SetAll(settings, ids, enabled)[k] == settings[k]
    ensures forall j :: 0 <= j < |tools| ==>
      SetFlags(tools, ids, SetAll(map[], ids, enabled))[j] == (if tools[j].id in ids then tools[j].(enabled := enabled) else tools[j])
  {
    SetAllSpec(settings, ids, enabled);
    SetAllSpec(map[], ids, enabled);
    SetFlagsSpec(tools, ids, SetAll(map[], ids, enabled));
  }

  /** After a failed save each listed tool holds its id's previous entry (off when it had
      none), and the tools are back as they were when they agreed with a map that had
      every listed id. */
  lemma ToggleMultipleRollback(tools: seq<CatalogTool>, settings: ToolSettings, ids: seq<string>)
    ensures forall j :: 0 <= j < |tools| ==>
      SetFlags(tools, ids, PriorStates(settings, ids))[j]
        == (if tools[j].id in ids then tools[j].(enabled := IsOn(settings, tools[j].id)) else tools[j])
    ensures InSync(tools, settings) && (forall k :: k in ids ==> k in settings) ==>
      SetFlags(tools, ids, PriorStates(settings, ids)) == tools
  {
    PriorStatesSpec(settings, ids);
    SetFlagsSpec(tools, ids, PriorStates(settings, ids));
  }

  /** After a reset every tool id maps to the tool's own flag, and the enabled tools are
      exactly the tools whose own flag is on. */
  lemma ResetMapsToDefaults(tools: seq<CatalogTool>)
    requires IdsDistinct(tools)
    ensures forall j :: 0 <= j < |tools| ==> IsOn(SettingsFor(tools, map[], |tools|), tools[j].id) == tools[j].enabled
    ensures forall j :: 0 <= j < |tools| ==>
      (tools[j] in EnabledToolsOf(tools, SettingsFor(tools, map[], |tools|)) <==> tools[j].enabled)
  {
    SettingsForSpec(tools, map[], |tools|);
  }
}
