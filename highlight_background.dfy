/** The highlighter's part of the background worker: the per-tab on/off state over a global
    default, the toggle menu's title, the toolbar icon's title and badge, the context-menu
    and runtime-message dispatch, and the first-run settings default. */
module HighlightBackground {
  import opened Wrappers
  import opened Text
  import opened Settings

  const TOGGLE_ID: string := "effikit-highlight-toggle"
  const CLEAR_ID: string := "effikit-highlight-clear"
  const SEPARATOR_ID: string := "effikit-separator"
  const OPEN_MANAGER_ID: string := "effikit-open-manager"

  /** The menu title that offers to switch highlighting off (shown while it is on). */
  const DISABLE_TITLE: string := "禁用高亮功能"
  /** The menu title that offers to switch highlighting on. */
  const ENABLE_TITLE: string := "启用高亮功能"

  const BASE_TITLE: string := "EffiKit - 开发工具集成平台"
  const ENABLED_WITH_HIGHLIGHTS: string := " (高亮已启用，当前页面有高亮内容)"
  const DISABLED_WITH_HIGHLIGHTS: string := " (高亮已禁用，当前页面有高亮内容)"
  const ENABLED_NO_HIGHLIGHTS: string := " (高亮已启用)"
  const DISABLED_NO_HIGHLIGHTS: string := " (高亮已禁用)"

  const DOT: string := "●"
  const ORANGE: string := "#FF9800"
  const GREY: string := "#757575"
  const GREEN: string := "#4CAF50"

  /** The state a tab is in: its own entry, else the global flag. */
  function Effective(tabStatus: map<int, bool>, global: bool, tabId: int): bool {
    if tabId in tabStatus then tabStatus[tabId] else global
  }

  /** The toggle item's title for a tab. */
  function MenuTitle(enabled: bool): string {
    if enabled then DISABLE_TITLE else ENABLE_TITLE
  }

  /** The title offers to disable exactly when the tab's highlighting is on. */
  lemma MenuTitleIff(enabled: bool)
    ensures MenuTitle(enabled) == DISABLE_TITLE <==> enabled
    ensures MenuTitle(enabled) == ENABLE_TITLE <==> !enabled
  {
    assert DISABLE_TITLE[0] != ENABLE_TITLE[0];
  }

  /** What updateActionIcon shows for a tab. */
  datatype ActionIcon = ActionIcon(title: string, badgeText: string, badgeColor: string)

  /** The icon a tab should show, read off the table by columns: the title names both
      facts, the dot marks a page with highlights, and the colour is green without
      highlights, else orange when on and grey when off. */
  function IconFor(enabled: bool, hasHighlights: bool): ActionIcon {
    ActionIcon(BASE_TITLE + IconSuffix(enabled, hasHighlights),
               if hasHighlights then DOT else "",
               if !hasHighlights then GREEN else if enabled then ORANGE else GREY)
  }

  /** updateActionIcon's decision table, built by reassigning the three values. */
  method ComputeActionIcon(enabled: bool, hasHighlights: bool) returns (icon: ActionIcon)
    ensures icon.badgeText == DOT <==> hasHighlights
    ensures !hasHighlights ==> icon.badgeText == [] && icon.badgeColor == GREEN
    ensures hasHighlights && enabled ==> icon.badgeColor == ORANGE
    ensures hasHighlights && !enabled ==> icon.badgeColor == GREY
    ensures icon.title == BASE_TITLE + IconSuffix(enabled, hasHighlights)
    ensures icon == IconFor(enabled, hasHighlights)
  {
    var title := BASE_TITLE;
    var badgeText := "";
    var badgeColor := GREEN;
    if hasHighlights {
      if enabled {
        title := title + ENABLED_WITH_HIGHLIGHTS;
        badgeText := DOT;
        badgeColor := ORANGE;
      } else {
        title := title + DISABLED_WITH_HIGHLIGHTS;
        badgeText := DOT;
        badgeColor := GREY;
      }
    } else {
      if enabled {
        title := title + ENABLED_NO_HIGHLIGHTS;
        badgeText := "";
      } else {
        title := title + DISABLED_NO_HIGHLIGHTS;
        badgeText := "";
      }
    }
    icon := ActionIcon(title, badgeText, badgeColor);
  }

  function IconSuffix(enabled: bool, hasHighlights: bool): string {
    if hasHighlights then (if enabled then ENABLED_WITH_HIGHLIGHTS else DISABLED_WITH_HIGHLIGHTS)
    else if enabled then ENABLED_NO_HIGHLIGHTS else DISABLED_NO_HIGHLIGHTS
  }

  /** The four titles differ: the title alone tells both whether highlighting is on and
      whether the page has highlights. */
  lemma IconTitleDeterminesState(e1: bool, h1: bool, e2: bool, h2: bool)
    requires BASE_TITLE + IconSuffix(e1, h1) == BASE_TITLE + IconSuffix(e2, h2)
    ensures e1 == e2 && h1 == h2
  {
    var t1 := BASE_TITLE + IconSuffix(e1, h1);
    var t2 := BASE_TITLE + IconSuffix(e2, h2);
    assert t1[|BASE_TITLE|..] == IconSuffix(e1, h1);
    assert t2[|BASE_TITLE|..] == IconSuffix(e2, h2);
    var s1, s2 := IconSuffix(e1, h1), IconSuffix(e2, h2);
    assert s1 == s2;
    assert |s1| == |s2|;
    assert s1[5] == s2[5];
  }

  /** The answer of the page's content script to GET_HIGHLIGHT_STATUS. */
  datatype StatusReply = Reply(hasHighlights: bool) | NoReply | SendFailed

  /** The icons after checkTabHighlights on a tab in the given state: a reply sets the
      tab's icon from it, a failed send sets it without highlights, and no reply leaves
      every icon as it was. */
  function CheckedIcons(icons: map<int, ActionIcon>, tabId: int, enabled: bool, reply: StatusReply): map<int, ActionIcon> {
    if reply.Reply? then icons[tabId := IconFor(enabled, reply.hasHighlights)]
    else if reply.SendFailed? then icons[tabId := IconFor(enabled, false)]
    else icons
  }

  /** The id of the tab an event comes from, as JavaScript tests it (`tab?.id`): a missing
      id and the id 0 both count as none. */
  predicate HasTabId(tabId: Option<int>) {
    tabId.Some? && tabId.value != 0
  }

  class HighlightWorker {
    var highlightEnabled: bool
    var tabHighlightStatus: map<int, bool>
    var toggleMenuTitle: string
    var icons: map<int, ActionIcon>

    constructor()
      ensures highlightEnabled && tabHighlightStatus == map[] && icons == map[]
    {
      highlightEnabled := true;
      tabHighlightStatus := map[];
      toggleMenuTitle := "";
      icons := map[];
    }

    /** updateActionIcon: the tab's icon (title, badge text and badge colour) follows the
        table, and no other tab's icon changes. */
    method UpdateActionIcon(tabId: int, enabled: bool, hasHighlights: bool)
      modifies this
      ensures icons == old(icons)[tabId := IconFor(enabled, hasHighlights)]
      ensures icons[tabId].badgeText == DOT <==> hasHighlights
      ensures !hasHighlights ==> icons[tabId].badgeColor == GREEN
      ensures hasHighlights ==> icons[tabId].badgeColor == (if enabled then ORANGE else GREY)
      ensures tabHighlightStatus == old(tabHighlightStatus) && highlightEnabled == old(highlightEnabled)
      ensures toggleMenuTitle == old(toggleMenuTitle)
    {
      var icon := ComputeActionIcon(enabled, hasHighlights);
      icons := icons[tabId := icon];
    }

    /** toggleHighlightForTab: the tab's entry becomes the negation of its state, and its
        icon shows the new state without highlights. */
    method ToggleHighlightForTab(tabId: int)
      modifies this
      ensures tabHighlightStatus ==
        old(tabHighlightStatus)[tabId := !Effective(old(tabHighlightStatus), old(highlightEnabled), tabId)]
      ensures highlightEnabled == old(highlightEnabled)
      ensures icons == old(icons)[tabId := IconFor(tabHighlightStatus[tabId], false)]
      ensures toggleMenuTitle == old(toggleMenuTitle)
    {
      var currentEnabled := Effective(tabHighlightStatus, highlightEnabled, tabId);
      var newEnabled := !currentEnabled;
      tabHighlightStatus := tabHighlightStatus[tabId := newEnabled];
      UpdateActionIcon(tabId, newEnabled, false);
    }

    method UpdateHighlightContextMenus(tabId: int)
      modifies this
      ensures toggleMenuTitle == MenuTitle(Effective(tabHighlightStatus, highlightEnabled, tabId))
      ensures tabHighlightStatus == old(tabHighlightStatus) && highlightEnabled == old(highlightEnabled)
      ensures icons == old(icons)
    {
      toggleMenuTitle := MenuTitle(Effective(tabHighlightStatus, highlightEnabled, tabId));
    }

    /** clearHighlightsForTab: the icon shows the tab's state without highlights. */
    method ClearHighlightsForTab(tabId: int)
      modifies this
      ensures tabHighlightStatus == old(tabHighlightStatus) && highlightEnabled == old(highlightEnabled)
      ensures icons == old(icons)[tabId := IconFor(Effective(tabHighlightStatus, highlightEnabled, tabId), false)]
      ensures toggleMenuTitle == old(toggleMenuTitle)
    {
      var enabled := Effective(tabHighlightStatus, highlightEnabled, tabId);
      UpdateActionIcon(tabId, enabled, false);
    }

    /** checkTabHighlights: a reply sets the icon from it, a failed send sets it without
        highlights, and no reply leaves it. */
    method CheckTabHighlights(tabId: int, reply: StatusReply)
      modifies this
      ensures tabHighlightStatus == old(tabHighlightStatus) && highlightEnabled == old(highlightEnabled)
      ensures toggleMenuTitle == old(toggleMenuTitle)
      ensures icons == CheckedIcons(old(icons), tabId, Effective(tabHighlightStatus, highlightEnabled, tabId), reply)
    {
      var enabled := Effective(tabHighlightStatus, highlightEnabled, tabId);
      match reply
      case Reply(has) => UpdateActionIcon(tabId, enabled, has);
      case NoReply =>
      case SendFailed => UpdateActionIcon(tabId, enabled, false);
    }

    /** handleHighlightContextMenuClick: handled (true) for the toggle, clear and
        open-manager items of a tab with an id; false for the separator, any other item,
        or no tab id, which change nothing. */
    method HandleContextMenuClick(menuItemId: string, tabId: Option<int>) returns (handled: bool)
      modifies this
      ensures handled <==>
        (HasTabId(tabId) && (menuItemId == TOGGLE_ID || menuItemId == CLEAR_ID || menuItemId == OPEN_MANAGER_ID))
      ensures highlightEnabled == old(highlightEnabled)
      ensures !handled ==>
        (tabHighlightStatus == old(tabHighlightStatus) && icons == old(icons) && toggleMenuTitle == old(toggleMenuTitle))
      ensures handled && menuItemId == TOGGLE_ID ==>
        (tabHighlightStatus ==
           old(tabHighlightStatus)[tabId.value := !Effective(old(tabHighlightStatus), highlightEnabled, tabId.value)]
         && icons == old(icons)[tabId.value := IconFor(tabHighlightStatus[tabId.value], false)]
         && toggleMenuTitle == MenuTitle(tabHighlightStatus[tabId.value]))
      ensures handled && menuItemId == CLEAR_ID ==>
        (tabHighlightStatus == old(tabHighlightStatus)
         && icons == old(icons)[tabId.value := IconFor(Effective(tabHighlightStatus, highlightEnabled, tabId.value), false)]
         && toggleMenuTitle == old(toggleMenuTitle))
      ensures handled && menuItemId == OPEN_MANAGER_ID ==>
        (tabHighlightStatus == old(tabHighlightStatus) && icons == old(icons) && toggleMenuTitle == old(toggleMenuTitle))
    {
      if !HasTabId(tabId) {
        return false;
      }
      if menuItemId == TOGGLE_ID {
        ToggleHighlightForTab(tabId.value);
        UpdateHighlightContextMenus(tabId.value);
        handled := true;
      } else if menuItemId == CLEAR_ID {
        ClearHighlightsForTab(tabId.value);
        handled := true;
      } else if menuItemId == OPEN_MANAGER_ID {
        handled := true;
      } else {
        handled := false;
      }
    }

    /** handleHighlightMessage: never keeps the channel open. A created highlight marks the
        sender's icon as enabled with highlights; a removal or a ready content script
        re-checks the sender's tab; every other message, and a sender without a tab id,
        changes nothing. */
    method HandleMessage(messageType: string, senderTab: Option<int>, reply: StatusReply)
      returns (keepOpen: bool)
      modifies this
      ensures !keepOpen
      ensures tabHighlightStatus == old(tabHighlightStatus) && highlightEnabled == old(highlightEnabled)
      ensures toggleMenuTitle == old(toggleMenuTitle)
      ensures messageType == "HIGHLIGHT_CREATED" && HasTabId(senderTab) ==>
        icons == old(icons)[senderTab.value := IconFor(true, true)]
      ensures (messageType == "HIGHLIGHT_REMOVED" || messageType == "CONTENT_SCRIPT_READY") && HasTabId(senderTab) ==>
        icons == CheckedIcons(old(icons), senderTab.value,
                              Effective(tabHighlightStatus, highlightEnabled, senderTab.value), reply)
      ensures !(messageType in {"HIGHLIGHT_CREATED", "HIGHLIGHT_REMOVED", "CONTENT_SCRIPT_READY"}) ==>
        icons == old(icons)
      ensures !HasTabId(senderTab) ==> icons == old(icons)
    {
      if HasTabId(senderTab) {
        if messageType == "HIGHLIGHT_CREATED" {
          var icon := ComputeActionIcon(true, true);
          icons := icons[senderTab.value := icon];
        } else if messageType == "HIGHLIGHT_REMOVED" || messageType == "CONTENT_SCRIPT_READY" {
          CheckTabHighlights(senderTab.value, reply);
        }
      }
      keepOpen := false;
    }
  }

  /** Toggling a tab twice gives it back its original state. */
  lemma ToggleTwiceRestores(tabStatus: map<int, bool>, global: bool, tabId: int)
    ensures var once := tabStatus[tabId := !Effective(tabStatus, global, tabId)];
      var twice := once[tabId := !Effective(once, global, tabId)];
      Effective(twice, global, tabId) == Effective(tabStatus, global, tabId)
      && forall t :: t != tabId ==> Effective(twice, global, t) == Effective(tabStatus, global, t)
  {
  }

  const HIGHLIGHT_ENABLED_KEY: string := "highlightEnabled"

  /** initializeHighlightStorage: the settings object to write, or None to write
      nothing. */
  function InitialHighlightSettings(stored: Option<SettingsObject>): Option<SettingsObject> {
    match stored
    case None => Some(map[HIGHLIGHT_ENABLED_KEY := BoolValue(true)])
    case Some(s) =>
      if HIGHLIGHT_ENABLED_KEY !in s then Some(s[HIGHLIGHT_ENABLED_KEY := BoolValue(true)]) else None
  }

  /** Missing settings become `{highlightEnabled: true}`; settings without the key gain it
      and keep every other key; settings with it are left alone, so a second run writes
      nothing. */
  lemma InitialHighlightSettingsEffect(stored: Option<SettingsObject>)
    ensures stored.None? ==> InitialHighlightSettings(stored) == Some(map[HIGHLIGHT_ENABLED_KEY := BoolValue(true)])
    ensures stored.Some? && HIGHLIGHT_ENABLED_KEY in stored.value ==> InitialHighlightSettings(stored).None?
    ensures var w := InitialHighlightSettings(stored);
      w.Some? ==> HIGHLIGHT_ENABLED_KEY in w.value && InitialHighlightSettings(w).None?
    ensures var w := InitialHighlightSettings(stored);
      w.Some? && stored.Some? ==>
        forall k :: k in stored.value ==> k in w.value && w.value[k] == stored.value[k]
  {
  }
}
