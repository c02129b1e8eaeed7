# effikit core, modelled in Dafny

effikit is a browser extension with a side panel of developer tools. This project models
the logic inside it, leaving out the browser. The model covers four areas.

- **Request interceptor.**
  - The background worker records requests in per-tab buckets keyed by the normalised tab URL. It deduplicates on URL and method and keeps the newest first.
  - It filters out file requests, requests without a tab and requests from `chrome://` tabs.
  - It announces tab changes.
  - It compiles a mock response into a declarative redirect rule. The rule id is a 32-bit wrapping string hash, and the target is a `data:` URL carrying the base 64 of the body's UTF-8 octets.
  - It replaces the whole dynamic rule table on every upsert.
  - The side panel's request list upserts by id, keeps at most 100 entries and applies the intercept and mock flag rules.
- **Highlighter.**
  - A per-page store of highlights.
  - The highlight manager's tag operations, with exactly one active tag.
  - The colour helpers and URL normalisation.
  - The walk that turns text offsets into node positions.
  - The per-tab toggle and the icon decision table of the background worker.
  - The popover renderer's and the shadow-style manager's registries.
- **Side-panel catalogue.**
  - Tool list operations, search with name-first stable ordering and a bounded history.
  - Wrap-around keyboard selection and `/tool/<id>` routes.
  - Enable and disable toggles with rollback when saving fails.
  - The global per-feature configuration map, and default-filling of the side-panel settings.
- **Tools.**
  - The URL encoder (`encodeURIComponent` and `decodeURIComponent`, section 15.1.3 of ECMA-262 5.1).
  - The base 64 tool (RFC 4648 section 4 over RFC 3629 UTF-8).
  - The colour picker and the colour-variant helper (`#rrggbb` colours as in CSS Color Module Level 4 section 5.2).
  - The clipboard viewer's collection and display order.

Objects whose fields the source updates in place are classes with `modifies` clauses:
- the capture store, the dynamic rule table and the request list;
- the highlight storage, the highlight manager and the background worker;
- the renderer and the shadow-style manager;
- the hook states that keep cells: navigation, search, tool management and global configuration.

Their loops carry invariants against prefix-recursive specification functions.

Pure helpers are functions whose contracts, and the lemmas next to them, state what the source promises. Browser APIs become parameters: storage contents, read and write errors, the tab lookup and clipboard writes. Asynchronous steps run one after another.

Each module sits in its own file. `wrappers`, `seqs`, `text`, `utf8`, `base64`, `uri_codec` and `hex_color` are shared support modules: options and results, filtering and stable partition, ASCII case mapping and trimming, UTF-8 and UTF-16, `btoa`/`atob`, percent-encoding, and hexadecimal numbers.

## Model

| member | source | states |
|---|---|---|
| RequestCapture.HasFileExtensionIffPattern | features/sidebar/tools/RequestInterceptor/_background.ts:35-39 | the scan used for hasFileExtension holds exactly when the regular expression `\.[a-zA-Z0-9]+([?#].*)?$` matches somewhere in the URL |
| RequestCapture.Announcement | features/sidebar/tools/RequestInterceptor/_background.ts:28-62 | a request is only announced when its tab's URL is known |
| RequestCapture.AnnouncementConditions | features/sidebar/tools/RequestInterceptor/_background.ts:31-62 | a request is announced exactly when it has a tab (id not -1), no file extension, and a tab URL that is non-empty and does not contain `chrome://`; the announced entry carries the normalised URL, the method, the raw tab URL and the time |
| RequestCapture.RecordedEffect | features/sidebar/tools/RequestInterceptor/_background.ts:64-74 | recording touches only the bucket under the normalised tab URL: a new (URL, method) pair is put in front, a repeat leaves the bucket as it was (timestamp not refreshed) |
| RequestCapture.RecordedKeepsUnique | features/sidebar/tools/RequestInterceptor/_background.ts:67-74 | no bucket ever holds two entries with the same URL and method |
| RequestCapture.RecordedHasPair | features/sidebar/tools/RequestInterceptor/_background.ts:64-74 | after recording, the bucket holds an entry with the request's URL and method |
| RequestCapture.CaptureStore.constructor | features/sidebar/tools/RequestInterceptor/_background.ts:6-15 | the store starts from the persisted map when there is one, empty otherwise |
| RequestCapture.CaptureStore.OnBeforeRequest | features/sidebar/tools/RequestInterceptor/_background.ts:28-78 | returns the NEW_REQUEST_FOUND message (also for duplicates); a request that is not announced leaves the map alone, an announced one is recorded under the normalised tab URL |
| RequestCapture.CaptureStore.Store | features/sidebar/tools/RequestInterceptor/_background.ts:64-75 | the map after the update is the recorded map: bucket created if missing, request prepended unless its URL and method are there |
| RequestCapture.CaptureStore.CurrentRequests | features/sidebar/tools/RequestInterceptor/_background.ts:103-107 | GET_CURRENT_REQUESTS answers the bucket under the key, or an empty list when there is none |
| RequestCapture.CaptureStore.ClearRequests | features/sidebar/tools/RequestInterceptor/_background.ts:109-119 | CLEAR_REQUESTS succeeds exactly when the key is non-empty and present, and then deletes only that key; otherwise nothing changes |
| RequestCapture.TabChangedPayload | features/sidebar/tools/RequestInterceptor/_background.ts:125-134 | the TAB_CHANGED payload is the normalised tab URL and never contains `chrome://` |
| RequestCapture.OnUpdated | features/sidebar/tools/RequestInterceptor/_background.ts:139-151 | tabs.onUpdated reports only a URL change of the active tab |
| RequestCapture.TabChangedFindsRecorded | features/sidebar/tools/RequestInterceptor/_background.ts:48-73 | the key TAB_CHANGED reports for a tab is the key its requests were recorded under, so a GET_CURRENT_REQUESTS with it finds them |
| MockRules.Wrap32 | features/sidebar/tools/RequestInterceptor/_background.ts:159 | the 32-bit conversion in the hash loop gives the signed 32-bit integer congruent to the value modulo 2^32 |
| MockRules.HashStepIsTimes31 | features/sidebar/tools/RequestInterceptor/_background.ts:158-159 | one hash step `((hash << 5) - hash) + char` followed by the 32-bit conversion is `hash * 31 + char` wrapped to 32 bits |
| MockRules.RuleIdRange | features/sidebar/tools/RequestInterceptor/_background.ts:161 | every rule id `Math.abs(hash) + 1` lies between 1 and 2^31 + 1 |
| MockRules.StringToHash | features/sidebar/tools/RequestInterceptor/_background.ts:154-162 | the loop over the URL's UTF-16 code units returns the rule id of the URL, a positive integer of at most 2^31 + 1 |
| MockRules.EncodeBodyIsBase64OfUtf8 | features/sidebar/tools/RequestInterceptor/_background.ts:174 | `btoa(unescape(encodeURIComponent(body)))` is the base 64 encoding of the body's UTF-8 octets |
| MockRules.CreateRule | features/sidebar/tools/RequestInterceptor/_background.ts:164-193 | a rule is compiled exactly when the payload is enabled, and its id is in range |
| MockRules.CreateRuleServesMockData | features/sidebar/tools/RequestInterceptor/_background.ts:169-186 | the rule redirects to a `data:application/json;base64,` URL whose payload decodes (atob, then UTF-8) back to the mock data |
| MockRules.CreateRuleCondition | features/sidebar/tools/RequestInterceptor/_background.ts:177-191 | the rule's id is the hash of the URL, its priority is 1, and it matches the whole URL, anchored at both ends, for XMLHttpRequest resources only |
| MockRules.UpdateDynamicRules | features/sidebar/tools/RequestInterceptor/_background.ts:203-206 | the new table holds only rules kept from the old table (ids not removed) or added |
| MockRules.RemoveAllIds | features/sidebar/tools/RequestInterceptor/_background.ts:200-206 | removing every installed id leaves exactly the added rules |
| MockRules.DynamicRules.Upsert | features/sidebar/tools/RequestInterceptor/_background.ts:195-211 | when the browser accepts the update the table is exactly the compiled rule (or empty for a disabled payload); when it rejects it the table is unchanged |
| MockRules.UpsertTableIndependentOfPrevious | features/sidebar/tools/RequestInterceptor/_background.ts:195-206 | the table after an upsert depends only on the payload, not on the rules installed before |
| Urls.GetUriFromUrlOfParts | features/sidebar/tools/RequestInterceptor/_background.ts:18-25 | getUriFromUrl drops query and fragment, lower-cases scheme and host, and turns an empty path into "/" |
| Urls.NormalizeUrlIsGetUriFromUrl | highlighter/utils.ts:27-34 | normalizeUrl (protocol + "//" + host + pathname) always gives the same string as getUriFromUrl (origin + pathname) |
| Urls.ParsedHasNoQueryOrFragment | features/sidebar/tools/RequestInterceptor/_background.ts:18-21 | a URL that parses normalises to a string with no `?` or `#` |
| Urls.GetUriFromUrlIdempotent | features/sidebar/tools/RequestInterceptor/_background.ts:18-25 | normalising twice gives the same string as normalising once, also for strings that do not parse |
| RequestList.RequestId | sidebar/tools/RequestInterceptor/useRequestInterceptor.ts:27-29 | the generated id is the method, a colon, and the URL |
| RequestList.RequestIdInjective | sidebar/tools/RequestInterceptor/useRequestInterceptor.ts:27-29 | for methods without a colon, the generated id determines method and URL |
| RequestList.IdOf | sidebar/tools/RequestInterceptor/useRequestInterceptor.ts:33 | the supplied request id is used when it is present and non-empty, the generated id otherwise |
| RequestList.FindIndex | sidebar/tools/RequestInterceptor/useRequestInterceptor.ts:37 | findIndex: the first position holding the id, or -1 when no entry has it |
| RequestList.AddedExisting | sidebar/tools/RequestInterceptor/useRequestInterceptor.ts:39-52 | a repeated id refreshes that entry in place (new timestamp; new headers and body only where given) and leaves every other entry and the length unchanged |
| RequestList.AddedNew | sidebar/tools/RequestInterceptor/useRequestInterceptor.ts:55-70 | a new id is put in front, neither intercepted nor mocked, followed by the old list cut to 99 entries |
| RequestList.AddedBounded | sidebar/tools/RequestInterceptor/useRequestInterceptor.ts:69-70 | the list never grows past 100 entries |
| RequestList.AddedKeepsIdsUnique | sidebar/tools/RequestInterceptor/useRequestInterceptor.ts:32-71 | request ids stay unique |
| RequestList.MapWhere | sidebar/tools/RequestInterceptor/useRequestInterceptor.ts:76-89 | `prev.map` keeps length and order and changes only the entries with the id |
| RequestList.ToggledInterceptEffect | sidebar/tools/RequestInterceptor/useRequestInterceptor.ts:93-109 | switching interception off also clears the mock flag and data; switching it on changes only the flag; other entries are untouched |
| RequestList.WithMockDataEffect | sidebar/tools/RequestInterceptor/useRequestInterceptor.ts:123-135 | mock data is set and marked on the matching entries only |
| RequestList.WithHeadersEffect | sidebar/tools/RequestInterceptor/useRequestInterceptor.ts:75-90 | headers are replaced on the matching entries only, bodies kept |
| RequestList.FilteredRequestsSpec | sidebar/tools/RequestInterceptor/useRequestInterceptor.ts:14-24 | a blank term shows every entry; any other term shows, in list order, exactly the entries whose URL or method contains it, ignoring case, each as often as it occurs in the list |
| RequestList.RequestInterceptorState.constructor | sidebar/tools/RequestInterceptor/useRequestInterceptor.ts:6-7 | the list and the search term start empty |
| RequestList.RequestInterceptorState.AddRequest | sidebar/tools/RequestInterceptor/useRequestInterceptor.ts:32-72 | the list becomes the added list; the search term is kept |
| RequestList.RequestInterceptorState.UpdateRequestHeaders | sidebar/tools/RequestInterceptor/useRequestInterceptor.ts:75-90 | the list becomes the list with the headers replaced on the id |
| RequestList.RequestInterceptorState.ToggleIntercept | sidebar/tools/RequestInterceptor/useRequestInterceptor.ts:93-120 | the list becomes the toggled list |
| RequestList.RequestInterceptorState.UpdateMockData | sidebar/tools/RequestInterceptor/useRequestInterceptor.ts:123-151 | the list becomes the list with the mock data set on the id |
| RequestList.RequestInterceptorState.HandleSearch | sidebar/tools/RequestInterceptor/useRequestInterceptor.ts:154-156 | only the search term changes |
| RequestList.RequestInterceptorState.ClearAllRequests | sidebar/tools/RequestInterceptor/useRequestInterceptor.ts:171-173 | the list is emptied, the search term kept |
| HighlightModel.ColorKeywordInjective | highlighter/utils.ts:7-9 | different highlight colours have different keywords |
| HighlightModel.ColorClass | highlighter/utils.ts:7-9 | the class name is `effikit-highlight-` followed by the colour's keyword |
| HighlightModel.ColorClassInjective | highlighter/utils.ts:7-9 | the class name identifies the colour |
| HighlightModel.ColorsListEach | highlighter/utils.ts:11-13 | the colour list has six entries, yellow first and orange last, and lists every colour exactly once |
| HighlightModel.ColorNamesDistinct | highlighter/utils.ts:15-25 | every colour's display name is two characters ending in 色, and no two colours share a name |
| HighlightRange.FirstReaching | highlighter/utils.ts:54-70 | the first text node, from a given one on, whose end lies past (or at) the target offset, or none when no node reaches it |
| HighlightRange.LocatedOffsetsInNodes | highlighter/utils.ts:58-76 | for non-negative stored offsets, a located start lies inside its node, a located end inside or at the end of its node, and the start node does not come after the end node |
| HighlightRange.LocateFailsPastEnd | highlighter/utils.ts:54-78 | no range is found when the end offset lies past all the page's text |
| HighlightRange.CreateRangeFromHighlight | highlighter/utils.ts:36-83 | the single pass over the text nodes with a running offset finds exactly the range the first-reaching definition describes, or none |
| HighlightStore.FlattenContents | features/highlighter/storage.ts:34-35 | reading all highlights gives every highlight of every page bucket, as many as the buckets hold together |
| HighlightStore.FirstWithId | features/highlighter/manager.tsx:214 | `find` by id: a record with the id from the list, or none when no record has it |
| HighlightStore.AppendedKeepsStaleRecord | features/highlighter/storage.ts:7-18 | saving a changed copy of a stored highlight, as written, grows its bucket by one and a lookup by id still returns the earlier record (see Findings) |
| HighlightStore.Replaced | features/highlighter/storage.ts:12-16 | with no record of that id in the bucket the corrected save appends, exactly as the original does |
| HighlightStore.ReplacedSubset | features/highlighter/storage.ts:12-16 | the corrected save introduces no record but the saved one |
| HighlightStore.ReplacedFindsSaved | features/highlighter/storage.ts:7-18 | after the corrected save a lookup by id finds exactly the saved highlight, and it is the only record with that id in its bucket |
| HighlightStore.ReplacedKeepsOthers | features/highlighter/storage.ts:7-18 | the corrected save keeps every record with another id |
| HighlightStore.RemoveId | features/highlighter/storage.ts:57 | the filter keeps exactly the records without the id, each as often as it occurred |
| HighlightStore.RemoveKeepsOthers | features/highlighter/storage.ts:51-65 | removing a highlight keeps the other records of the page, in order, and drops every record with the id: the result is the filter of the bucket |
| HighlightStore.GetHighlightSettings | features/highlighter/storage.ts:88-102 | the stored settings when the read succeeds and finds them, enabled yellow highlighting otherwise |
| HighlightStore.HighlightStorage.constructor | features/highlighter/storage.ts:113-121 | the store starts without pages |
| HighlightStore.HighlightStorage.SaveHighlight | features/highlighter/storage.ts:7-18 | the highlight is appended to the bucket of its normalised URL, which is created if missing; keys stay in insertion order and every record stays under its own normalised URL |
| HighlightStore.HighlightStorage.SaveHighlightReplacing | features/highlighter/storage.ts:7-18 | the corrected save: the record with the same id is replaced (or the highlight appended), under the same invariant |
| HighlightStore.HighlightStorage.HighlightsAt | features/highlighter/storage.ts:29-32 | getHighlights for a page: the bucket of its normalised URL, or nothing |
| HighlightStore.HighlightStorage.RemoveHighlight | features/highlighter/storage.ts:51-70 | every record with the id leaves the page's bucket, the bucket is deleted once empty, and a page without a bucket is left alone |
| HighlightStore.HighlightStorage.ClearHighlights | features/highlighter/storage.ts:72-86 | with a URL only that page's bucket goes, without one the whole store is emptied |
| HighlighterManager.TagTitle | features/highlighter/manager.tsx:237 | a new tag's title is its type with the first letter upper-cased |
| HighlighterManager.TagTitles | features/highlighter/manager.tsx:237 | the titles are "Word", "Annotation" and "Sentence" |
| HighlighterManager.InitialTagContentFitsType | features/highlighter/manager.tsx:383-395 | a new tag's content has the tag's own kind and starts empty: an annotation has an empty note stamped now, a word no definitions |
| HighlighterManager.WithNewTag | features/highlighter/manager.tsx:245-246 | every existing tag is made inactive and the new tag is appended |
| HighlighterManager.WithNewTagOnlyActive | features/highlighter/manager.tsx:244-246 | after adding, the new tag is last and the only active tag |
| HighlighterManager.Activated | features/highlighter/manager.tsx:285-287 | a tag is active exactly when its id is the given one |
| HighlighterManager.ActivatedCount | features/highlighter/manager.tsx:285-287 | with distinct tag ids, activating a listed id leaves exactly one active tag, an unknown id none |
| HighlighterManager.FindTag | features/highlighter/manager.tsx:303-304 | findIndex on tag ids: the first position with the id, or -1 |
| HighlighterManager.DeletedTagFails | features/highlighter/manager.tsx:303-304 | deleting a tag fails exactly when no tag has the id |
| HighlighterManager.DeletedTagEffect | features/highlighter/manager.tsx:303-312 | deleting a listed tag removes exactly that tag, the others keep their order, and when the active tag goes the first remaining tag becomes active |
| HighlighterManager.DeletedTagKeepsOneActive | features/highlighter/manager.tsx:306-312 | with exactly one active tag before, deleting any tag leaves exactly one active tag as long as tags remain |
| HighlighterManager.ContentUpdatedEffect | features/highlighter/manager.tsx:264-268 | updating fails exactly for an unknown tag id; otherwise only that tag's content and update time change |
| HighlighterManager.AddTagToEffect | features/highlighter/manager.tsx:226-252 | on a found highlight with a tag list, adding gives one more tag, the new one last and the only active one, and marks the highlight modified now |
| HighlighterManager.DefaultTags | features/highlighter/manager.tsx:124-127 | every highlight the manager reads gets its stored tags, or an empty list when it has none |
| HighlighterManager.DefaultTagsComplete | features/highlighter/manager.tsx:120-132 | every highlight returned has a tag list, and a record that already had one is returned unchanged |
| HighlighterManager.NewHighlightGuards | features/highlighter/manager.tsx:46-95 | createHighlight succeeds exactly when highlighting is on, there is a selection with a range, its trimmed text is non-empty, a range can be stored and the page accepts the wrapper; the highlight then has the trimmed text, no tags, the page URL, and is created and modified now |
| HighlighterManager.HighlightManager.constructor | features/highlighter/manager.tsx:30-32 | the manager starts enabled with no current highlight |
| HighlighterManager.HighlightManager.SetEnabled | features/highlighter/manager.tsx:154-159 | the enabled flag takes the given value |
| HighlighterManager.HighlightManager.CreateHighlight | features/highlighter/manager.tsx:46-95 | the result is the highlight the guards allow; on success it is appended under its page, on failure the store is unchanged |
| HighlighterManager.HighlightManager.GetHighlightById | features/highlighter/manager.tsx:211-220 | the first record with the id on the current page, which becomes the current highlight when found |
| HighlighterManager.HighlightManager.SaveResult | features/highlighter/manager.tsx:249 | a failed tag operation leaves the store alone; a successful one is saved with the corrected save, in place of the stored record (the source appends, see Findings) |
| HighlighterManager.HighlightManager.AddTagToHighlight | features/highlighter/manager.tsx:226-257 | the result is the found highlight with the tag added, or none when the highlight is missing or has no tag list; a result is saved with the corrected, replacing save, and reading it back by id returns it |
| HighlighterManager.HighlightManager.UpdateTagContent | features/highlighter/manager.tsx:259-278 | the result is the found highlight with the tag's content replaced, or none when the highlight or the tag is missing; a result is saved and reads back |
| HighlighterManager.HighlightManager.SetActiveTag | features/highlighter/manager.tsx:280-296 | the result is the found highlight with only the given tag active (its modification time left as it was), or none when the highlight is missing; a result is saved and reads back |
| HighlighterManager.HighlightManager.DeleteTag | features/highlighter/manager.tsx:298-323 | the result is the found highlight without the tag, or none when the highlight or the tag is missing; a result is saved and reads back |
| HighlighterManager.ReadBackAfterReplacing | features/highlighter/manager.tsx:211-220 | once a tag operation's result is saved with the corrected save, looking the highlight up by id on its page returns that result |
| HighlightBackground.MenuTitleIff | features/highlighter/background.ts:62-73 | the toggle item offers to disable exactly when the tab's highlighting is on |
| HighlightBackground.ComputeActionIcon | features/highlighter/background.ts:119-166 | the badge shows a dot exactly when the page has highlights (orange when on, grey when off), and is empty and green otherwise; the title is the base title plus the suffix for the state |
| HighlightBackground.IconTitleDeterminesState | features/highlighter/background.ts:122-144 | the four titles differ, so the title alone tells whether highlighting is on and whether the page has highlights |
| HighlightBackground.HighlightWorker.constructor | features/highlighter/background.ts:5-6 | highlighting starts on globally, with no per-tab entries |
| HighlightBackground.HighlightWorker.UpdateActionIcon | features/highlighter/background.ts:119-166 | the tab's icon becomes the table's title, badge text and badge colour (green without highlights, orange when on and grey when off with highlights); every other tab's icon and all state stay |
| HighlightBackground.HighlightWorker.ToggleHighlightForTab | features/highlighter/background.ts:76-98 | the tab's entry becomes the negation of its state (own entry, else the global flag), other entries stay, and the tab's icon, and only it, becomes the table's icon for the new state without highlights |
| HighlightBackground.HighlightWorker.UpdateHighlightContextMenus | features/highlighter/background.ts:62-73 | the toggle item's title follows the tab's state |
| HighlightBackground.HighlightWorker.ClearHighlightsForTab | features/highlighter/background.ts:101-116 | the tab's icon, and only it, becomes the table's icon for the tab's state without highlights; no state changes |
| HighlightBackground.HighlightWorker.CheckTabHighlights | features/highlighter/background.ts:169-186 | a reply sets the tab's icon from it, a failed send sets it without highlights, and no reply leaves every icon; other tabs' icons and all state stay |
| HighlightBackground.HighlightWorker.HandleContextMenuClick | features/highlighter/background.ts:37-59 | handled exactly for the toggle, clear and open-manager items of a tab with an id; the toggle flips the tab's entry, sets its icon and retitles the item; clear sets the tab's icon without highlights; open-manager and anything unhandled change nothing; other tabs are untouched |
| HighlightBackground.HighlightWorker.HandleMessage | features/highlighter/background.ts:189-234 | the channel is never kept open; a created highlight sets the sender's icon to on with highlights; a removal or a ready script re-checks the sender's tab as checkTabHighlights does; other messages, or no sender tab, change nothing |
| HighlightBackground.ToggleTwiceRestores | features/highlighter/background.ts:76-83 | toggling a tab twice gives it back its state and leaves every other tab's state alone |
| HighlightBackground.InitialHighlightSettingsEffect | features/highlighter/background.ts:260-278 | missing settings become `{highlightEnabled: true}`; settings without the key gain it and keep every other key; settings with it are left alone, so a second run writes nothing |
| DomRendering.InstanceIdInjective | features/highlighter/ui/dom-renderer.ts:29 | ids are never reused: different counter values or types give different ids |
| DomRendering.DomRenderer.constructor | features/highlighter/ui/dom-renderer.ts:19-20 | the registry starts empty with the counter at 0 |
| DomRendering.DomRenderer.Unmount | features/highlighter/ui/dom-renderer.ts:61-68 | the instance and its shadow host go; an unknown id changes nothing |
| DomRendering.DomRenderer.UnmountAll | features/highlighter/ui/dom-renderer.ts:74-82 | exactly the instances of the type (all of them when no type is given) go, and the host registry loses exactly their ids; the other instances and hosts stay as they were |
| DomRendering.DomRenderer.Render | features/highlighter/ui/dom-renderer.ts:28-55 | the counter goes up by one and the earlier instances of the type are unmounted with their hosts, instances of other types stay; with constructable style sheets the returned id is the type and the counter's old value, the new instance is the only one of its type, and a new popover host is registered under the id; without them render throws and registers neither instance nor host |
| DomRendering.DomRenderer.IsVisible | features/highlighter/ui/dom-renderer.ts:89-96 | true exactly when an instance of the type exists |
| ShadowStyles.StyleText | features/highlighter/shadow-style-manager.ts:122-135 | a host's style text is the base sheet, a newline, then the highlight sheet or the popover sheet by host type |
| ShadowStyles.StyleTextDistinguishesTypes | features/highlighter/shadow-style-manager.ts:122-135 | when the two sheets differ, the two host types get different style text |
| ShadowStyles.ColorHexWellFormed | features/highlighter/shadow-style-manager.ts:489-497 | each colour's value is `#` and six lower-case hex digits, and no two colours share one |
| ShadowStyles.HighlightColorRuleInjective | features/highlighter/shadow-style-manager.ts:489-500 | different colours give different CSS rules |
| ShadowStyles.ShadowStyleManager.constructor | features/highlighter/shadow-style-manager.ts:14-44 | the registry starts empty, with the three sheets and whether constructable sheets exist |
| ShadowStyles.ShadowStyleManager.CreateShadowHost | features/highlighter/shadow-style-manager.ts:49-134 | with constructable style sheets the host registered under the id replaces any old one; its element id is `effikit-shadow-` + id, its inline style depends on the host type, and its sheet is the type's style text with no extra rules; without them building the sheet throws, so the old host is destroyed and nothing is registered |
| ShadowStyles.ShadowStyleManager.DestroyShadowHost | features/highlighter/shadow-style-manager.ts:94-100 | the id leaves the registry; an unknown id changes nothing |
| ShadowStyles.ShadowStyleManager.UpdateHighlightColor | features/highlighter/shadow-style-manager.ts:105-117 | a known host's sheet gains the colour's rule at index 0, in front of every earlier rule, when constructable sheets exist; otherwise nothing changes |
| ShadowStyles.ShadowStyleManager.GetActiveShadowHosts | features/highlighter/shadow-style-manager.ts:505-507 | a copy with the same ids and hosts as the registry |
| ShadowStyles.ShadowStyleManager.Cleanup | features/highlighter/shadow-style-manager.ts:512-517 | the registry ends empty |
| SidebarBackground.DefaultSettings | features/sidebar/background.ts:36-43 | the first-run object has exactly the four default keys with their default values |
| SidebarBackground.FillPrefixSpec | features/sidebar/background.ts:56-61 | after the loop has visited some defaults, the keys are the stored ones plus those defaults, stored values are kept, and each visited missing key has its default |
| SidebarBackground.InitializeSidebarStorage | features/sidebar/background.ts:32-70 | the loop writes exactly what the first-run rule says: the defaults when nothing is stored, the filled-in copy when a key is missing, nothing otherwise |
| SidebarBackground.InitialSidebarSettingsEffect | features/sidebar/background.ts:32-70 | with nothing stored the four defaults are written; stored values (false included) and other keys survive; every default key is present after a write; a write happens exactly when a default key is missing, so a second run writes nothing |
| SidebarBackground.HandleSidebarMessage | features/sidebar/background.ts:8-29 | the channel stays open exactly for the two storage actions; a read answers the whole storage; a write merges the data into storage, the new values winning, and answers success; any other action changes nothing and answers nothing |
| GlobalConfig.FeatureConfigOf | hooks/useGlobalConfig.ts:56-58 | a feature's stored object, or an empty one when it has none |
| GlobalConfig.GlobalConfigState.constructor | hooks/useGlobalConfig.ts:16-18 | the configuration starts empty and loading, with no error |
| GlobalConfig.GlobalConfigState.Load | hooks/useGlobalConfig.ts:21-35 | loading always ends; without storage the error says so; a read error is reported with its message (or the fallback when empty); otherwise the stored configuration, or an empty one, is taken |
| GlobalConfig.GlobalConfigState.OnStorageChanged | hooks/useGlobalConfig.ts:38-42 | only a change of the key in the synchronised area replaces the configuration, with an empty one when the new value is missing |
| GlobalConfig.GlobalConfigState.SetFeatureConfig | hooks/useGlobalConfig.ts:67-94 | succeeds exactly when storage exists and the write reports no error; then the feature's object is replaced wholesale and storage holds the new configuration; a failure reports its error and keeps the configuration |
| GlobalConfig.GlobalConfigState.ClearFeatureConfig | hooks/useGlobalConfig.ts:101-124 | succeeds exactly when storage exists and the write reports no error; then the feature's key is deleted and storage holds the result; a failure reports its error and keeps the configuration |
| GlobalConfig.SetThenGet | hooks/useGlobalConfig.ts:56-94 | after a set, the feature reads back exactly the object set (not a merge), and every other feature reads as before |
| GlobalConfig.ClearThenGet | hooks/useGlobalConfig.ts:56-124 | after a clear, the feature reads as an empty object and every other feature reads as before |
| ToolsData.ToolsOfSpec | sidebar/hooks/useToolsData.ts:14-19 | each tool's path is `/tool/` + the route's path, and each missing handle field takes its default ('Empty', '🤔', 'Empty') |
| ToolsData.ToolPathsDistinct | sidebar/hooks/useToolsData.ts:18 | distinct route paths give distinct tool paths |
| ToolsData.RegisteredRoutePathsDistinct | sidebar/routes.tsx:35-98 | the registered tool routes have pairwise distinct paths |
| HomeSearch.FilteredToolsSpec | sidebar/home.tsx:261-276 | a blank term lists every tool in order; any other term lists, in order, exactly the tools whose label contains it, ignoring case, each as often as it occurs; searching means a non-blank term |
| HomeSearch.NextIndexWraps | sidebar/home.tsx:300-331 | within the list, down and right step forward with wrap-around, up and left step back with wrap-around, every arrow key keeps the index in the list, and an empty list or any other key leaves it alone |
| HomeSearch.SelectedTool | sidebar/home.tsx:290-292 | the selected tool is the one at the index, or none when the index is out of range |
| HomeSearch.Navigation.constructor | sidebar/home.tsx:287 | the selection starts at 0 |
| HomeSearch.Navigation.OnFilteredToolsChanged | sidebar/home.tsx:295-297 | a new filtered list resets the selection to 0 |
| HomeSearch.Navigation.HandleKeyDown | sidebar/home.tsx:300-331 | the new index is the wrap-around step for the key |
| HomeSearch.Navigation.HandleSearchKeyDown | sidebar/home.tsx:69-81 | Enter with a selected tool opens its path when the path is non-empty and keeps the index; any other case moves the index and opens nothing |
| ToolNavigation.CurrentToolId | sidebar/hooks/useToolNavigation.ts:27-30 | an id is read exactly when the path is `/tool/` followed by one or more characters none of which ends a line, and the path is then `/tool/` + the id |
| ToolNavigation.ToolPathRoundTrip | sidebar/hooks/useToolNavigation.ts:12-30 | navigating to a tool and reading the id back gives the id, for every non-empty id without line breaks |
| ToolNavigation.RoutesConsistent | sidebar/hooks/useToolNavigation.ts:27-46 | a path with a tool id is a tool route, and the home route is never a tool route |
| ToolData.InitialToolsWellFormed | sidebar/hooks/useToolData.ts:6-43 | the built-in list has four tools with distinct ids, each routed at `/tool/` + its id |
| ToolData.AddTool | sidebar/hooks/useToolData.ts:50-52 | the tool is appended and the list before it is unchanged |
| ToolData.RemoveTool | sidebar/hooks/useToolData.ts:54-56 | every tool with the id goes and every other tool stays, in order and as often as it occurred |
| ToolData.UpdateTool | sidebar/hooks/useToolData.ts:58-62 | the tools with the id are merged with the update, every other tool and the order are unchanged |
| ToolData.UpdateToolKeepsIds | sidebar/hooks/useToolData.ts:58-62 | an update without an id keeps every id, and so keeps them distinct |
| ToolData.GetToolById | sidebar/hooks/useToolData.ts:64-66 | the first tool with the id, or none exactly when no tool has it |
| ToolData.GetEnabledTools | sidebar/hooks/useToolData.ts:68-70 | exactly the enabled tools, in order and as often as they occur |
| ToolSearch.FilteredToolsSpec | sidebar/hooks/useToolSearch.ts:9-29 | a blank term gives the list unchanged; any other term gives a permutation of the tools matching in name, description or category, with every name match before every other match and each group in list order (a stable sort under the two-valued comparator) |
| ToolSearch.NextHistoryBounded | sidebar/hooks/useToolSearch.ts:31-36 | a new non-blank term goes to the front; the history never grows past five entries and stays free of duplicates; a blank or known term leaves it unchanged |
| ToolSearch.SearchState.constructor | sidebar/hooks/useToolSearch.ts:5-6 | term and history start empty |
| ToolSearch.SearchState.HandleSearch | sidebar/hooks/useToolSearch.ts:31-36 | the term is always set and the history updated as the history rule says, keeping it bounded and duplicate-free |
| ToolSearch.SearchState.ClearSearch | sidebar/hooks/useToolSearch.ts:38-40 | the term is emptied and the history kept |
| ToolSearch.SearchState.SelectSearchHistory | sidebar/hooks/useToolSearch.ts:42-44 | the term is set and the history kept |
| ToolManagement.SettingsForSpec | sidebar/hooks/useToolManagement.ts:36-39 | with distinct ids, the start-up map has exactly the tool ids as keys, each mapped to its saved value when there is one and to the tool's own flag otherwise |
| ToolManagement.WithFlags | sidebar/hooks/useToolManagement.ts:44-49 | each tool's flag becomes its map entry where it has one; length, order and everything else are unchanged |
| ToolManagement.EnabledToolsOf | sidebar/hooks/useToolManagement.ts:177-179 | getEnabledTools lists, in order and as often as they occur, exactly the tools whose map entry is on |
| ToolManagement.SetFlag | sidebar/hooks/useToolManagement.ts:82 | `updateTool(id, {enabled})` sets the flag of exactly the tools with the id |
| ToolManagement.SetAllSpec | sidebar/hooks/useToolManagement.ts:101-110 | the new map has the old keys and the listed ids; every listed id maps to the requested state, every other key keeps its value |
| ToolManagement.PriorStatesSpec | sidebar/hooks/useToolManagement.ts:102-107 | the remembered states have exactly the listed ids, each mapped to its previous entry (off when it had none) |
| ToolManagement.SetFlagsSpec | sidebar/hooks/useToolManagement.ts:106-119 | after the per-id updates each tool with a listed id has that id's flag, every other tool is unchanged |
| ToolManagement.SetFlagsKeepsIds | sidebar/hooks/useToolManagement.ts:106-119 | flag updates keep every id, and so keep them distinct |
| ToolManagement.ToolManager.constructor | sidebar/hooks/useToolManagement.ts:6-24 | the hook starts with the built-in tools, an empty map, not initialised and not loading |
| ToolManagement.ToolManager.Initialize | sidebar/hooks/useToolManagement.ts:27-71 | start-up always ends initialised and not loading; the map gives each tool its saved value or its own flag (its own flag when loading failed, with the load error set); after a successful load the tools' flags follow the map |
| ToolManagement.ToolManager.SyncTools | sidebar/hooks/useToolManagement.ts:44-49 | the tools' flags follow the map; nothing else changes |
| ToolManagement.ToolManager.ToggleTool | sidebar/hooks/useToolManagement.ts:74-97 | on a successful save the id's entry and its tools become the negation of the old entry (a missing entry counts as off) and storage holds the new map; on failure the entry and the tools are set back to the old state, which writes an off entry for an id that had none, storage is unchanged and the save error is reported |
| ToolManagement.ToolManager.ToggleMultipleTools | sidebar/hooks/useToolManagement.ts:100-126 | on a successful save every listed id is set in the map and on its tools and storage holds the new map; on failure the map is restored, each listed tool gets its id's previous entry (off when it had none), and the save error is reported |
| ToolManagement.ToolManager.SetListedFlags | sidebar/hooks/useToolManagement.ts:106-110 | the loop returns the new map and the previous states, and sets each listed tool to the requested state |
| ToolManagement.ToolManager.ListedFlags | sidebar/hooks/useToolManagement.ts:106-110 | the values the loop computes: every listed id switched to the requested state in the new map, each listed id's previous state recorded, and the listed tools' flags set |
| ToolManagement.ToolManager.RestoreListedFlags | sidebar/hooks/useToolManagement.ts:117-119 | the rollback loop sets each listed tool to its id's remembered state |
| ToolManagement.ToolManager.ResetToolSettings | sidebar/hooks/useToolManagement.ts:129-145 | every tool id maps to the tool's own flag and the tools are unchanged; the map is stored on success, and on failure storage is unchanged and the reset error is reported |
| ToolManagement.SetFlagSelf | sidebar/hooks/useToolManagement.ts:134 | with distinct ids, setting a tool's flag to its own value changes nothing |
| ToolManagement.SetFlagKeepsIds | sidebar/hooks/useToolManagement.ts:82 | a flag change keeps every id, and so keeps them distinct |
| ToolManagement.SetFlagTwice | sidebar/hooks/useToolManagement.ts:82-91 | of two flag changes on the same id the second wins |
| ToolManagement.RollbackFlags | sidebar/hooks/useToolManagement.ts:106-119 | rolling the listed flags back after setting them equals setting them straight to their previous entries |
| ToolManagement.ToggleToolEffect | sidebar/hooks/useToolManagement.ts:74-97 | a toggle changes exactly the tools with the id; its rollback restores the tools exactly when they agreed with an existing entry, and leaves them off when the id had no entry |
| ToolManagement.ToggleMultipleEffect | sidebar/hooks/useToolManagement.ts:100-113 | every listed id is on or off as asked, in the map and on its tools, and everything unlisted is unchanged |
| ToolManagement.ToggleMultipleRollback | sidebar/hooks/useToolManagement.ts:115-120 | after a failed save each listed tool holds its id's previous entry, and the tools are back as they were when they agreed with a map that had every listed id |
| ToolManagement.ResetMapsToDefaults | sidebar/hooks/useToolManagement.ts:129-145 | after a reset every tool id maps to the tool's own flag, and the enabled tools are exactly those whose own flag is on |
| UrlEncoder.EncodeUrl | sidebar/tools/URLEncoder/useURLEncoder.ts:33-46 | encoding never fails, and decoding its output gives the text back |
| UrlEncoder.DecodeUrl | sidebar/tools/URLEncoder/useURLEncoder.ts:49-62 | decoding fails exactly when `decodeURIComponent` throws, and then the input is shown unchanged; otherwise the result is the decoded text |
| UrlEncoder.ConversionResult | sidebar/tools/URLEncoder/useURLEncoder.ts:65-75 | a blank input shows an empty, error-free result; any other input is encoded or decoded by the mode |
| UrlEncoder.DetectInputType | sidebar/tools/URLEncoder/useURLEncoder.ts:78-89 | no type exactly for a blank input; 'encoded' exactly when a non-blank input holds `%` and two hex digits, 'plain' exactly otherwise |
| UrlEncoder.SuggestedModeSpec | sidebar/tools/URLEncoder/useURLEncoder.ts:141-151 | decoding is suggested exactly for encoded input in encode mode, encoding exactly for plain input in decode mode; a suggestion is always the other mode, and following it leaves no further suggestion |
| UrlEncoder.EncodedOutputLooksEncoded | sidebar/tools/URLEncoder/useURLEncoder.ts:78-89 | the encoding of a text with any character `encodeURIComponent` escapes is detected as encoded |
| UrlEncoder.EncodedNotBlank | sidebar/tools/URLEncoder/useURLEncoder.ts:36 | the encoding of a non-blank text is non-blank |
| UrlEncoder.EncodeThenDecode | sidebar/tools/URLEncoder/useURLEncoder.ts:33-75 | feeding the encoded result of a non-blank input back in decode mode shows the input again, without error |
| UrlEncoder.ToggleAndClearEffect | sidebar/tools/URLEncoder/useURLEncoder.ts:92-117 | toggling keeps the input, changes the mode and clears the copied mark, and toggling twice restores the mode; clearing keeps the mode and leaves an empty result, no input type and no suggestion |
| UrlEncoder.CopyResult | sidebar/tools/URLEncoder/useURLEncoder.ts:99-111 | text reaches the clipboard exactly when the result is non-empty and not an error, and it is the result; the copied mark is set only when the write succeeds |
| UrlEncoder.CopyResultCases | sidebar/tools/URLEncoder/useURLEncoder.ts:65-111 | nothing is copied for a blank input or a failed decode; a non-blank text in encode mode always copies its encoding |
| ConversionMode.Toggled | sidebar/tools/URLEncoder/useURLEncoder.ts:93 | the toggled mode is the other one |
| ConversionMode.ToggledTwice | sidebar/tools/Base64Encoder/index.tsx:80-82 | toggling twice gives the mode back |
| Base64Tool.EncodeText | sidebar/tools/Base64Encoder/index.tsx:32 | the encoding is the base 64 of the text's UTF-8 octets |
| Base64Tool.DecodeText | sidebar/tools/Base64Encoder/index.tsx:41 | `atob` rejecting the input is exactly the invalid-character failure; a success is a text whose UTF-8 octets are the decoded bytes; the malformed-URI failure happens only when no text has those octets |
| Base64Tool.Convert | sidebar/tools/Base64Encoder/index.tsx:27-59 | no result exactly for a blank input; encoding reports the data and both sides' UTF-8 sizes; decoding reports the text and sizes, or an invalid result with empty data, zero sizes and the error |
| Base64Tool.EncodedShape | sidebar/tools/Base64Encoder/index.tsx:32-37 | an encoding of n octets has 4 times n/3 rounded up characters, all from the base 64 alphabet except at most two trailing `=` |
| Base64Tool.DecodeOfEncode | sidebar/tools/Base64Encoder/index.tsx:27-59 | decoding the encoding of a non-blank text gives back the text, valid, with the two sizes swapped |
| Base64Tool.ToggleMode | sidebar/tools/Base64Encoder/index.tsx:80-82 | only the mode changes, to the other one |
| Base64Tool.ToggleModeTwice | sidebar/tools/Base64Encoder/index.tsx:80-82 | toggling twice restores the state |
| Base64Tool.ClearInput | sidebar/tools/Base64Encoder/index.tsx:75-77 | mode and copied mark are kept, and there is no result afterwards |
| Base64Tool.CopyResult | sidebar/tools/Base64Encoder/index.tsx:62-72 | text reaches the clipboard exactly when there is a result with non-empty data, and it is that data; the copied mark is set only when the write succeeds |
| Base64Tool.CopyResultCases | sidebar/tools/Base64Encoder/index.tsx:27-72 | nothing is copied for a blank input or a failed decode; a non-blank text in encode mode always copies its encoding |
| Base64Tool.SecondField | sidebar/tools/Base64Encoder/index.tsx:94 | `split(',')[1]` is undefined exactly when there is no comma |
| Base64Tool.UploadedInput | sidebar/tools/Base64Encoder/index.tsx:85-104 | an image sets the file name in encode mode and its data URL's second comma field in decode mode; any other file sets its text; no input only for an image in decode mode without a comma |
| Base64Tool.ImagePayloadOfDataUrl | sidebar/tools/Base64Encoder/index.tsx:92-98 | for a data URL whose header has no comma, the field taken is the payload up to its first comma, and the whole payload when it is base 64 text |
| ColorPicker.HexToRgb | sidebar/tools/ColorPicker/index.tsx:29-36 | channels are below 256, and an input that is not six hex digits (with an optional `#`) gives black |
| ColorPicker.HexToRgbOfChannels | sidebar/tools/ColorPicker/index.tsx:29-36 | writing three channels as two hex digits each and parsing them back, with or without `#`, gives the channels |
| ColorPicker.DisplayedHexSameColor | sidebar/tools/ColorPicker/index.tsx:86-91 | the upper-cased hex shown parses exactly when the colour does, and to the same channels |
| ColorPicker.PaletteSpec | sidebar/tools/ColorPicker/index.tsx:99-109 | seven shades of the base hue and saturation with the base in the middle, three capped lighter and three floored darker; lightness stays in 0 to 100 for a valid base and strictly falls across the palette when the base lightness is 40 to 60 |
| ColorPicker.HandleInputChange | sidebar/tools/ColorPicker/index.tsx:145-152 | the input always takes the value; the colour takes it exactly when it is `#` and six hex digits |
| ColorPicker.ClearInput | sidebar/tools/ColorPicker/index.tsx:155-157 | the input is emptied; the colour and copied mark are kept |
| ColorPicker.GenerateRandomColor | sidebar/tools/ColorPicker/index.tsx:138-142 | colour and input both become the random hex colour |
| ColorPicker.ValidPreserved | sidebar/tools/ColorPicker/index.tsx:23-157 | the colour is always a `#rrggbb` value: initially and after every change; for such a colour the displayed channels are its digit pairs |
| ColorPicker.CopyToClipboard | sidebar/tools/ColorPicker/index.tsx:127-135 | the copied mark names the format only when the write succeeds; nothing else changes |
| SidebarUtils.RandomHexColorSpec | sidebar/utils.ts:2-4 | the random colour is `#` and six lower-case hex digits whose value is the random number, so never white |
| SidebarUtils.ParsePair | sidebar/utils.ts:9-11 | `parseInt` of a two-hex-digit slice is the pair's value |
| SidebarUtils.Lighten | sidebar/utils.ts:14-15 | a channel that failed to parse stays NaN |
| SidebarUtils.LightenBounds | sidebar/utils.ts:14-15 | a lighter channel is at least the channel, at most 255, exactly the sum when that fits, and the very light one is at least the light one |
| SidebarUtils.ColorVariantsOfHexColor | sidebar/utils.ts:7-24 | for a `#rrggbb` colour the channels are its digit pairs, the border is the colour itself, and the background is the gradient from the very light to the light colour |
| SidebarUtils.VariantsOfRandomColor | sidebar/utils.ts:2-24 | the variants of a random colour use the random number's three bytes as channels |
| HexColor.HexString | sidebar/utils.ts:3 | `toString(16)` is lower-case hex without leading zeros whose value is the number |
| HexColor.PadStartValue | sidebar/utils.ts:3 | padding with leading zeros keeps the value |
| HexColor.ColorChannels | sidebar/utils.ts:9-11 | the digit pairs of a `#rrggbb` colour are the three bytes of its six-digit value |
| Clipboard.FileEntriesSpec | features/sidebar/tools/ClipboardViewer/useClipboardViewer.ts:31-40 | every file item that yields a file contributes its description, and every file entry comes from such an item |
| Clipboard.StringEntriesSpec | features/sidebar/tools/ClipboardViewer/useClipboardViewer.ts:25-30 | every string item contributes its text, and every string entry comes from such an item |
| Clipboard.CollectedSpec | features/sidebar/tools/ClipboardViewer/useClipboardViewer.ts:22-45 | the collection holds exactly the contributions of string and file items; other items contribute nothing |
| Clipboard.SortedForDisplaySpec | features/sidebar/tools/ClipboardViewer/useClipboardViewer.ts:50-58 | the sorted list is a permutation of the collection with no plain-text entry before another type, each group keeping its collection order |
| Clipboard.ClipboardViewer.constructor | features/sidebar/tools/ClipboardViewer/useClipboardViewer.ts:11-12 | no items and no error at first |
| Clipboard.ClipboardViewer.HandlePaste | features/sidebar/tools/ClipboardViewer/useClipboardViewer.ts:14-65 | the error is cleared and the items are the collected entries sorted for display |
| Base64.AtobBtoa | features/sidebar/tools/RequestInterceptor/_background.ts:174 | `btoa` accepts every binary string, and `atob` gives it back |
| UriCodec.DecodeEncode | sidebar/tools/URLEncoder/useURLEncoder.ts:36-52 | `decodeURIComponent` undoes `encodeURIComponent` on every text |

## Left out

**Browser and runtime**
- Browser APIs are not called; their results are parameters. This covers `chrome.storage`, `webRequest`, `tabs`, `runtime` messaging, `declarativeNetRequest`, `contextMenus`, `action`, `sidePanel` and `navigator.clipboard`. Asynchronous callbacks run one after another, so the order of interleaved callbacks is not modelled.
- Timers are not modelled: the two-second reset of every copied mark, the delayed checks in the highlighter's tab-update and tab-activate handlers, and the search debounce (hooks/useDebounce.ts).
- `Math.random` and `Date.now` become parameters. The random colour is drawn from an integer below 16777215, and ids and timestamps are passed in.
- DOM, React and CSS work is not modelled:
  - the content scripts, `features/highlighter/dom.ts` and the JSX views;
  - mounting of popovers, and the legacy style injection of the shadow-style manager;
  - the CSS text of the style sheets, which stays a parameter.
- The fetch and XHR patching in the page is not modelled.
- The two initialisers write the same settings key concurrently. That race is not modelled.
- Chrome's URL parser is not part of this model. URL normalisation handles only URLs of the form `scheme://host[/path][?query][#fragment]` where:
  - the scheme is `http` or `https`, in any letter case (it is lower-cased);
  - the host is a plain domain: dot-separated non-empty labels of ASCII letters, digits and `-`, the last label starting with a letter, and no `xn--` label (it is lower-cased);
  - the path is empty or starts with `/`, holds printable ASCII other than space, `"`, `<`, `>`, `` ` ``, `{`, `}`, `\` and `%`, and has no segment starting with `.` (an empty path becomes `/`).
  On these URLs the result is origin plus path, with query and fragment dropped.
- Every other string comes back unchanged, as if parsing had thrown. This includes URLs the real parser accepts and would normalise: a host with a port (`http://localhost:3000/api?x=1` keeps its query), credentials, an IPv4 or IPv6 host, an internationalised or `xn--` host, a path with `%` escapes or `.` segments, and any other scheme such as `chrome:`, `file:` or `ftp:`.

**Text and numbers**
- Strings are sequences of Unicode scalar values, so a lone surrogate cannot occur.
  - UrlEncoder.EncodeUrl: never reports an error, because `encodeURIComponent` throws only on a lone surrogate.
- Case mapping covers ASCII letters only. This affects `toLowerCase` and `toUpperCase` in searches, filters and the displayed hex.
- Error message texts of thrown exceptions are not modelled. Base64Tool.DecodeText reports the kind of exception (invalid character or malformed URI) instead of the browser's message.
- The colour picker's floating-point conversions are not modelled: rgbToHsl, rgbToCmyk and hslToHex. The palette is kept as HSL values, and the colour's HSL is a parameter.
- The base 64 growth percentage and the JSON viewer are not modelled.
- Blob sizes are modelled as UTF-8 octet counts.
- Settings.SettingValue: a stored number is an integer, so fractional and non-finite JavaScript numbers are not represented; the settings code only stores and copies these values and never computes with them.

**Request interceptor**
- The interceptor dialog's open and close handlers are not modelled.
- The hook's message listener and its GET_CURRENT_REQUESTS effect are not modelled, and neither are outgoing notifications. The two sides use different message names, so each side is modelled on its own.
- The example lists of the URL encoder are constant data and are not modelled.

**Tools and side panel**
- The base 64 tool's `downloadResult` is not modelled; it is DOM and Blob URL work.
- Base64Tool.UploadedInput: a data URL without a comma gives no input, where the source would set `undefined`.
- `setActiveToolId` and `getActiveToolId` are not modelled; they only pass values to storage.
- sidebar/hooks/useToolStorage.ts is not part of this model.
- The module `sidebar/types` is not part of this model. The catalogue tool follows lib/types.ts. The home page's tool (label, icon, description, path) is declared in `ToolsData`, with `label` renamed `labelText` because `label` is a Dafny keyword.
- ToolManagement.ToolManager.ToggleMultipleTools: the rollback of the tool list sets each listed tool to its id's previous entry, and treats a missing entry as off, as the source does.
- ToolManagement.ToolManager.ToggleTool: on failure it writes the old state back, which creates an off entry for an id that had none, as the source does.
- The clipboard viewer collects file entries before string entries. String data arrives in later callbacks, and this order is the model's reading of that. A paste never reports an error, because none of the collection promises rejects.

**Highlighter**
- The highlighter background's creation of context menus is not modelled.
- The highlight manager's DOM operations are not modelled:
  - `removeHighlight` and `clearHighlights` beyond their storage effect;
  - `renderExistingHighlights`, `hasHighlights`, `getSelectedText` and `hasSelection`;
  - `showContentPopover` and `refreshPopoverWithHighlight`.
- `saveHighlightSettings` and `getHighlightsByUrl` are not modelled. A failed read of highlights, which yields an empty list in the source, is not modelled either.
- HighlighterManager.HighlightManager.SaveResult: saves with the corrected, replacing save (HighlightStore.HighlightStorage.SaveHighlightReplacing), where manager.tsx:249, 271, 289 and 315 call `saveHighlight`, which appends a second record (see Findings; the appending save is modelled by HighlightStore.HighlightStorage.SaveHighlight).
- HighlighterManager.HighlightManager.AddTagToHighlight: its store effect is the corrected, replacing save, not the source's append; with the append a second call would read the stale first record.
- HighlighterManager.HighlightManager.UpdateTagContent: its store effect is the corrected, replacing save, not the source's append.
- HighlighterManager.HighlightManager.SetActiveTag: its store effect is the corrected, replacing save, not the source's append.
- HighlighterManager.HighlightManager.DeleteTag: its store effect is the corrected, replacing save, not the source's append.
- HighlightRange.CreateRangeFromHighlight: with a negative stored offset the walk still locates a node with a negative local offset, where the source's `range.setStart` or `range.setEnd` would throw and the call return null. Stored offsets come from a DOM range's offsets, which are never negative.
- highlighter/manager.ts is an older copy of the highlight manager without tags and is not part of this model.

**Behaviour kept as the code has it**
- A repeated request keeps its old timestamp, because the bucket is left as it was (features/sidebar/tools/RequestInterceptor/_background.ts:64-74).
- NEW_REQUEST_FOUND is sent for every request that passes the filter, duplicates included (features/sidebar/tools/RequestInterceptor/_background.ts:58-62).
- The popover host's style text is the base sheet, a newline, then the popover sheet (features/highlighter/shadow-style-manager.ts:125-133).
- Rule ids come only from the hash, with no collision check, so two URLs can get the same id (features/sidebar/tools/RequestInterceptor/_background.ts:154-162).

## Findings

| source | as written | input that shows it | evidently intended | confidence | as-written member | corrected member |
|---|---|---|---|---|---|---|
| features/highlighter/storage.ts:7-18 with features/highlighter/manager.tsx:211-248 | the tag operations save the changed highlight with `saveHighlight`, which appends a second record with the same id; `getHighlightById` returns the first record with that id | call `addTagToHighlight(id, 'word')` twice on a stored highlight that has no tags: the second call reads the original record, so it sees no tags, and the bucket ends with three records under one id | saving a highlight that is already stored replaces the stored record, so the next lookup by id returns the latest version | not executed | HighlightStore.HighlightStorage.SaveHighlight, HighlightStore.AppendedKeepsStaleRecord | HighlightStore.HighlightStorage.SaveHighlightReplacing, HighlightStore.ReplacedFindsSaved, HighlighterManager.ReadBackAfterReplacing |
