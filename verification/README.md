# Kapsul: a Dafny model of the decision logic

Kapsul is a client-rendered React app for saving videos, playlists, links
and notes. Under its views sits a layer of sequential decision logic. This
project models that layer as pure functions over immutable records and
proves what the code promises about it:

- the item query engine of the Library and Dashboard pages: platform
  keywords, field search, type pills, pinned-first sorting, and the
  active/completed split;
- the command palette: `>` command mode, multi-term matching, result caps,
  recent history, and grid keyboard navigation;
- the capture modal: tab detection from the address, the tag list,
  validation, record building, and the metadata merge;
- the note focus view: the dirty check, saves, save-on-close, and its tag
  list;
- the selection state machines of the Library, the Dashboard and the
  global UI store;
- the converters behind the cards: ISO 8601 durations (time components
  of the "format with designators" in section 4.4.3.2 of ISO 8601:2004),
  relative times, video and playlist ids, mock durations and counts,
  and the link gradient hash;
- the guards of the auth form, the settings page, the router and the
  theme provider;
- the item operations of the document store, over an abstract in-memory
  collection.

Strings are `seq<char>`, where a `char` is a Unicode scalar value.
JavaScript measures, slices and codes strings by UTF-16 code units; the
two agree on text inside the Basic Multilingual Plane. "## Left out" names
each member whose result depends on the difference (a length test, a cut
or a character code); patterns that only skip or accept characters give
the same answer either way. An
optional field of a stored document is an `Option`. JavaScript's "falsy"
for a string is `None` or `Some("")` (`Options.Truthy`).

Whatever the logic cannot see is a parameter:

- the DOM's HTML-to-text stripping (`strip`);
- `new URL(...).hostname` (`hostname`, which is `None` where the
  constructor throws);
- `localeCompare`, required to be a consistent collation;
- the clock and `toLocaleDateString` / `toISOString` output;
- the window width;
- whether a store write, a `Promise.all`, or an auth call succeeded;
- the API key and the fetched response;
- timer firings, which are explicit events.

`Array.prototype.sort` is stable. It is modelled as a stable insertion sort
by the comparator's order (`Seqs.StableSort`), which is the only stable
sorted permutation.

## Model

| member | source | states |
|---|---|---|
| Items.TypeNameInjective | src/pages/Library.jsx:94-125 | The four item kinds have four distinct JavaScript spellings, so comparing `item.type` strings is comparing kinds. |
| Items.Preview | src/components/modals/SmartCaptureModal.jsx:223 | The note preview is the text itself up to 120 characters; a longer text gives its first 120 characters plus `...`; the preview is never longer than 123. |
| Items.PreviewIdempotent | src/components/modals/FocusMode.jsx:293 | Recomputing the preview rule on a stored preview gives the same preview back. |
| Query.ItemOrderIsTotalPreorder | src/pages/Library.jsx:129-140 | For every sort order, the comparator's "no swap" relation is total and transitive, given a consistent `localeCompare`. |
| Query.SortItems | src/pages/Library.jsx:129-140 | The sort is a permutation: the same items with the same multiplicities. |
| Query.SortItemsOrdered | src/pages/Library.jsx:131-139 | After sorting, no unpinned item precedes a pinned one. Within equal pin status, 'newest' is by descending date, 'oldest' by ascending date, and 'a-z' by `localeCompare` of the titles, with '' for a missing title. |
| Query.UnrecognisedOrderIsPinRule | src/pages/Library.jsx:131-139 | Under any other order string, only the pin rule ever asks for a swap. |
| Query.UnrecognisedOrderSplitsByPin | src/pages/Library.jsx:129-140 | Under an unrecognised order, the result is the pinned items, then the unpinned ones, each in input order. |
| Query.PlatformTypes | src/pages/Library.jsx:78-88 | The keyword table has exactly the nine keys listed. |
| Query.LibraryKeywordQuery | src/pages/Library.jsx:74-94 | A query whose lowered, trimmed form is a keyword yields exactly the items whose kind is in the mapped set, taken from all items; the type pill is ignored. (See also line 124.) |
| Query.LibraryTextQuery | src/pages/Library.jsx:97-124 | Any other non-empty query keeps an item iff some non-empty field, lowered, contains the whole lowered, trimmed query as one substring. The pill is ignored. |
| Query.LibraryBlankQuery | src/pages/Library.jsx:74-75 | A query of white space only keeps every item that has a non-empty searchable field, and still ignores the pill. (See also lines 116-118, 124.) |
| Query.LibraryEmptyQuery | src/pages/Library.jsx:124-126 | With an empty search box, the pill keeps exactly its kind, and 'all' keeps every item. |
| Query.TypeFilteredMembership | src/pages/Library.jsx:124-126 | The type pill keeps exactly the items of its kind, or every item for 'all'. |
| Query.PlatformLookupAsWritten | src/pages/Library.jsx:78-92 | On the object literal as written, a lookup finds an inherited, truthy member exactly for "constructor" and "__proto__". |
| Query.AsWrittenAgreesOffInheritedNames | src/pages/Library.jsx:70-143 | The code as written and the corrected lookup give the same list for every query except those two names. |
| Query.ConstructorQueryThrows | src/pages/Library.jsx:91-94 | Searching "constructor" with any item loaded throws while filtering, instead of listing items. |
| Query.ActiveCompletedPartition | src/pages/Dashboard.jsx:91-92 | Every item is in exactly one of the active and completed lists, according to `isCompleted`, and the two sizes add up to the whole. |
| Query.DashboardItemsMembership | src/pages/Dashboard.jsx:94-112 | The Dashboard list holds exactly the items of the partition chosen by the view mode, narrowed to the pill's kind unless it is 'all'. |
| Query.TypeCounts | src/pages/Dashboard.jsx:183-190 | The 'all' count is the size of the chosen partition (active or completed). Each type's count is the number of that partition's items of that type. The four type counts add up to exactly the 'all' count. |
| Query.PillCountIsShownCount | src/pages/Dashboard.jsx:183-190 | The count on a type's pill equals the length of the list the Dashboard shows when that pill is chosen, and the 'All' count the length of the unfiltered list, under every sort order. (See also lines 94-111.) |
| Query.CountsSplit | src/pages/Dashboard.jsx:186-189 | The four per-kind filters of any list together have as many items as the list. |
| Query.PinnedOvertakesUnpinned | src/pages/Dashboard.jsx:101-102 | In the active view, a pinned item moves ahead of an unpinned one listed before it, whatever the order. |
| Query.SortTwoPinned | src/pages/Library.jsx:131 | Sorting an unpinned item followed by a pinned one swaps them under every order. |
| Selection.LibraryToggle | src/pages/Library.jsx:146-154 | Toggling flips the membership of that id and leaves every other id as it was. |
| Selection.LibraryToggleTwice | src/pages/Library.jsx:146-154 | Toggling the same id twice restores the set. |
| Selection.LibraryClear | src/pages/Library.jsx:156 | Clearing empties the set. |
| Selection.LibrarySelectAll | src/pages/Library.jsx:158-164 | When the set is as large as the visible list, the set is emptied. Otherwise it becomes exactly the visible ids. |
| Selection.LibrarySelectAllTwice | src/pages/Library.jsx:158-164 | With distinct visible ids, pressing select-all twice from a partial selection ends empty. |
| Selection.LibraryBulkMarkComplete | src/pages/Library.jsx:179-187 | One `isCompleted := status` write is issued per selected id and no other write. The selection clears only when every write succeeds. |
| Selection.LibraryBulkDelete | src/pages/Library.jsx:167-177 | Without confirmation nothing is written. Otherwise one delete is issued per selected id, and the selection clears only on full success. |
| Selection.DashboardToggle | src/pages/Dashboard.jsx:116-119 | Bulk mode is on afterwards. The id's membership flips, other ids are unchanged, and a duplicate-free list stays duplicate-free. |
| Selection.ToggleKeepsNoDup | src/pages/Dashboard.jsx:118 | Both branches of the toggle keep a duplicate-free list duplicate-free. |
| Selection.DashboardToggleTwice | src/pages/Dashboard.jsx:116-119 | Toggling twice restores the membership. When the id was absent, it restores the exact list. |
| Selection.DashboardClear | src/pages/Dashboard.jsx:121-124 | Nothing is selected and bulk mode is off; the view mode is kept. |
| Selection.SwitchView | src/pages/Dashboard.jsx:197-206 | Switching the view sets the mode and always clears the selection. |
| Selection.DashboardSelectAll | src/pages/Dashboard.jsx:335 | When the counts are equal, the result is []. Otherwise it is the visible ids in display order. |
| Selection.DashboardSelectAllTwice | src/pages/Dashboard.jsx:335 | From a partial selection, pressing twice ends with nothing selected. |
| Selection.StatusRequests | src/pages/Dashboard.jsx:138 | One `isCompleted` write per selected id, in selection order. |
| Selection.DashboardBulkStatus | src/pages/Dashboard.jsx:135-142 | Every selected id is written with `viewMode != 'completed'`, whatever its prior state. The selection is cleared on full success and unchanged on failure. |
| Selection.DeleteRequests | src/pages/Dashboard.jsx:129 | One delete per selected id, in selection order. |
| Selection.DashboardBulkDelete | src/pages/Dashboard.jsx:126-133 | Without confirmation nothing is written. Otherwise one delete per id is issued; the selection clears on full success and is unchanged on failure. |
| Selection.StatusWritesLand | src/pages/Dashboard.jsx:138 | Once applied, the status writes set `isCompleted` on exactly the selected items and change nothing else. |
| Selection.BulkStatusEmptiesView | src/pages/Dashboard.jsx:91-95 | Once the status writes have landed, no selected item is left in the current view. (See also lines 135-141.) |
| Selection.DeleteWritesLand | src/pages/Dashboard.jsx:129 | Once applied, the deletes leave exactly the items whose ids were not selected. |
| UIStore.ToggledSelection | src/store/uiStore.js:19-26 | The id's membership flips, other ids are unchanged, and an absent id is appended at the end. |
| UIStore.Step | src/store/uiStore.js:4-29 | Each action changes only its own key: the sidebar toggle negates `sidebarOpen`; each modal setter sets only its flag; clear yields []; select-all stores its argument. |
| UIStore.SettersIdempotent | src/store/uiStore.js:12-28 | Every action other than the two toggles is idempotent. |
| UIStore.ToggleSidebarTwice | src/store/uiStore.js:7 | Toggling the sidebar twice restores the state. |
| UIStore.ToggleSelectionTwice | src/store/uiStore.js:19-26 | Toggling an id twice restores the membership, and restores a selection that lacked the id exactly. |
| UIStore.ToggleKeepsDistinct | src/store/uiStore.js:19-26 | Toggling keeps a duplicate-free selection duplicate-free. |
| UIStore.SelectAllKeepsDuplicates | src/store/uiStore.js:28 | `selectAll` stores its argument verbatim: a list with a duplicate stays duplicated. |
| Palette.HostLabel | src/components/modals/GlobalSearch.jsx:87-89 | The derived host keyword is the first `.`-separated part of the hostname after its first `www.` is removed: a prefix of that string, containing no dot, followed by a dot or the end. |
| Palette.HostLabelAfterWww | src/components/modals/GlobalSearch.jsx:87-89 | For a host `www.<label>.<rest>` the keyword is `<label>`. |
| Palette.HaystackParts | src/components/modals/GlobalSearch.jsx:73-79 | Title, description, url, channel, kind, then every tag, with the title first. |
| Palette.Results | src/components/modals/GlobalSearch.jsx:52 | An empty query yields no results. |
| Palette.CommandQueryResults | src/components/modals/GlobalSearch.jsx:53-66 | A query whose lowered, trimmed form starts with `>` returns only commands, at most 12. They are exactly the system commands whose lowered title or a keyword contains the trimmed remainder, or all of them for an empty remainder. |
| Palette.BareCommandPrefixListsAll | src/components/modals/GlobalSearch.jsx:60-65 | A query that lowers and trims to `>` (in any case, with any padding) lists every system command, in order. |
| Palette.ItemQueryResults | src/components/modals/GlobalSearch.jsx:69-103 | Any other non-empty query returns only items, in input order, capped at 40. They are exactly the items whose haystack contains every whitespace-separated term. |
| Palette.BlankQueryMatchesAll | src/components/modals/GlobalSearch.jsx:52-53 | A query of white space only has no terms, so every item matches and the first 40 are returned. (See also lines 69, 100.) |
| Palette.SingleWordQuery | src/components/modals/GlobalSearch.jsx:53-69 | A single lower-case word not starting with `>` is an item query of exactly one term. |
| Palette.HaystackHasTitle | src/components/modals/GlobalSearch.jsx:73-80 | The haystack contains the lowered title of an item with a title. |
| Palette.TitleWordFindsItem | src/components/modals/GlobalSearch.jsx:69-100 | A lower-case word found in an item's title finds that item. |
| Palette.AddToHistory | src/components/modals/GlobalSearch.jsx:135-140 | The opened item comes first. No older entry with its id remains, every other entry came from the history, and there are at most 4. |
| Palette.RemoveFromHistory | src/components/modals/GlobalSearch.jsx:142-145 | Exactly the entries with another id stay. |
| Palette.AddToHistoryIdempotent | src/components/modals/GlobalSearch.jsx:135-140 | Opening the same item twice in a row leaves the history as after the first time. |
| Palette.RemoveAfterAdd | src/components/modals/GlobalSearch.jsx:135-145 | Removing an item just added leaves the other older entries, now at most 3. |
| Palette.Columns | src/components/modals/GlobalSearch.jsx:151-156 | 1 to 3 columns. Below 640 px there is 1, and there are 3 exactly from 768 px when the raw query does not start with `>`. |
| Palette.HandleKey | src/components/modals/GlobalSearch.jsx:158-176 | Right and Down add 1 or the column count, clamped to `length - 1`. Left and Up subtract, clamped at 0. Enter chooses only with results present, and Escape closes. |
| Palette.ArrowsStayInRange | src/components/modals/GlobalSearch.jsx:158-169 | With results present, every arrow keeps a valid index valid. |
| Palette.ArrowsOnEmpty | src/components/modals/GlobalSearch.jsx:160-166 | With no results, Right and Down drive the index to -1. |
| Palette.SetQuery | src/components/modals/GlobalSearch.jsx:178-180 | A changed query resets the index to 0; an unchanged one changes nothing. |
| Palette.Open | src/components/modals/GlobalSearch.jsx:182-187 | Opening clears the query and the index and keeps the history. |
| Palette.EnterAfterTypingChoosesFirst | src/components/modals/GlobalSearch.jsx:170-180 | Right after the query changes, Enter on non-empty results chooses the first entry. |
| TagLists.AddSuggested | src/components/modals/SmartCaptureModal.jsx:133-137 | A suggested tag is appended only when absent and while fewer than 20 tags are selected; otherwise the list is unchanged. |
| TagLists.AddTyped | src/components/modals/SmartCaptureModal.jsx:140-145 | The trimmed input is appended, and the input cleared, only when it is non-empty and absent; otherwise list and input stay. |
| TagLists.RemoveTag | src/components/modals/SmartCaptureModal.jsx:148-150 | The tag is gone and every other tag's membership is unchanged. |
| TagLists.AddSuggestedKeepsInvariant | src/components/modals/SmartCaptureModal.jsx:133-137 | Picking suggestions keeps the list duplicate-free and at most 20 long. |
| TagLists.AddTypedKeepsNoDup | src/components/modals/SmartCaptureModal.jsx:140-145 | Typing a tag keeps the list duplicate-free. |
| TagLists.AddTypedIgnoresCap | src/components/modals/SmartCaptureModal.jsx:134-141 | Only one path is capped: a fresh typed tag goes past 20 where the same tag picked would not. |
| TagLists.RemoveTagKeepsOrder | src/components/modals/SmartCaptureModal.jsx:149 | Removal keeps the remaining tags in their order. |
| TagLists.RemoveUndoesAdd | src/components/modals/SmartCaptureModal.jsx:133-150 | Removing a tag just picked restores the list. |
| Capture.Initial | src/components/modals/SmartCaptureModal.jsx:29-66 | The form opens empty, with an empty thumbnail, duration 0 and video count 0. |
| Capture.DetectTab | src/components/modals/SmartCaptureModal.jsx:118-129 | The tab is 'video' iff the video pattern matches, otherwise 'playlist' iff the list pattern matches, otherwise 'link' iff the address pattern matches; a note is never chosen. |
| Capture.HandleUrlChange | src/components/modals/SmartCaptureModal.jsx:115-130 | The address is always stored. The tab changes only when a pattern matches, and nothing else changes. |
| Capture.NoVideoWithoutY | src/components/modals/SmartCaptureModal.jsx:119 | An address without a `y` never selects the video tab. |
| Capture.NoPlaylistWithoutQuery | src/components/modals/SmartCaptureModal.jsx:123 | An address without `?` or `&` never selects the playlist tab. |
| Capture.WatchAddressSelectsVideo | src/components/modals/SmartCaptureModal.jsx:119-121 | A canonical watch address with an 11-character id selects the video tab. |
| Capture.ListAddressSelectsPlaylist | src/components/modals/SmartCaptureModal.jsx:123-125 | An address with a `?list=` parameter and no video id selects the playlist tab. |
| Capture.PlainAddressSelectsLink | src/components/modals/SmartCaptureModal.jsx:127-129 | Any other address selects 'link' iff it has the http(s) shape, and otherwise leaves the tab alone. |
| Capture.TypeTag | src/components/modals/SmartCaptureModal.jsx:140-145 | The form's tag list and input follow `AddTyped`, and nothing else in the form changes. |
| Capture.Validate | src/components/modals/SmartCaptureModal.jsx:179-204 | A note is accepted iff its trimmed title is non-empty and its content is neither blank nor `<p></p>`, or it has an image. Any other kind is accepted iff the trimmed address is non-empty and the address has the http(s) shape. Each refusal carries the message shown. |
| Capture.AddressCheckSubsumesBlank | src/components/modals/SmartCaptureModal.jsx:193-201 | For non-notes, the shape check alone decides: a blank address never has the http(s) shape. |
| Capture.ImagesRescueEmptyNote | src/components/modals/SmartCaptureModal.jsx:185-191 | A titled note with an image is accepted whatever its content. |
| Capture.LinkDomain | src/components/modals/SmartCaptureModal.jsx:244-251 | 'Unknown' when the address does not parse. Otherwise the host with its first `www.` removed, wherever it occurs, or the host as it is when it has none. |
| Capture.PrepareItemData | src/components/modals/SmartCaptureModal.jsx:207-255 | A note record holds its title, content, images and the preview of the stripped content. Any other record holds the address and 'Untitled' for an empty title, with `whySaved` trimmed. Only a video gets a duration, only a playlist a video count, and only a link a domain. |
| Capture.NotePreviewStable | src/components/modals/SmartCaptureModal.jsx:223 | A note record's preview is a fixed point of the preview rule. |
| Capture.RequestFor | src/components/modals/SmartCaptureModal.jsx:76-98 | No request for an empty address. A video request carries the id the video pattern captures on the video tab, and a playlist request the id the list pattern captures on the playlist tab. |
| Capture.KeepTitle | src/components/modals/SmartCaptureModal.jsx:85-100 | A non-empty title the user typed survives; an empty one takes the fetched title. |
| Capture.MergeVideo | src/components/modals/SmartCaptureModal.jsx:84-91 | Fetched details overwrite thumbnail, duration, channel and description, with '' for a falsy description. The title is kept when typed, and nothing else changes. |
| Capture.MergePlaylist | src/components/modals/SmartCaptureModal.jsx:99-104 | Fetched details overwrite thumbnail, video count and channel, and keep a typed title. The description is never touched. |
| Capture.FetchedVideoFillsForm | src/lib/youtube.js:37-44 | From the API reply to the form: the channel and description shown are the first video's snippet values, with '' for a falsy description, and an untitled draft takes the snippet's title. |
| Capture.FetchedPlaylistFillsForm | src/lib/youtube.js:71-78 | For playlists, the channel and video count come from the first resource, an untitled draft takes its title, and the form's description is untouched. |
| Capture.MergeIdempotent | src/components/modals/SmartCaptureModal.jsx:84-104 | Applying the same details twice is the same as once, and a typed title survives either merge. |
| Capture.ResetForm | src/components/modals/SmartCaptureModal.jsx:290-299 | Address, content, reason, title, tags, tag input and images are cleared. The tab and the fetched metadata are left as they were. |
| Capture.ResetIdempotent | src/components/modals/SmartCaptureModal.jsx:290-299 | Resetting twice is resetting once, and a reset form never validates. |
| Capture.OpenChanged | src/components/modals/SmartCaptureModal.jsx:48-59 | Opening sets the requested tab, or 'video' when none is given; closing resets the form. |
| Capture.HandleSave | src/components/modals/SmartCaptureModal.jsx:258-287 | Signed out or invalid means no write and no change. Otherwise the prepared record is written, and the modal closes and resets exactly when the write succeeds. |
| Capture.NoDoubleSave | src/components/modals/SmartCaptureModal.jsx:279-280 | After a successful save, saving the reset form writes nothing. |
| Focus.Dispatch | src/components/modals/FocusMode.jsx:471-493 | Nothing for no item, the note view exactly for notes, and the media view for every other kind. |
| Focus.MarkComplete | src/components/modals/FocusMode.jsx:49 | Both views write the negation of the item's current `isCompleted`. (See also line 354.) |
| Focus.MarkCompleteTwice | src/components/modals/FocusMode.jsx:49 | Marking twice, with the first write applied, restores the status. (See also line 354.) |
| Focus.OpenNote | src/components/modals/FocusMode.jsx:276-279 | The session starts from the item's title, content and tags, with '' or [] where they are missing. |
| Focus.DirtyAtOpen | src/components/modals/FocusMode.jsx:276-286 | A note is dirty at open exactly when its title, content or tags are missing from the item. |
| Focus.SaveRecord | src/components/modals/FocusMode.jsx:289-329 | A save writes the session's title, content and tags, plus the preview recomputed from the stripped content. |
| Focus.Autosave | src/components/modals/FocusMode.jsx:285-307 | When the timer fires, it writes exactly when the session differs from the item as opened. |
| Focus.HandleClose | src/components/modals/FocusMode.jsx:314-336 | Close always happens. The save record is written exactly when dirty, whether or not the write then fails. |
| Focus.SaveDoesNotClean | src/components/modals/FocusMode.jsx:286-315 | The baseline never advances: after an autosave the session is still dirty, and closing writes the same record again. |
| Focus.UntouchedCompleteNoteWritesNothing | src/components/modals/FocusMode.jsx:315 | Closing a complete note without edits writes nothing. |
| Focus.SavedPreviewStable | src/components/modals/FocusMode.jsx:293-322 | Every saved preview is a fixed point of the preview rule. |
| Focus.NoteAddTag | src/components/modals/FocusMode.jsx:363-368 | The note's tag list and input follow the typed-tag rule, without any cap. |
| Focus.NoteRemoveTag | src/components/modals/FocusMode.jsx:370-372 | The note's tag list drops every equal tag; the rest of the session stays. |
| Focus.TagEditRoundTrip | src/components/modals/FocusMode.jsx:286 | Typing a fresh tag into a complete note makes it dirty, and removing that tag again makes it clean. (See also lines 363-372.) |
| Clock.FormatDuration | src/components/modals/FocusMode.jsx:32 | A missing or zero duration renders as `0:00`. |
| Clock.MinutesAndSecondsRoundTrip | src/components/cards/VideoCard.jsx:41-45 | The card's M:SS rendering, with unbounded minutes, reads back as the number of seconds. |
| Clock.HoursRoundTrip | src/components/modals/FocusMode.jsx:33-38 | From an hour on, the focus view's H:MM:SS rendering reads back as the number of seconds. |
| Clock.FormatDurationRoundTrip | src/components/modals/FocusMode.jsx:31-41 | The focus view's rendering reads back as the number of seconds, with 0 for a falsy value. |
| Clock.FormatsAgreeBelowAnHour | src/components/modals/FocusMode.jsx:37-40 | For a positive duration, the two renderings agree exactly below an hour. |
| YouTube.ParseDesignatorDuration | src/lib/youtube.js:7-17 | For `PT[nH][nM][nS]` with any part omitted, the result is h*3600 + m*60 + s, with omitted parts counting 0. |
| YouTube.DayComponentGivesZero | src/lib/youtube.js:9-10 | A duration with a day component before `T`, such as `P1DT2H`, has no literal `PT`, so it parses to 0. |
| YouTube.PickThumbnail | src/lib/youtube.js:40-74 | The thumbnail is maxres when truthy, else high when truthy, else default. |
| YouTube.FirstItem | src/lib/youtube.js:31-65 | There is a first resource exactly when the body has a non-empty `items` array. |
| YouTube.FetchVideoDetails | src/lib/youtube.js:19-51 | A request goes out iff the key is present. Details come back iff it is present and the body has items. They hold the first resource's title, description, channel title and publication time, the picked thumbnail, the parsed duration, and the tags or []. |
| YouTube.FetchPlaylistDetails | src/lib/youtube.js:53-85 | The same for playlists: title, description, channel title and publication time from the snippet, with the item count as the video count. |
| YouTube.ThrownRequestGivesNull | src/lib/youtube.js:46-84 | A thrown request resolves to null in both helpers. |
| Patterns.CaptureVideoId | src/components/modals/SmartCaptureModal.jsx:80-119 | The video pattern matches iff some position starts a watch or short prefix followed by 11 id characters, and the capture is such an id. |
| Patterns.CanonicalAddressId | src/components/modals/SmartCaptureModal.jsx:80 | A canonical watch or short address yields the id written in it. |
| Patterns.PlaylistId | src/components/modals/SmartCaptureModal.jsx:95-123 | The list pattern matches iff some `?list=` or `&list=` is followed by an id character, and the capture is a non-empty id run. |
| Patterns.ListParameterId | src/components/cards/PlaylistCard.jsx:10 | The id after the first `?list=` or `&list=` is read up to the first character outside the id class. |
| Patterns.CardPlaylistId | src/components/cards/PlaylistCard.jsx:8-12 | `getPlaylistId` is null for a falsy address, and otherwise the list pattern's capture. |
| Patterns.WebAddressShape | src/components/modals/SmartCaptureModal.jsx:127 | An address passes the http(s) test only with one of the two schemes and at least one character after it; every such address with a non-line-break host passes. (See also line 198.) |
| Patterns.CardCapture | src/components/cards/VideoCard.jsx:9-10 | The card pattern matches iff one of its six alternatives starts on the first line, and its capture holds none of `#`, `&`, `?`. |
| Patterns.CardVideoId | src/components/cards/VideoCard.jsx:7-12 | `getYouTubeId` is null for a falsy address, and returns the capture only when it is exactly 11 characters long. |
| Patterns.CardWatchAddressId | src/components/cards/VideoCard.jsx:7-12 | A one-line watch address ending in an 11-character id yields that id. |
| VideoCard.MockDuration | src/components/cards/VideoCard.jsx:15-19 | 600 for a falsy id. Otherwise the minutes are the first character's code mod 17 and the seconds the last character's code mod 60, so the result is at most 1019. |
| VideoCard.MockDurationCanBeShort | src/components/cards/VideoCard.jsx:17-18 | The id "U" gives 25 seconds, shown as `0:25`, under the 3 minutes the comment promises. |
| VideoCard.DisplayThumbnail | src/components/cards/VideoCard.jsx:47-48 | The given thumbnail, else the hqdefault address built from the extracted id, else null. |
| VideoCard.DisplayDuration | src/components/cards/VideoCard.jsx:51 | A truthy duration is shown as given; otherwise the mock duration is shown. |
| VideoCard.BadgeShowsDuration | src/components/cards/VideoCard.jsx:51-89 | The badge reads back as the displayed duration, and as the stored one when that is truthy. |
| VideoCard.WatchAddressThumbnail | src/components/cards/VideoCard.jsx:47-48 | A card without a thumbnail for a watch address shows that video's hqdefault image. |
| PlaylistCard.MockCount | src/components/cards/PlaylistCard.jsx:15-18 | 12 for a falsy id. Otherwise it is 5 plus the first character's code mod 20, which always lies in [5, 24]. |
| PlaylistCard.DisplayCount | src/components/cards/PlaylistCard.jsx:47 | A truthy video count as given, otherwise the mock count. |
| Options.OrElse | src/components/cards/PlaylistCard.jsx:48 | `channelTitle \|\| channel`: the first when truthy, otherwise the second, so an empty `channelTitle` falls through to `channel`. |
| PlaylistCard.Shown | src/components/cards/PlaylistCard.jsx:46 | The given thumbnail until an image error, then the fallback. |
| PlaylistCard.ImageFailed | src/components/cards/PlaylistCard.jsx:90 | An image error is recorded only while there is no truthy fallback. |
| PlaylistCard.FallbackArrived | src/components/cards/PlaylistCard.jsx:58-64 | A reply with thumbnails sets the fallback to maxres, high, medium or default, the first that is truthy. A failed or empty reply changes nothing. |
| PlaylistCard.ThumbnailSettles | src/components/cards/PlaylistCard.jsx:46 | Once a truthy fallback has arrived, a further error changes nothing, no new request is wanted, and the fallback is shown. (See also lines 51-66, 90.) |
| PlaylistCard.NoRequestWithoutPlaylist | src/components/cards/PlaylistCard.jsx:41-52 | A card without an address never asks for a fallback. |
| LinkCard.ToInt32 | src/components/cards/LinkCard.jsx:31 | The 32-bit wrap of `<<`: a signed 32-bit value congruent to the input modulo 2^32. |
| LinkCard.LinkHashIsPolynomial | src/components/cards/LinkCard.jsx:29-32 | The hash as written agrees modulo 2^32 with the polynomial hash `31*h + code`. |
| LinkCard.GenerateGradient | src/components/cards/LinkCard.jsx:25-45 | Always one of the six gradients: the first for a falsy key, otherwise the one at index `\|hash\| mod 6`. |
| LinkCard.CardGradient | src/components/cards/LinkCard.jsx:47 | Always one of the six gradients: the one for the domain when it is truthy, otherwise the one for the title, and the first when neither is truthy. |
| LinkCard.Label | src/components/cards/LinkCard.jsx:73 | The domain when truthy, otherwise 'LINK'. |
| LinkCard.SingleCharacterGradient | src/components/cards/LinkCard.jsx:29-44 | A one-character key picks the gradient at its character's code mod 6. |
| Sidebar.SnapshotCounts | src/components/layout/Sidebar.jsx:40-46 | `active` counts the items not completed and `completed` the completed ones, with `active + completed = total = ` the snapshot length. |
| Sidebar.NoActiveMeansAllCompleted | src/components/layout/Sidebar.jsx:40 | The active count is 0 exactly when every item is completed. |
| Sidebar.Listen | src/components/layout/Sidebar.jsx:35-50 | Without a uid the counts are left alone. Otherwise they are replaced by the snapshot's counts, which sum to its length. |
| Sidebar.ShowsBadge | src/components/layout/Sidebar.jsx:86-91 | A badge shows only for a count greater than 0, and always does in an expanded sidebar. |
| Sidebar.EverythingBadge | src/components/layout/Sidebar.jsx:91 | The Everything badge shows exactly when some item is still active. (See also line 183.) |
| Sidebar.NewItemOpensVideoTab | src/components/layout/Sidebar.jsx:169 | New Item opens the capture modal on the video tab. |
| Settings.RequestTheme | src/pages/Settings.jsx:68-70 | Requesting the current theme, or any theme during a transition, does nothing. Otherwise the transition starts with the new theme pending. |
| Settings.ApplyFired | src/pages/Settings.jsx:71-72 | The first timer applies the pending theme. |
| Settings.SettleFired | src/pages/Settings.jsx:73-75 | The second timer ends the transition and changes nothing else. |
| Settings.RequestsDuringFade | src/pages/Settings.jsx:69 | Any number of requests during a transition are all ignored. |
| Settings.ThemeSwitchCompletes | src/pages/Settings.jsx:68-77 | A request for a new theme, then any requests, then both timers, ends on the new theme with no transition running. |
| Settings.SyncDraft | src/pages/Settings.jsx:37-39 | When the user's display name changes to a non-empty value, the draft becomes that name; otherwise the draft is kept. |
| Settings.SaveName | src/pages/Settings.jsx:79-91 | A blank draft does nothing and editing stays on. A draft equal to the name, untrimmed, ends editing with no update. Otherwise the trimmed draft is sent. A successful update stores the trimmed draft as the name, and when that changes the name the draft is re-seeded with the trimmed name. A failed update keeps the name and reverts the draft to it. |
| Settings.RenameSeedsDraft | src/store/authStore.js:136-138 | Whenever saving changes the stored name, the update succeeded, the new name is what was sent, and the draft shows it. |
| Settings.PaddedNameIsResent | src/pages/Settings.jsx:82-84 | A draft equal to the name plus a trailing space is sent, and what is sent is the name itself. The stored name does not change, so the name effect does not fire and the padded draft stays in the field. |
| Settings.ExportFileName | src/pages/Settings.jsx:94-107 | The export is refused exactly when there are no items. |
| Settings.ExportNamesDate | src/pages/Settings.jsx:107 | The file is named `kapsul-backup-` + the date part of the timestamp + `.json`. |
| Settings.PurgeTarget | src/pages/Settings.jsx:123-126 | The purge proceeds only with a truthy uid and a confirmation, and targets that uid. |
| Settings.HandleDeleteAll | src/pages/Settings.jsx:123-139 | Without a uid or a confirmation nothing happens. With both, when the store module lacks `deleteAllUserItems`, the call throws, nothing is deleted and the failure toast shows. Otherwise the handler behaves as `PurgeVault`. |
| Settings.ConfirmedPurgeAlwaysFails | src/pages/Settings.jsx:128-137 | With the store module's actual exports, a confirmed purge by a signed-in user always leaves the collection unchanged and ends in the failure toast. |
| Settings.PurgeVault | src/pages/Settings.jsx:127-138 | The purge with a bulk delete available: when the store accepts it, exactly the user's documents are gone and the success toast shows; a rejected delete changes nothing and shows the failure toast. |
| Settings.ConfirmedPurgeEmptiesVault | src/pages/Settings.jsx:127-133 | A confirmed, accepted purge reports success and leaves the user's listing empty, under any filter. |
| Auth.ToggleMode | src/pages/Auth.jsx:263 | The toggle always flips the mode. |
| Auth.InputChange | src/pages/Auth.jsx:28-31 | Only the field named by the input's id changes. |
| Auth.Precheck | src/pages/Auth.jsx:41-47 | Sign-up refuses an empty field with 'Please fill in all fields'; after that check, it refuses a password shorter than 6 with the length message. Sign-in refuses only an empty email or password. |
| Auth.Submit | src/pages/Auth.jsx:33-60 | The auth call happens iff the precheck passes, and navigation iff the call succeeds. A failure reports the result's error, or 'Authentication failed' when that is empty. |
| Auth.ShortPasswordOnlyBlocksSignUp | src/pages/Auth.jsx:43-46 | A filled form with a short password is stopped on sign-up but reaches the call on sign-in. |
| App.Route | src/App.jsx:30-50 | While loading only the spinner shows. '/auth' shows Auth when signed out and redirects to '/' when signed in. '/' and '/settings' need a user, and anything else redirects to '/'. |
| App.RoutesSettle | src/App.jsx:8 | Every path settles within two redirects on Dashboard or Settings when signed in and on Auth when signed out, so Library is never reached. (See also lines 47-50.) |
| App.ResolveTheme | src/components/providers/ThemeProvider.jsx:16-23 | 'system' resolves to 'dark' iff the dark preference matches, else 'light'; any other value is used verbatim. |
| App.ApplyTheme | src/components/providers/ThemeProvider.jsx:12-24 | Afterwards the resolved class is present. 'light' and 'dark' are otherwise gone, and every other class is kept. |
| App.ThemeClassesSettle | src/components/providers/ThemeProvider.jsx:13-23 | The root never holds both 'light' and 'dark', and a second run changes nothing. |
| App.InitialTheme | src/components/providers/ThemeProvider.jsx:9-10 | The given default theme, or 'system' without one. |
| App.AppStartsDark | src/App.jsx:43 | The app's 'dark' default puts 'dark', and not 'light', on the root. |
| App.UseTheme | src/components/providers/ThemeProvider.jsx:4-37 | Outside a provider the context default, with theme 'system', is returned, so the throw is unreachable. |
| RelativeTime.ElapsedSeconds | src/lib/utils.js:14 | The elapsed whole seconds, floored. |
| RelativeTime.Bucketed | src/lib/utils.js:16-39 | Just now iff under 60 s; minutes lie in 1..59, hours in 1..23 and days in 2..6. |
| RelativeTime.BucketsAgree | src/lib/utils.js:20-39 | The nested floors of seconds, minutes and hours agree with direct thresholds of 60, 3600, 86400, 172800 and 604800 seconds. |
| RelativeTime.BucketMonotone | src/lib/utils.js:14-39 | Older never reads as more recent: the bucket, and the count within a bucket, never decrease as time passes. |
| RelativeTime.FormatRelativeTime | src/lib/utils.js:8-40 | '' exactly for a falsy input. An unparseable date renders as 'Saved on' plus the date. Otherwise the text is 'Saved just now', 'Saved Nm ago', 'Saved Nh ago', 'Saved yesterday', 'Saved N days ago' or 'Saved on' plus the date, by those thresholds. |
| RelativeTime.FutureIsJustNow | src/lib/utils.js:14-18 | A time in the future reads as just now. |
| Store.CreateItem | src/lib/firestore.js:56-73 | A failed write rethrows and leaves the collection unchanged. A successful one appends one document under the new id and returns that id. The document holds the caller's fields with `userId`, status 'active', `isPinned` false, `isCompleted` false and pending timestamps overriding same-named fields. |
| Store.Record | src/lib/firestore.js:98-101 | `{id, ...data}`: all the data's fields, plus `id`, where a stored `id` field wins over the document id. (See also lines 140-143.) |
| Store.NewerFirstIsTotalPreorder | src/lib/firestore.js:104-108 | Ordering by `createdAt` descending, with 0 for a missing one, is a total preorder. |
| Store.UserItems | src/lib/firestore.js:78-156 | The result is a permutation of the records of the matching documents. |
| Store.UserItemsMembers | src/lib/firestore.js:82-101 | A record is returned iff it comes from a document whose `userId` is the uid and, under a filter, whose `isCompleted` equals it. (See also lines 126-143.) |
| Store.UserItemsOrdered | src/lib/firestore.js:104-108 | The records come newest first, with 0 for a missing `createdAt`. (See also lines 145-149.) |
| Store.CreatedItemIsListed | src/lib/firestore.js:56-68 | A created document is listed for its creator and for no other user. (See also lines 82-101.) |
| Store.UpdateItem | src/lib/firestore.js:160-167 | A failure rethrows and changes nothing. Otherwise the updates are merged into the document with that id, and every other document is unchanged. |
| Store.DeleteItem | src/lib/firestore.js:169-176 | A failure rethrows and changes nothing. Otherwise exactly the documents with other ids remain. |
| Store.DeletedItemLeavesListing | src/lib/firestore.js:169-176 | After a delete, a user's listing holds exactly the records of that user's documents with other ids. Unless some document stores its own `id` field, no listed record carries the deleted id. (See also lines 82-101.) |
| Store.UpdateKeepsListing | src/lib/firestore.js:160-167 | An update that leaves `userId`, `createdAt` and `id` alone, and `isCompleted` too when the listing filters on it, keeps the listing's length, its ids in the same order and its creation times. Each entry is either unchanged or overlaid with the updates. (See also lines 78-108.) |
| Store.DeleteAllUserItems | src/pages/Settings.jsx:128-129 | The bulk delete the settings page calls, as it evidently expects it: when accepted, exactly the documents not owned by the user remain; a failure changes nothing. |
| Store.DeleteAllEmptiesListing | src/pages/Settings.jsx:128-129 | After the bulk delete the user's listing is empty, and every other user's listing holds the same records as before. |

## Left out

- HTML-to-text stripping through a detached DOM node is the parameter `strip`, so the model does not say what text a piece of HTML has.
- `new URL(...).hostname` is the parameter `hostname`: URL parsing is not modelled, only its result or its failure.
- `localeCompare` is a parameter required to be a consistent collation; no locale's collation is modelled.
- `toLowerCase` lowers ASCII letters only; full Unicode case mapping is not modelled.
- Timers are explicit events: the 800 ms metadata debounce, the 1 s note autosave and the two 300 ms theme timers. No time elapses in the model, so overlapping or cancelled timers are not modelled.
- Promises, `fetch`, Firestore SDK calls, toasts, `navigate`, `confirm` and window events appear only as their outcome, a parameter. Interleavings of concurrent callbacks are not modelled.
- The playlist card's fallback request is modelled as its reply arriving (`FallbackArrived`); the request itself and its URL are not.
- `compressImage` and the image upload path of the capture modal are left out: the function is foreign to the files modelled.
- The store module defines no `deleteAllUserItems`; `Store.DeleteAllUserItems` is what the settings page evidently expects of it, not code the repository contains (see "## Findings").
- The export file's JSON content and the download mechanics are left out; only the guard and the file name are modelled.
- The palette's command execution (`handleSelect`) is left out: it only calls foreign setters and navigation.
- Google sign-in, the authentication store (apart from the profile update storing the new display name, which `Settings.SaveName` folds in), the service worker, the mock data fixture and the purely presentational components are left out: they hold no decision logic of their own.
- App.Route: paths are matched exactly; the router's case-insensitive matching and trailing-slash tolerance are not modelled.
- Settings.SaveName: the display name is a string; a user without a display name (null) is not modelled.
- App.ApplyTheme: the class list is a set; `classList.add('')` throwing for an empty theme string is not modelled.
- LinkCard.LinkHashIsPolynomial: the model uses exact integers for the subtraction and addition; JavaScript doubles make this exact only while the hash stays below 2^53 in magnitude, which a 32-bit-wrapped step keeps for any realistic key.
- Focus.DirtyAtOpen: the dirty check compares tag lists by sequence equality, which is what comparing their `JSON.stringify` forms amounts to for lists of strings.
- Store.UserItems: the snapshot listener is modelled as one read of the collection; the listener's subscription lifetime is not.
- Store.UserItems: records with equal `createdAt` keep their order in the collection, where `Store.CreateItem` appends at the end. This tie order is an assumption: the query at src/lib/firestore.js:88-101 has no `orderBy`, and Firestore returns such results ordered by document id. No contract depends on the tie order.
- Items.Preview: lengths and slices count Unicode scalar values, not UTF-16 code units. Text with characters outside the Basic Multilingual Plane therefore previews differently: 61 emoji are 122 code units, which the code cuts to 60 emoji plus `...`, while the model keeps all 61.
- VideoCard.MockDuration: `charCodeAt` is modelled as the character's code. For a character outside the Basic Multilingual Plane, JavaScript reads a surrogate half instead, so such ids give a different mock duration.
- PlaylistCard.MockCount: the same `charCodeAt` difference applies to the first character of the id.
- LinkCard.SingleCharacterGradient: the same `charCodeAt` difference applies to the link hash. A key outside the Basic Multilingual Plane is two code units in JavaScript and one character in the model.
- Auth.Precheck: the password length counts Unicode scalar values, while src/pages/Auth.jsx:43 counts UTF-16 code units. A password of three emoji is 6 code units, which the code accepts for sign-up; the model counts 3 and refuses it with "Password must be at least 6 characters".
- Auth.ShortPasswordOnlyBlocksSignUp: "short" inherits the same scalar-value count, so it covers passwords that JavaScript measures as 6 or more code units.
- Patterns.CardVideoId: the `=== 11` test counts Unicode scalar values, while src/components/cards/VideoCard.jsx:11 counts UTF-16 code units. The capture of `https://youtube.com/watch?v=abcdefghi` followed by one emoji is 11 code units, which the code returns; the model counts 10 and gives None.
- Palette.HandleKey: Enter with an index outside the results is modelled as choosing that index, without saying what `handleSelect` then does with `undefined`.

Behaviour of the code as written that a reader might not expect, which the
model keeps:

- `parseDuration` matches `PT(\d+H)?(\d+M)?(\d+S)?` (src/lib/youtube.js:9). A duration with a day component, such as `P1DT2H`, has no literal `PT` and so parses to 0, days and hours alike (`YouTube.DayComponentGivesZero`).
- The Dashboard's bulk delete calls `clearSelection` only after every delete has succeeded (src/pages/Dashboard.jsx:126-133).
- The note view's dirty check compares against the item as it was opened, never against the last saved values (src/components/modals/FocusMode.jsx:286), so saving does not make a note clean (`Focus.SaveDoesNotClean`).
- An item has exactly one of four types, so the four per-type counts of the Dashboard toolbar add up to exactly the 'All' count (src/pages/Dashboard.jsx:183-190).
- The comment on `getMockDuration` promises between 3 and 20 minutes (src/components/cards/VideoCard.jsx:17), but the formula can give less (`VideoCard.MockDurationCanBeShort`).
- The link card computes its gradient (src/components/cards/LinkCard.jsx:47) but never renders it.
- `formatRelativeTime` does not check that the date parsed (src/lib/utils.js:12). An unparseable date fails every comparison and renders as 'Saved on' plus the locale's rendering of the invalid date.

## Findings

| source | as written | input that shows it | evidently intended | confidence | as-written member | corrected member |
|---|---|---|---|---|---|---|
| src/pages/Library.jsx:78-94 | The keyword table is a plain object literal, so `platformMap[lowerQuery]` also finds members inherited from `Object.prototype`. The truthy result is then called with `.includes`, which it does not have. | Typing `constructor` into the Library search with at least one item loaded: the filter throws a TypeError. | Only the nine listed keys are keywords; any other query is a text search. | not executed | Query.ConstructorQueryThrows | Query.LibraryTextQuery |
| src/pages/Settings.jsx:128-129 | The purge takes `deleteAllUserItems` from the store module, which exports no such name (src/lib/firestore.js exports `createUser` to `submitFeedback` and the two Firestore helpers). The destructured value is `undefined`, so the call throws a TypeError, and the catch shows "Failed to purge vault". | A signed-in user confirms "Delete all": nothing is deleted, and the failure toast always shows. | The store provides a bulk delete of the user's documents; a confirmed, accepted purge empties the vault and shows the success toast. | not executed | Settings.ConfirmedPurgeAlwaysFails | Settings.PurgeVault |
