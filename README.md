# Bookmark Hero, modelled in Dafny

Bookmark Hero is a browser extension that replaces the new-tab page with a
view of the user's bookmarks. There are two views:

- a recency-ordered grid of bookmark cards, rendered in batches of 100;
- a folder view, with one section per folder.

Both views are narrowed by a search box and a folder-filter drop-down. The
extension also does the following:

- keeps a thumbnail for each bookmark, taken as a screenshot in a popup
  window and stored under the page's url;
- lets the user drive the page from the keyboard (arrow keys over the
  cards, Tab cycling, Escape priorities, single-letter shortcuts).

This project models that logic in Dafny and proves what it promises.

The browser's bookmark tree is a `Model.Node` value: a folder with
children, or a bookmark leaf. Two kinds of state are modelled as classes:

- State the page updates in place: the flat `allBookmarks` list, the filter
  option lists, the grid pager, the tree cache, the keyboard indices, the
  browser's storage and event log.
- Arrays the page restyles: the arrays of `Styled` elements that the legacy
  page's `hideBookmarks` rewrites.

Pure computations are functions. Loops become methods with invariants,
proved against those functions.

Modules:

- `Js`: the JavaScript semantics the code relies on: truthiness, loose
  equality, `includes`, ASCII `toLowerCase`, `split`, `trim`, number
  rendering.
- `Model`: tree, entry and filter-option types, pre-order traversal,
  counting and keeping.
- `BookmarkUtils`: src/modules/bookmarkUtils.js.
- `UiUtils`: src/modules/uiUtils.js.
- `Filter`: src/modules/filter.js.
- `Thumbnail`: src/modules/thumbnail.js.
- `Background`: the compressor of src/background.js.
- `Keyboard`: src/modules/keyboard-shortcuts.js.
- `MainPage`: the page logic of src/main.js.
- `LegacyFilter`: the filter option list of bookmarks.js.
- `LegacyPage`: the rest of the page logic of bookmarks.js that differs
  from the modules. The rest of bookmarks.js (its `collectBookmarks`,
  `countItemsInFolder`, `countBookmarksRecursive`, `computeId`,
  `getDynamicTitle`, `getDynamicSectionTitle`) is the same code as in the
  modules, so the modules' members model it too.

## Model

| member | source | states |
|---|---|---|
| Js.ActiveFilterCases | src/modules/uiUtils.js:6 | `filterId && filterId !== 0 && filterId !== "all"` holds exactly for a non-zero number or a string other than "" and "all" |
| Js.LooseEqualsFacts | src/modules/bookmarkUtils.js:46 | `==` on a filter value agrees with `===` on two strings and is symmetric; 0 loosely equals "0" and "" |
| Js.SplitJoin | src/modules/bookmarkUtils.js:75 | `split(" ")` loses nothing: joining the pieces with the separator gives the string back |
| Js.SplitPiecesLackSeparator | src/modules/bookmarkUtils.js:75 | no piece of `split(" ")` holds the separator |
| Js.TrimEmptyIffBlank | src/modules/uiUtils.js:5 | `trim()` gives "" exactly for an all-whitespace string |
| Js.NatToStringRoundTrip | src/modules/uiUtils.js:25 | the count rendered in a title reads back as the same number |
| BookmarkUtils.CollectBookmarks | src/modules/bookmarkUtils.js:2-13 | collectBookmarks: a bookmark gives one entry labelled with the given folder name; a folder gives its children's entries, labelled with its own title (properties in CollectIsLeavesInPreorder and CollectFolderIsParentTitle) |
| BookmarkUtils.CollectChildren | src/modules/bookmarkUtils.js:5-7 | the forEach over a folder's children: their entries concatenated in child order |
| BookmarkUtils.CollectIsLeavesInPreorder | src/modules/bookmarkUtils.js:2-13 | collectBookmarks lists exactly the leaves of the tree, depth-first and left to right, and nothing for folders |
| BookmarkUtils.CollectChildrenIsLeavesInPreorder | src/main.js:92-95 | collecting every root child gives the leaves of all of them, in order |
| BookmarkUtils.CollectFolderIsParentTitle | src/modules/bookmarkUtils.js:4-10 | every entry's folder is the title of the folder that directly holds its bookmark |
| BookmarkUtils.SortBookmarksByRecent | src/modules/bookmarkUtils.js:15-21 | sorts the caller's array in place and returns that same array; the result is ordered by `dateLastUsed \|\| dateAdded`, newest first, is a permutation of the input, keeps entries of equal recency in their relative order (stable), and an already ordered array is left unchanged |
| BookmarkUtils.InsertIntoSorted | src/modules/bookmarkUtils.js:16-20 | one insertion step extends the ordered prefix by one element, permutes the array, keeps every run of equal recency in its order, and moves nothing when the new element is already in place |
| BookmarkUtils.ShiftLessRecent | src/modules/bookmarkUtils.js:16-20 | the inner loop of that step: the new entry lands in a gap at `j`; the entries before `j` and after the new entry's old place are untouched, and the run between moves one place right; every entry of that run is less recent than the new entry, and the entry before the gap is at least as recent |
| BookmarkUtils.InsertionStep | src/modules/bookmarkUtils.js:16-20 | that rearrangement keeps the same entries and extends the ordered prefix by one |
| BookmarkUtils.InsertionSorted | src/modules/bookmarkUtils.js:16-20 | placing an entry after every entry at least as recent and before every less recent one keeps the order |
| BookmarkUtils.InsertionKeepsTies | src/modules/bookmarkUtils.js:16-20 | moving an entry back past strictly less recent entries leaves the entries of every recency in the same relative order |
| BookmarkUtils.TiesSwap | src/modules/bookmarkUtils.js:16-20 | swapping an entry with a run of strictly less recent entries changes no run of equal recency |
| BookmarkUtils.ContainsSearchTerm | src/modules/bookmarkUtils.js:74-77 | containsSearchTerm: every piece of the term split at single spaces occurs in the lower-cased text; the term itself is not lower-cased (properties in the rows below) |
| BookmarkUtils.EmptyTermMatches | src/modules/bookmarkUtils.js:74-77 | the empty term, and so every empty piece from a doubled space, matches any text |
| BookmarkUtils.SingleWord | src/modules/bookmarkUtils.js:74-77 | a term without a space matches exactly when it occurs in the lower-cased text |
| BookmarkUtils.TermIsConjunction | src/modules/bookmarkUtils.js:75-76 | a term matches exactly when each space-separated word matches |
| BookmarkUtils.WordOrderAndDoubledSpace | src/modules/bookmarkUtils.js:75-76 | swapping two words or doubling the space between them does not change the match |
| BookmarkUtils.MatchesSearch | src/modules/bookmarkUtils.js:79-87 | matchesSearch: a blank term matches; otherwise the whole lower-cased term occurs in the lower-cased title or url |
| BookmarkUtils.MatchesSearchOneWord | src/modules/bookmarkUtils.js:79-87 | for a one-word lower-case term, matchesSearch agrees with containsSearchTerm on the title or the url |
| BookmarkUtils.MatchesSearchKeepsWordOrder | src/modules/bookmarkUtils.js:79-87 | matchesSearch never splits its term: "a b" does not match the title "b a", which containsSearchTerm accepts |
| BookmarkUtils.CountMatching | src/modules/bookmarkUtils.js:23-36 | countBookmarksRecursive as a definition: a folder sums its children; a bookmark counts 1 when it has a url and passes the search test |
| BookmarkUtils.CountBookmarksRecursive | src/modules/bookmarkUtils.js:23-36 | the loop over the children adds up their counts; the result is the recursive count |
| BookmarkUtils.CountIsMatchingNodes | src/modules/bookmarkUtils.js:23-36 | the recursive count is the number of bookmarks in the tree that have a url and pass the search test |
| BookmarkUtils.CountBounds | src/modules/bookmarkUtils.js:29-33 | with no term, the count is the number of bookmarks with a url; any term only lowers it |
| BookmarkUtils.FindByValue | src/modules/bookmarkUtils.js:46 | `find` with `==` returns an option whose value loosely equals the filter, or reports that no option does |
| BookmarkUtils.PrunedByFilter | src/modules/bookmarkUtils.js:45-55 | a folder is skipped exactly when the filter is active, its option is found with `==`, and the folder is neither the filtered one nor on that option's `-id-` path |
| BookmarkUtils.ChildItemCount | src/modules/bookmarkUtils.js:57-69 | a sub-folder adds its own item count; a bookmark adds 1 when it has a url and passes the search test |
| BookmarkUtils.FolderItemCount | src/modules/bookmarkUtils.js:38-55 | a bookmark counts 0, and so does a folder that an active, known filter prunes because the folder is neither the filtered one nor on its path |
| BookmarkUtils.CountItemsInFolder | src/modules/bookmarkUtils.js:38-72 | the method, with its forEach over the children, computes the item count of the folder |
| BookmarkUtils.UnfilteredItemCount | src/modules/bookmarkUtils.js:45-69 | without an active filter, a folder's item count is its recursive bookmark count |
| BookmarkUtils.FilteredItemCountBound | src/modules/bookmarkUtils.js:45-69 | a filter only removes bookmarks from a folder's count |
| BookmarkUtils.WithoutBookmark | src/modules/bookmarkUtils.js:115-117 | deletion keeps the other entries, in order and with their multiplicities, and drops every entry with the deleted id |
| BookmarkUtils.SubsequenceKeepsRecencyOrder | src/main.js:810-819 | dropping entries from a recency-ordered list leaves it ordered, so the re-sort after a deletion keeps the order |
| UiUtils.BlankTermIsNoSearch | src/modules/uiUtils.js:5 | a term counts as a search exactly when it is not all whitespace |
| UiUtils.StripIndent | src/modules/uiUtils.js:14 | removing `^[\s\-]*` leaves a suffix that starts with neither whitespace nor a dash, and everything removed was whitespace or dashes |
| UiUtils.DashMatchShape | src/modules/uiUtils.js:16 | each match of `\s*-\s*` holds exactly one dash and no `>` |
| UiUtils.ReplaceDashSeparators | src/modules/uiUtils.js:16 | after replacing every `\s*-\s*` with " > " no dash is left |
| UiUtils.SeparatorCount | src/modules/uiUtils.js:16 | each dash becomes exactly one `>` separator |
| UiUtils.NoDashUnchanged | src/modules/uiUtils.js:15-17 | a label without a dash is shown as it is |
| UiUtils.FolderPath | src/modules/uiUtils.js:14-17 | the folder path is the stripped label when that holds no "- "; otherwise it has no dash left |
| UiUtils.FilterPath | src/modules/uiUtils.js:11-19 | the folder path of the option whose value loosely equals the filter, or "" when no option does |
| UiUtils.TitleText | src/modules/uiUtils.js:21-35 | the title chosen from the search and filter flags: "No results for"/"Results for" the quoted term, " in " the path under a filter, "Folder: " the path, or "Bookmarks", each but "No results" followed by ` (n)` (properties in the rows below) |
| UiUtils.GetDynamicTitle | src/modules/uiUtils.js:4-36 | getDynamicTitle: the search flag is a non-blank term, the filter flag is an active filter, and the path is looked up only under a filter (properties in the Title rows below) |
| UiUtils.TitleTextNoResults | src/modules/uiUtils.js:21-35 | for any flags and folder path, the title begins with "No results" exactly when there is a search and the count is 0 |
| UiUtils.TitleTextShowsCount | src/modules/uiUtils.js:21-35 | for any flags and folder path, every title other than "No results" ends with ` (n)` |
| UiUtils.TitleTextFolder | src/modules/uiUtils.js:21-35 | for any folder path, the title begins with "Folder: " exactly when a filter is set and there is no search |
| UiUtils.TitleTextQuotesTerm | src/modules/uiUtils.js:21-30 | for any folder path and count, a search title holds the quoted term |
| UiUtils.TitleNoResults | src/modules/uiUtils.js:21-30 | the title starts with "No results" exactly when a search found nothing |
| UiUtils.TitleShowsCount | src/modules/uiUtils.js:21-35 | apart from "No results", the title ends with the count; with no search and no filter it is `Bookmarks (n)` |
| UiUtils.TitleFolder | src/modules/uiUtils.js:31-32 | the title is a "Folder: " title exactly when a filter is active and there is no search |
| UiUtils.TitleQuotesTerm | src/modules/uiUtils.js:21-30 | every search title holds the term in double quotes |
| UiUtils.BlankSearchTitle | src/modules/uiUtils.js:5 | an all-whitespace term gives the same title as no term |
| UiUtils.UnknownFilterEmptyPath | src/modules/uiUtils.js:11-19 | an active filter with no matching option yields an empty folder path |
| UiUtils.GetDynamicSectionTitle | src/modules/uiUtils.js:38-56 | null exactly when the folder holds no matching bookmark; otherwise the title begins with the folder title and ends with the count, and names the term only when there is a search |
| UiUtils.SectionTitleIgnoresFilter | src/modules/uiUtils.js:47-55 | the filter never changes a section title |
| UiUtils.EmptySectionIffNoMatch | src/modules/uiUtils.js:40-46 | a section is left out exactly when no bookmark below it has a url and matches |
| UiUtils.FindByStrictValue | src/modules/uiUtils.js:59 | `find` with `===` returns the first option whose value is the id, or reports that there is none |
| UiUtils.ComputeId | src/modules/uiUtils.js:58-65 | the id of the first option whose value strictly equals the id, otherwise `fallback-<id>` |
| Filter.OptionFor | src/modules/filter.js:7-12 | the option pushed for a titled folder: label indent and title, value the folder id, the level, and id `path-<id>-` |
| Filter.FolderOptions | src/modules/filter.js:5-14 | one node of the forEach: a titled folder's own option, then its children's options at level + 1 under `path-<id>`; a bookmark gives nothing |
| Filter.PopulateFilterOptions | src/modules/filter.js:2-19 | populateFilterOptions: the options of each node of the list, in order (properties in OptionsPerTitledFolder) |
| Filter.PlacedOption | src/modules/filter.js:7-14 | the option of a folder with `d` enclosing folders has level `level + d`, the indent of that level before its title, its id as value, and id `path`, then `-<id>` for every enclosing folder, titled or not, then `-<id>-` |
| Filter.OptionsPerTitledFolder | src/modules/filter.js:2-19 | the options are, one for one and in pre-order, the titled folders of the tree, none for bookmarks or untitled folders; each is exactly its PlacedOption: level = start level + depth, id = the path through every ancestor followed by `-<id>-` |
| Filter.OptionsPlaced | src/modules/filter.js:5-14 | the same below any enclosing folders whose level and path a recursive call has already added |
| Filter.PlacedIsPreorder | src/modules/filter.js:5-14 | the placed nodes are exactly the pre-order of the tree |
| Filter.PlacedEnclosed | src/modules/filter.js:12-14 | each node is placed with the folders that enclose it: a node with no ancestors is a top-level node, and any other is a child of its innermost ancestor, which is a folder |
| Filter.OptionsStartWithPath | src/modules/filter.js:12-14 | every option id starts with the starting path and a dash |
| Filter.PathPrefix | src/modules/filter.js:12-14 | extending the path by folder ids keeps the starting path and a dash as a prefix |
| Filter.OptionsInsideCarryAncestor | src/modules/filter.js:12-14 | every option generated inside a folder has `-<folder id>-` in its id |
| Filter.OptionsBelowExtendFolderId | src/modules/filter.js:12-14 | the option ids below a titled folder all start with that folder's own option id |
| Filter.DropdownEntries | src/modules/filter.js:87-104 | traverseBookmarks: what each node of the list pushes, in order |
| Filter.DropdownFolder | src/modules/filter.js:88-102 | a listed folder pushes its option, then its sub-folders' options under its display name; an unlisted folder passes its prefix on to its children; a bookmark pushes nothing |
| Filter.DropdownPerListedFolder | src/modules/filter.js:87-104 | the drop-down traversal lists one option per titled folder that is not a system root, in pre-order, with value the folder id and id `folder-<id>` |
| Filter.DropdownLabels | src/modules/filter.js:87-104 | under a non-empty prefix every label the traversal pushes starts with `prefix - ` |
| Filter.DropdownFolderLabels | src/modules/filter.js:91-101 | a listed folder's label is its display name (`prefix - title`, or the bare title without a prefix) and the labels of its sub-folders extend it; an unlisted folder passes its prefix on unchanged |
| Filter.TopLevelLabel | src/modules/filter.js:92 | a top-level listed folder is labelled with its bare title |
| Filter.FilterSelect.constructor | src/modules/filter.js:82 | the select element starts with no options |
| Filter.DropdownBuilder.constructor | src/modules/filter.js:85 | the list starts with the "All Bookmarks" option |
| Filter.DropdownBuilder.Traverse | src/modules/filter.js:87-104 | the forEach appends exactly the traversal's options to the list |
| Filter.DropdownBuilder.TraverseFolder | src/modules/filter.js:97-100 | the recursive call on a folder's children appends their options |
| Filter.PopulateFilterDropdown | src/modules/filter.js:81-120 | without the select element it returns []; otherwise it returns "All Bookmarks" followed by the traversal, and the select shows exactly those options |
| Filter.ClearButton.constructor | src/modules/filter.js:123 | the button starts with no display style |
| Filter.UpdateClearFilterButton | src/modules/filter.js:122-131 | the button is `inline-flex` exactly while a folder filter is active and `none` otherwise |
| Thumbnail.ThumbnailFor | src/modules/thumbnail.js:100-114 | the stored data URL when storage succeeded and holds a non-empty one, otherwise the favicon-service url |
| Thumbnail.SaveThenLookup | src/modules/thumbnail.js:90-114 | a lookup after saving non-empty data returns that data |
| Thumbnail.SavesAreKeyedByUrl | src/modules/thumbnail.js:91-93 | the last save for a url wins; saves for other urls do not change its thumbnail |
| Thumbnail.FallbackIffMiss | src/modules/thumbnail.js:103-111 | the favicon url is returned exactly on a storage error, a missing entry or an empty value, or when it is itself what was stored |
| Thumbnail.StopStep | src/modules/thumbnail.js:76-86 | the loop stops at the first step whose encoding fits the target, or at the floor |
| Thumbnail.CompressImage | src/modules/thumbnail.js:62-86 | when the image loads: exactly one callback, with the encoding at the stop step, after stop-step + 1 encodings; when it fails to load (there is no `onerror`): no callback and no encoding |
| Thumbnail.NothingFitsReachesFloor | src/modules/thumbnail.js:80 | when nothing fits, every step down to the floor is encoded |
| Thumbnail.FirstFitStopsAtOnce | src/modules/thumbnail.js:80 | a first encoding that fits is the only one |
| Thumbnail.IntendedFloor | src/modules/thumbnail.js:80 | counting in exact tenths, `quality <= 0.1` first holds at step 9, the tenth encoding |
| Thumbnail.FloatQualityIsBinary64 | src/modules/thumbnail.js:84 | each modelled quality is the correctly rounded binary64 result of the previous one minus 0.1 |
| Thumbnail.AsWrittenFloor | src/modules/thumbnail.js:80-84 | on binary64 values, `quality <= 0.1` first holds after ten subtractions, not nine |
| Thumbnail.ExtraEncodeAsWritten | src/modules/thumbnail.js:74-86 | an image that never fits is encoded eleven times as written, against ten as intended |
| Thumbnail.ListenerFiresAsWritten | src/modules/thumbnail.js:22-26 | the listener's test as written: any tab's update with status "complete" |
| Thumbnail.ListenerFires | src/modules/thumbnail.js:20-26 | the test intended: the popup's own tab completed |
| Thumbnail.ListenerIgnoresTab | src/modules/thumbnail.js:20-26 | as written, another tab finishing its load fires the listener (tab 7 with popup tab 3); the intended test would not |
| Thumbnail.Browser.constructor | src/modules/thumbnail.js:93 | the browser starts with an empty log and the given storage |
| Thumbnail.Compressed | src/modules/thumbnail.js:35-40 | the data URL stored and passed on: the capture's encoding at the stop step for a 100 KB target, with the corrected 0.1 floor (step 9) |
| Thumbnail.CaptureTrace | src/modules/thumbnail.js:2-60 | captureScreenshot's events: nothing for an empty url; otherwise the popup window, and once the listener fired the window removal, then, for a truthy capture of an image that loads, the store write and the callback |
| Thumbnail.Browser.SaveScreenshot | src/modules/thumbnail.js:90-97 | one store write is attempted and logged; storage maps the url to the data URL, or is unchanged when `chrome.storage.local.set` fails |
| Thumbnail.Browser.GetThumbnailUrl | src/modules/thumbnail.js:100-114 | returns the thumbnail lookup on the current storage |
| Thumbnail.Browser.CaptureScreenshot | src/modules/thumbnail.js:2-60 | appends the capture trace to the log. Storage gains the compressed capture exactly when the url is non-empty, the popup's own tab completed, the capture returned data, the image loaded and the storage write succeeded; otherwise storage is unchanged. The stored data is `Compressed`, with the corrected floor. |
| Thumbnail.EmptyUrlDoesNothing | src/modules/thumbnail.js:3-6 | an empty url opens no window, stores nothing and calls nothing back |
| Thumbnail.CaptureOrdering | src/modules/thumbnail.js:26-52 | the window is removed exactly when the listener fired, before anything is stored; a store write happens exactly when the listener fired, the capture returned data and the image loaded, keyed by the url; the callback comes at most once, after the store, with the stored data |
| Background.FloorIsQualityTenth | src/background.js:44-46 | in twentieths, `currentQuality <= minQuality` first holds at step 18 |
| Background.StopsAt | src/background.js:67-71 | the loop stops at a step within 1 KB of the target, at the quality floor, or at a blob no smaller than the previous one (none before the first) |
| Background.StopStep | src/background.js:67-82 | the loop stops at the first step within 1 KB of the target, at the floor, or at a blob no smaller than the previous one |
| Background.CompressImage | src/background.js:47-89 | when the image decodes and every encoding up to the stop step resolves, the recursion calls back exactly once, with the blob of the stop step; a rejected fetch or decode, or a rejected encoding, gives no callback |
| Background.AtMostNineteenEncodes | src/background.js:69 | at most 19 encodings, whatever the encoder reports |
| Background.FarUnderTargetContinues | src/background.js:57 | the size guard cannot fire on the first encoding: `lastBlobSize` starts at Infinity |
| Background.GrowthStops | src/background.js:70 | a blob that does not shrink stops the loop at that step |
| Background.ShrinkingFarFromTargetRunsToFloor | src/background.js:67-82 | ever-shrinking blobs that never come within 1 KB of the target run to the floor step |
| Keyboard.IndexOf | src/modules/keyboard-shortcuts.js:670 | `indexOf` returns the first position of the element, or -1 when it is absent |
| Keyboard.CardsPerRow | src/modules/keyboard-shortcuts.js:624-640 | a row holds at least one card: `max(1, floor(width / 240))`, or the column count of a CSS grid template |
| Keyboard.ArrowTarget | src/modules/keyboard-shortcuts.js:644-663 | exactly the four arrow keys give a target, and every target is a valid card index |
| Keyboard.RightLeftInverse | src/modules/keyboard-shortcuts.js:645-652 | Right and Left wrap around and undo each other |
| Keyboard.UpDownClamp | src/modules/keyboard-shortcuts.js:653-660 | Down and Up move a whole row and clamp at the ends; Up undoes a full Down |
| Keyboard.BookmarkNavTarget | src/modules/keyboard-shortcuts.js:562-684 | a target exists only for an arrow key on a focused card when cards exist, and it indexes that card's container |
| Keyboard.TabTarget | src/modules/keyboard-shortcuts.js:723-730 | Tab goes to `(i + 1) mod n` and Shift+Tab to `i - 1`, or from `i <= 0` to the last element |
| Keyboard.TabFromUnknown | src/modules/keyboard-shortcuts.js:718-730 | from an unknown element, Tab goes to the first element and Shift+Tab to the last |
| Keyboard.TabShiftTabInverse | src/modules/keyboard-shortcuts.js:723-730 | Tab and Shift+Tab undo each other |
| Keyboard.ModalTab | src/modules/keyboard-shortcuts.js:755-848 | a modal's Tab is unhandled exactly when it has nothing to focus; otherwise it focuses one of the modal's elements |
| Keyboard.TabOutcome | src/modules/keyboard-shortcuts.js:687-752 | outside the modals, Tab throws exactly when the page has nothing focusable; otherwise it focuses one of the page's focusable elements |
| Keyboard.IsLetterKey | src/modules/keyboard-shortcuts.js:911 | a letter key lower-cases to that letter |
| Keyboard.EarlyAction | src/modules/keyboard-shortcuts.js:887-940 | before Tab and the arrows, only a save or a card action can be taken |
| Keyboard.Dispatch | src/modules/keyboard-shortcuts.js:883-1113 | the keydown listener's decision, first match wins: Enter in the edit modal's fields, a focused card's keys, Tab, the arrows, then Escape, the typing guard and the shortcuts |
| Keyboard.LateAction | src/modules/keyboard-shortcuts.js:959-1112 | after the Tab and arrow handlers: Escape, then the typing guard, then the shortcuts; never a Tab or arrow move |
| Keyboard.EscapeAction | src/modules/keyboard-shortcuts.js:959-1028 | Escape's priority chain: edit modal, settings modal, menu, search input, filter, any focused element, else nothing |
| Keyboard.IsTyping | src/modules/keyboard-shortcuts.js:1032-1035 | the target is an input, a textarea or editable, and is not the filter select |
| Keyboard.ShortcutAction | src/modules/keyboard-shortcuts.js:1041-1112 | S focuses search, F toggles the filter when present, R reloads, H opens settings when present, "/" focuses search unless it is focused |
| Keyboard.CardAction | src/modules/keyboard-shortcuts.js:911-940 | E/e edits, Delete/Backspace deletes, C/c captures, Enter opens, any other key is not a card key |
| Keyboard.EscapePriority | src/modules/keyboard-shortcuts.js:960-1028 | Escape closes the edit modal first, then the settings modal, then the menu, then blurs search, filter or whatever is focused |
| Keyboard.ShortcutsIgnoredWhileTyping | src/modules/keyboard-shortcuts.js:1032-1038 | while typing in an input other than the filter, the letter shortcuts and "/" do nothing |
| Keyboard.CardKeysFirst | src/modules/keyboard-shortcuts.js:904-940 | on a focused card outside the edit modal, the card's own keys win over every other handler |
| Keyboard.CardKeys | src/modules/keyboard-shortcuts.js:911-940 | E/e edits, Delete/Backspace deletes, C/c captures, Enter opens; Tab, Escape and the arrows are not card keys |
| Keyboard.Navigator.constructor | src/modules/keyboard-shortcuts.js:259-262 | no current bookmark, no menu |
| Keyboard.Navigator.OpenMenu | src/modules/keyboard-shortcuts.js:378-410 | a menu with buttons takes them over with the first selected; otherwise nothing changes |
| Keyboard.Navigator.CloseMenu | src/modules/keyboard-shortcuts.js:463-476 | the menu is emptied and its index reset to -1 |
| Keyboard.Navigator.HandleMenuNavigation | src/modules/keyboard-shortcuts.js:427-460 | with a menu, Down and Up cycle through it, Enter and Space are taken, and Escape closes it; without a menu nothing is taken |
| Keyboard.Navigator.HandleBookmarkNavigation | src/modules/keyboard-shortcuts.js:562-684 | handled exactly when there is an arrow target; the current bookmark becomes the target's position; otherwise nothing changes |
| Keyboard.Navigator.HandleTabNavigation | src/modules/keyboard-shortcuts.js:687-752 | a non-Tab key is not handled; Tab has the Tab outcome; a card that gets focus on the page becomes the current bookmark |
| Keyboard.Navigator.KeyDown | src/modules/keyboard-shortcuts.js:880-1113 | decides as the dispatcher does. An arrow move makes the current bookmark the target card's position; with the menu closed it leaves the menu as it was. A Tab move onto a card outside the modals makes that card current, and any other Tab move keeps the current bookmark. An arrow move or Escape closes an open menu; the menu is otherwise left alone. |
| Keyboard.RecordedIndexIsTarget | src/modules/keyboard-shortcuts.js:667-670 | in a container of distinct cards, the recorded index is the target index itself |
| MainPage.BookmarkList.constructor | src/main.js:19 | the list starts empty |
| MainPage.BookmarkList.Collect | src/main.js:81-90 | appends one entry per bookmark below the node, in collection order |
| MainPage.BookmarkList.Sort | src/main.js:98-102 | the list is ordered newest first, is a permutation of the old one, keeps entries of equal recency in their order, and an ordered list is left unchanged |
| MainPage.BookmarkList.Load | src/main.js:92-102 | after loading, the list is ordered, holds exactly the collected entries of every root child, and keeps entries of equal recency in collection order |
| MainPage.BookmarkList.Delete | src/main.js:802-819 | whatever the old order, the list ends ordered and holds exactly the old entries without the deleted id; entries of equal recency keep their old relative order; when the old list was ordered it is the old list without that id, in its old order |
| MainPage.FirstEntryOf | src/main.js:416-421 | the position of the first entry with the id, or the length when there is none |
| MainPage.WithLastUsed | src/main.js:418 | setting `dateLastUsed` keeps the entry's id and folder, and a non-zero time becomes its recency |
| MainPage.MarkUsedEntries | src/main.js:414-422 | only the first entry with the id changes, to that entry used at the click time; ids and folders are kept, and without a match nothing changes |
| MainPage.BookmarkList.MarkUsed | src/main.js:414-422 | the loop over the list sets the first matching entry's `dateLastUsed` in place and stops |
| MainPage.ClickCanBreakOrder | src/main.js:438-446 | a click on an entry other than the first, newer than the first, leaves the list out of recency order, with no re-sort |
| MainPage.ContainsSearchTermGuarded | src/main.js:553-557 | this page's containsSearchTerm: false for an empty text or term, otherwise the module's test on the lower-cased term |
| MainPage.GuardedSearchFacts | src/main.js:553-557 | empty text or an empty term never matches; the term's case does not matter; on lower-case input it is the module's test |
| MainPage.GuardedIgnoresCaseModuleDoesNot | src/main.js:555 | "A" matches "a" here, but not in the module's containsSearchTerm, which does not lower-case the term |
| MainPage.GridMatches | src/main.js:219-232 | an entry is in the grid when the term is empty or matches its title or url, and, under an active filter, its parent id loosely equals the filter |
| MainPage.GridViewEntries | src/main.js:219-232 | the grid keeps exactly the entries that match the search and, under an active filter, sit in the filtered folder, in list order |
| MainPage.GridShowsAllUnfiltered | src/main.js:221-231 | no term and no filter shows the whole list |
| MainPage.GridIsRecencyOrdered | src/main.js:213-232 | the grid is in recency order |
| MainPage.GridPager.constructor | src/main.js:259-262 | batch 0, nothing rendered |
| MainPage.GridPager.LoadBatch | src/main.js:266-286 | renders the next batch of up to 100 entries after those rendered, keeping them, and advances the batch |
| MainPage.GridPager.OnScroll | src/main.js:290-298 | near the bottom, with entries left, loads one more batch; otherwise nothing changes |
| MainPage.RenderedOnce | src/main.js:270-284 | rendered positions are distinct and within the list, and once enough batches are loaded every entry is rendered |
| MainPage.ShowGridView | src/main.js:212-314 | re-sorts the list (stably, and leaving an ordered list unchanged) and shows the grid entries under their title. The first batch is rendered only when something matched. Scrolling is set up exactly when more than one batch matched. |
| MainPage.CacheHit | src/main.js:40-44 | the cache serves data that is present and younger than 5000 ms |
| MainPage.CacheHitFacts | src/main.js:40-44 | a hit needs data and an age under 5000 ms; an empty cache never hits |
| MainPage.BookmarkCache.constructor | src/main.js:23 | no data, timestamp 0 |
| MainPage.BookmarkCache.Get | src/main.js:40-53 | a hit returns the cached tree unchanged; a miss returns the fetched tree and caches it with the current time |
| MainPage.BookmarkCache.Clear | src/main.js:986 | the cache is emptied |
| MainPage.Refresh | src/main.js:981-992 | after clearing, the read always fetches and caches the fresh tree |
| MainPage.MainTitle | src/main.js:572-603 | this page's title: `Recent Bookmarks (n)` for a plain grid view, otherwise the module's title |
| MainPage.MainTitleCases | src/main.js:572-603 | with no search and no filter the title is `Recent Bookmarks (n)` in the grid and `Bookmarks (n)` in the folder view; otherwise it is the module's title |
| MainPage.MainOptions | src/main.js:840-866 | the page's options list only grows: the earlier options stay in front |
| MainPage.MainNodeOptions | src/main.js:840-862 | one node of the walk only appends: a titled folder's option and its sub-folders', or a bookmark's "Unknown Folder" option for a new parent id |
| MainPage.MainOptionsUnknownsAreNew | src/main.js:853-862 | an "Unknown Folder" option is added only for a parent id that no earlier option has as its value |
| MainPage.EveryParentHasOption | src/main.js:853-862 | after the walk, every bookmark's non-empty parent id is the value of some option |
| MainPage.FolderEntriesAsModule | src/main.js:840-852 | leaving out the "Unknown Folder" options, the page's list is the module's populateFilterOptions list |
| MainPage.UnknownEntryIsNoFolder | src/main.js:853-862 | a bookmark contributes no folder option |
| MainPage.MainFilterList.constructor | src/main.js:20 | the list starts with the "All" option |
| MainPage.MainFilterList.Populate | src/main.js:840-866 | the forEach appends the walk's options, folders and unknown parents, to the list |
| MainPage.MainFilterList.PopulateFolder | src/main.js:852 | the recursive call on a folder's children appends their options |
| MainPage.FirstWithId | src/main.js:1141 | the first node whose id is `===` the filter, or none |
| MainPage.FindFolderById | src/main.js:1140-1149 | findFolderById: the node itself when its id is the filter, otherwise the first find among its children, depth-first |
| MainPage.FindFolderIsFirstInPreorder | src/main.js:1140-1149 | findFolderById returns the first node in pre-order whose id is the filter id, or null |
| LegacyFilter.LegacyFilterList.constructor | bookmarks.js:361 | the list starts with the "All" option |
| LegacyFilter.LegacyFilterList.Populate | bookmarks.js:364-386 | appends exactly the module's populateFilterOptions list |
| LegacyFilter.LegacyFilterList.PopulateNode | bookmarks.js:367-383 | one node of the forEach appends a titled folder's option, then its sub-folders' options; a bookmark appends nothing |
| LegacyPage.LegacyListIsMainWithoutUnknowns | bookmarks.js:361-388 | the legacy list is the new page's list without its "Unknown Folder" options |
| LegacyPage.Style | bookmarks.js:318-356 | each element is shown with the given style when the test holds and hidden otherwise, and keeps its id |
| LegacyPage.SelectedPath | bookmarks.js:330 | `selectedFolderIdValue && computeId(selectedFolderIdValue)`: a falsy id is kept, a truthy one becomes its option id |
| LegacyPage.ContainerShown | bookmarks.js:332-341 | a folder container is shown for "All", when its id holds `-<id>-`, or when it is part of the selected option id |
| LegacyPage.MarkedShown | bookmarks.js:343-357 | a no-folder list or heading is shown for "All" or when its id holds `-<id>-` |
| LegacyPage.HideBookmarks | bookmarks.js:309-358 | "All" shows everything. Otherwise a container is shown when its id is on the filter's `-id-` path or inside the selected option's id. Other elements are shown only when their id is on that path. Ids never change. |
| LegacyPage.SelectedSubtreeShown | bookmarks.js:332-340 | selecting a folder shows every folder container below it |
| LegacyPage.AncestorContainerShown | bookmarks.js:330-340 | selecting a folder also shows the containers of its ancestors |
| LegacyPage.FolderViewTotal | bookmarks.js:510-520 | the sum of the item counts of the root children that produce a section |
| LegacyPage.ComputeFolderViewTotal | bookmarks.js:510-520 | the forEach over the root children adds up the item counts of the shown sections |
| LegacyPage.FolderViewTotalBound | bookmarks.js:510-520 | the folder-view total never exceeds the recursive count of the matching bookmarks |
| LegacyPage.FolderViewTotalUnfiltered | bookmarks.js:510-520 | without a filter, when every root child is a folder, the total is the recursive count |

## Left out

- The DOM, the `chrome.*` APIs, timers, the debounce of the search box, the theme, and the 1-second capture delay are not modelled. The browser's answers (the tree, the capture, the encoded sizes, the clock, whether storage failed) are parameters.
- `toLowerCase` and `\s` are modelled on ASCII letters and spaces, plus NBSP and BOM. Number parsing covers blank and decimal-digit strings.
- Keyboard: `event.target` is taken to be `document.activeElement`.
- Keyboard.Navigator.HandleMenuNavigation: the dispatcher never calls it, so `KeyDown` does not either.
- Keyboard.TabOutcome: with no focusable element the source indexes an empty list and throws; this is modelled as `TabCrash`.
- Keyboard.Navigator.HandleTabNavigation: `parseInt` of a missing `data-bookmark-index` (NaN) is not modelled; every card carries an integral index.
- MainPage.GridPager: the `isLoading` guard is left out, because `loadBatch` is synchronous and the guard can never be observed set.
- MainPage.BookmarkList.Sort: the sort works on a copy of the list, so the aliasing of `allBookmarks` and `sortedBookmarks` is not modelled. Both names refer to the one list in the source.
- MainPage.BookmarkList.MarkUsed: a click sets `dateLastUsed` with no re-sort, so the list can be out of order until the next sort (ClickCanBreakOrder); the current time is a parameter.
- LegacyPage.HideBookmarks: requires a number or string id. An undefined or null id makes the source throw on `selectedId.includes`.
- `highlightText`, `updateThumbnail`, the card and menu construction, the modals' save and delete flows, and the popup menu are DOM rendering and are not modelled.
- The folder view for an active filter (main.js:1138-1206) is modelled through `FindFolderById` and the counts only. Its rendering is not modelled.
- main.js:1172 refers to an undefined `bookmarkNode`; that branch is not modelled.
- Background.CompressImage: a FileReader that fails calls back with a null result; the model treats the read of the final blob as always succeeding.
- Thumbnail.Compressed: uses the corrected 0.1 floor (step 9, ten encodings at most). As written the loop stops one step later, so an image that never fits stores the eleventh encoding; that behaviour is stated by AsWrittenFloor and ExtraEncodeAsWritten.
- Thumbnail.Browser.CaptureScreenshot: uses the corrected listener test (`ListenerFires`, the popup's own tab) and the corrected floor through `Compressed`. As written any tab's completion fires the capture (ListenerIgnoresTab) and the floor is one step later.
- The `onCreated` listener of src/background.js (lines 97-125) is not modelled, nor is the tab opened on the action click.
- The context files are not part of this model: dist/, src/main-new.js, src/main-modular.js, src/keyboard-shortcuts.js and the popup, render, search, theme and view-mode modules.
- Background: quality is counted in exact twentieths. Repeated binary64 subtraction of 0.05 from 1 drifts downwards and first reaches 0.1 or less at the same step, 18.

## Findings

| source | as written | input that shows it | evidently intended | confidence | as-written member | corrected member |
|---|---|---|---|---|---|---|
| src/modules/thumbnail.js:80-84 | `compressionQuality -= 0.1` on binary64 drifts upwards. The ninth value is 0.10000000000000014, so `<= 0.1` first holds at about 1.4e-16, after ten subtractions. | an image whose JPEG never fits in 100 KB: eleven encodings, the last at quality near 0 | stop at quality 0.1: ten encodings at most | not executed | Thumbnail.ExtraEncodeAsWritten | Thumbnail.IntendedFloor |
| src/modules/thumbnail.js:20-26 | the listener's parameter `tabId` shadows the popup's tab id, so `tabId === tabId` always holds | another tab (id 7) completes loading while the popup's tab is 3: the popup window is captured one second later, possibly before its own page has finished loading | fire only when the popup's own tab completes | not executed | Thumbnail.ListenerIgnoresTab | Thumbnail.Browser.CaptureScreenshot |
