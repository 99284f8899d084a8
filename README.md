# organice core, modelled in Dafny

organice is an Org-mode editor that runs in the browser and as an Android app.
An Org file is held as a flat sequence of headers. Each header has an id, a
nesting level (its number of stars), an `opened` flag, a title line (TODO
keyword, title parts, tags), a description, planning items, property items and
a logbook. A header's *subtree* is the header together with the maximal run of
deeper headers that follows it. Almost everything the editor does to a file is
an operation on that sequence.

This project models the editor's core and proves what it promises:

- **The document model and its reducers** (`src/reducers/org.js`, with the
  lookups of `src/lib/org_utils.js`). This covers:
  - opening, toggling and selecting headers;
  - adding, removing and moving headers and subtrees;
  - shifting headers and subtrees left and right;
  - refiling within a file and across files;
  - progress cookies, checkbox lists, TODO-keyword cycling and capture placement;
  - table row and column edits;
  - bookmarks, splice reorders and file settings;
  - the dirty-file rule and the per-file inclusion rule;
  - the 200-result search budget.
- **The Org parser and serialiser** (`src/lib/parse_org.js`, `src/lib/export_org.js`),
  including the round trip `exportOrg(parseOrg(s)) == s` on plain files. Also
  the timestamp renderer.
- **The headline search matcher**, capture-template substitution and the choice
  of the initial capture sub-editor. Also word wrapping, keybinding defaults and
  their symbols, clock-time totals and header visibility.
- **The capture-template and saved-query list reducers** (`src/reducers/capture.js`,
  `src/reducers/query.js`).
- **The pure parts of the sync back-ends:**
  - `Link` header parsing (section 3 of RFC 8288);
  - project-URL splitting;
  - directory-listing filter, sort and conversion;
  - OneDrive URL composition.
- **The Android storage plugin** (`OrganiceSync.java`). The document provider is
  a map from URI to node.

Values the source passes around as Immutable.js structures are Dafny datatypes,
sequences and maps. Reducers that rebind `state` step by step are methods with
loops, each proved against a specification function. The `getNextId` counter and
the Android document store are classes. The header-visibility computation of
`HeaderList` fills two arrays in place. Immutable's reading of index -1 as the
last element is modelled wherever a missing id reaches `set`, `get` or `delete`.

The editor's file record is `OrgFiles.OrgFile`: headers, keyword sets and the
selection, narrowing and table-cell state. What `parseOrg` returns is the
smaller `ParseOrg.ParsedFile`, headers and keyword sets only.

One module per source concern:

| file | module(s) | source |
|---|---|---|
| wrappers.dfy, strings.dfy, seq_ops.dfy | Wrappers, Strings, SeqOps | JavaScript string and list operations |
| org_types.dfy, org_file.dfy | OrgTypes, OrgFiles | the header and file records |
| org_utils.dfy | OrgUtils | src/lib/org_utils.js and the helpers org.js imports with it |
| parse_links.dfy, parse_org.dfy, export_org.dfy | Links, ParseOrg, ExportOrg | src/lib/parse_org.js, src/lib/export_org.js |
| header_view.dfy, header_tree.dfy, header_edit.dfy, refile.dfy | HeaderView, HeaderTree, HeaderEdit, Refile | header reducers of src/reducers/org.js |
| cookies.dfy, checkboxes.dfy, todo_state.dfy | Cookies, Checkboxes, TodoState | cookies, checkboxes and `advanceTodoState` |
| tables.dfy, capture_insert.dfy | Tables, CaptureInsert | table edits, `insertCapture` |
| org_state.dfy, search_headers.dfy, settings_lists.dfy | OrgState, SearchHeaders, SettingsLists | state-level handlers, `searchHeaders`, src/reducers/capture.js and query.js |
| header_list.dfy | HeaderList | src/components/OrgFile/components/HeaderList/index.js |
| headline_filter.dfy, capture_parsing.dfy, capture_substitution.dfy | HeadlineFilter, CaptureParsing, CaptureSubstitution | src/lib |
| text_wrap.dfy, keybindings.dfy, shortcut_row.dfy, timestamps.dfy, clocking.dfy | TextWrap, Keybindings, ShortcutRow, Timestamps, Clocking | src/util/misc.js, src/lib, ShortcutRow |
| link_header.dfy, directory_listing.dfy, sync_clients.dfy | LinkHeader, DirectoryListing, ProjectUrl, GitLabClient, GiteaClient, DropboxClient, OneDriveClient | src/sync_backend_clients |
| android_store.dfy | AndroidStore, AndroidClient | OrganiceSync.java, android_sync_backend_client.js |

## Model

| member | source | states |
|---|---|---|
| OrgTypes.Levels | src/lib/org_utils.js:14-16 | the nesting level of every header, position by position |
| OrgTypes.Ids | src/lib/org_utils.js:1-3 | the id of every header, position by position |
| OrgUtils.IndexOfHeaderWithId | src/lib/org_utils.js:1-3 | the answer is -1 or an index inside the list whose header has the id |
| OrgUtils.IndexOfHeaderWithIdFrom | src/lib/org_utils.js:1-3 | the scan from `from` answers -1 or an index at or after `from` whose header has the id |
| OrgUtils.IndexOfHeaderWithIdFromFirst | src/lib/org_utils.js:1-3 | the scan answers -1 exactly when no header at or after `from` has the id, and otherwise no earlier header in range has it |
| OrgUtils.IndexOfHeaderWithIdFirst | src/lib/org_utils.js:1-3 | `indexOfHeaderWithId` is -1 exactly when the id is absent, otherwise the first index holding it |
| OrgUtils.IndexOfUniqueId | src/lib/org_utils.js:1-3 | with unique ids, looking up the id of the header at `i` gives back `i` |
| OrgUtils.HeaderWithId | src/lib/org_utils.js:5-7 | a present id yields the first header with that id; an absent id yields the last header (Immutable's `get(-1)`), or nothing for an empty list |
| OrgUtils.RunEnd | src/lib/org_utils.js:14-16 | the run ends inside the list, at the end or at the first header at or above the level |
| OrgUtils.RunEndDeeper | src/lib/org_utils.js:14-16 | every header the run passes over is strictly deeper than the level |
| OrgUtils.SubtreeEnd | src/lib/org_utils.js:9-23 | the subtree of header `i` ends after `i`, at the end or at a header no deeper than `i` |
| OrgUtils.SubtreeEndDeeper | src/lib/org_utils.js:9-23 | every header strictly inside the subtree is deeper than its root |
| OrgUtils.NumSubheaders | src/reducers/org.js:950 | the subheader count fits in the list after the header |
| OrgUtils.SubheadersOfHeaderWithId | src/lib/org_utils.js:9-23 | the subheaders are never longer than the list |
| OrgUtils.SubheadersAreMaximalRun | src/lib/org_utils.js:9-23 | for a present id, the subheaders are exactly the maximal run of strictly deeper headers right after it; for an absent id, the run deeper than the last header taken from the start of the list; none for an empty list |
| OrgUtils.SubheadersOfIndex | src/lib/org_utils.js:9-23 | with unique ids, the subheaders of the header at `i` are its subtree `headers[i+1..SubtreeEnd]` |
| OrgUtils.NumSubheadersOfIndex | src/reducers/org.js:950 | with unique ids, `numSubheadersOfHeaderWithId` counts the subtree |
| OrgUtils.LastBefore | src/lib/org_utils.js:29-39 | the backward scan answers the nearest earlier index shallower than the bound, with nothing shallower between; none when no earlier header is shallower |
| OrgUtils.DirectParentIndex | src/lib/org_utils.js:25-42 | a direct parent is exactly one level up and no header between is shallower than the child; when there is none, every candidate one level up is cut off by a shallower header; the first header has none |
| OrgUtils.DirectParentIdOfHeaderWithId | src/lib/org_utils.js:25-42 | the loop answers nothing for an absent id, and otherwise the id of the direct parent exactly when `DirectParentIndex` finds one |
| OrgUtils.ParentIndex | src/reducers/org.js:116 | the parent is the nearest earlier shallower header; none exactly when no earlier header is shallower |
| OrgUtils.ParentIdOfHeaderWithId | src/reducers/org.js:116-120 | nothing for a missing or absent id; otherwise the id of the header `ParentIndex` finds, exactly when it finds one |
| OrgUtils.ParentContainsChild | src/reducers/org.js:116 | the header lies inside the subtree of its parent |
| OrgUtils.PreviousSiblingIndex | src/reducers/org.js:469 | the previous sibling is the nearest earlier header on the same level with only deeper headers between; none exactly when every same-level candidate is cut off by a shallower header |
| OrgUtils.OpenDirectParent | src/reducers/org.js:525 | exactly the direct parent (if any) gets opened; ids and levels are unchanged |
| HeaderView.LastBeforeAgrees | src/lib/org_utils.js:29-39 | the backward scan depends only on the nesting levels |
| HeaderView.LevelsDetermineTree | src/lib/org_utils.js:9-23 | two header lists with the same levels have the same subtree ends, parents and previous siblings |
| HeaderView.RunEndAgreesOnLevels | src/lib/org_utils.js:14-16 | the end of a deeper run depends only on the nesting levels |
| HeaderView.VisibilityAgrees | src/components/OrgFile/components/HeaderList/index.js:20-40 | whether a header is displayed depends only on the levels and on the `opened` flags of the headers before it |
| HeaderView.ClosedHidesSubtree | src/components/OrgFile/components/HeaderList/index.js:31-39 | a closed header hides every header of its subtree |
| HeaderView.FirstIsVisible | src/components/OrgFile/components/HeaderList/index.js:23-28 | the first header has no parent and is always displayed |
| HeaderView.SetOpened | src/reducers/org.js:81-86 | only the `opened` flag of header `k` changes, to `v`; ids and levels are kept |
| HeaderView.OpenHeader | src/reducers/org.js:81-86 | `openHeader` opens the header with the id and changes nothing else in the file |
| HeaderView.Toggled | src/reducers/org.js:88-106 | a toggle keeps every id and level |
| HeaderView.ToggleHeaderOpened | src/reducers/org.js:88-106 | an opened header the view is narrowed to is left alone; otherwise the result is `Toggled`: the header's flag flips and, when asked, a closed-down header closes its whole subtree |
| HeaderView.ToggleClosedOpens | src/reducers/org.js:88-106 | toggling a closed header is `openHeader` |
| HeaderView.ToggleTwice | src/reducers/org.js:88-106 | toggling twice without recursive closing restores the headers |
| HeaderView.ToggleClosedHides | src/reducers/org.js:88-106 | closing an opened header hides every header of its subtree |
| HeaderView.ToggleOpenedShows | src/reducers/org.js:88-106 | opening a closed, displayed header displays each of its children |
| HeaderView.OpenAncestorsAsWritten | src/reducers/org.js:112-124 | the as-written ancestor walk, which stops at a parent whose id is 0, keeps ids and levels |
| HeaderView.OpenAncestors | src/reducers/org.js:112-124 | the ancestor walk with an explicit null test keeps ids and levels |
| HeaderView.OpenAncestorsOnlyOpens | src/reducers/org.js:112-124 | every header is either unchanged or opened, and an opened header stays opened |
| HeaderView.OpenAncestorsShows | src/reducers/org.js:112-124 | after opening all ancestors the header is displayed |
| HeaderView.AsWrittenLeavesHidden | src/reducers/org.js:117 | a closed top header with id 0 over a child: the as-written walk leaves the child hidden, the corrected one shows it |
| HeaderView.ParentStep | src/reducers/org.js:117-121 | one step of the walk: the parent id is found at the parent's index, and opening the parent does not change whom the walk visits next |
| HeaderView.OpenParentsOfHeaderAsWritten | src/reducers/org.js:112-124 | the `while` loop as written: an absent id changes nothing; otherwise the headers become `OpenAncestorsAsWritten` |
| HeaderView.OpenParentsOfHeader | src/reducers/org.js:112-124 | the loop with the null test: an absent id changes nothing; otherwise the headers become `OpenAncestors` and the header is displayed |
| HeaderView.NextSiblingIsInverse | src/reducers/org.js:394-406 | `j` is the next sibling of `i` exactly when `i` is the previous sibling of `j` |
| HeaderView.SelectNextSiblingHeader | src/reducers/org.js:394-406 | selects the header right after the subtree when it is on the same level, and otherwise changes nothing |
| HeaderView.NextVisibleIndex | src/reducers/org.js:408-424 | the next displayed header after `from` with no displayed header between; none when nothing after is displayed |
| HeaderView.PreviousVisibleIndex | src/reducers/org.js:426-437 | the nearest displayed header before `i`; none when nothing before is displayed |
| HeaderView.NextVisibleIs | src/reducers/org.js:408-424 | any displayed header with only hidden headers between is the one found |
| HeaderView.PreviousVisibleIs | src/reducers/org.js:426-437 | any earlier displayed header with only hidden headers between is the one found |
| HeaderView.NextThenPreviousVisible | src/reducers/org.js:408-437 | stepping to the next displayed header and back returns to a displayed header |
| HeaderView.PreviousThenNextVisible | src/reducers/org.js:408-437 | stepping to the previous displayed header and forward returns to a displayed header |
| HeaderView.SelectNextVisibleHeader | src/reducers/org.js:408-424 | headers are kept; with no selection the first header is selected; otherwise the next displayed header, or nothing changes |
| HeaderView.MissingSelectionSelectsFirst | src/reducers/org.js:415-417 | a selection whose id is gone (index -1) moves to the first header |
| HeaderView.SelectPreviousVisibleHeader | src/reducers/org.js:426-437 | headers are kept; the previous displayed header is selected, or nothing changes |
| HeaderTree.ShiftedLevel | src/reducers/org.js:2267-2277 | moving left lowers the level by one but never below 1; moving right raises it by one |
| HeaderTree.ShiftRange | src/reducers/org.js:2257-2265 | exactly the headers in the range get the shifted level; every other header and every id is kept |
| HeaderTree.ShiftedTree | src/reducers/org.js:2257-2265 | shifting keeps the ids and keeps the file well formed (and only then) |
| HeaderTree.ShiftTreeNestingLevel | src/reducers/org.js:2257-2265 | the `forEach` over the subheaders shifts the header and its `count` subheaders, giving `ShiftedTree` |
| HeaderTree.CookiesAfterMove | src/reducers/org.js:2241-2245 | refreshing the cookies of the old parent and of the new parent keeps the file well formed, its ids and its levels |
| HeaderTree.UpdateCookies | src/reducers/org.js:2241-2245 | the two cookie updates in order give `CookiesAfterMove` |
| HeaderTree.ShiftRightThenLeft | src/reducers/org.js:2267-2277 | shifting a range right and then left restores the headers |
| HeaderTree.ShiftLeftThenRight | src/reducers/org.js:2267-2277 | shifting left and then right restores the headers exactly when every header in the range was at level 2 or deeper (the clamp at 1 loses information) |
| HeaderTree.RunEndAgrees | src/lib/org_utils.js:14-16 | runs over headers that agree on "deeper than the level" end at the same place |
| HeaderTree.ShiftSubtreeRightKeepsSubtree | src/reducers/org.js:549-561 | shifting a subtree right keeps its extent |
| HeaderTree.SubtreeCount | src/lib/org_utils.js:9-23 | the header, its subheaders and nothing else make up its subtree |
| HeaderTree.MoveHeaderLeft | src/reducers/org.js:506-516 | `moveHeaderLeft` shifts only the header left, then refreshes the cookies of its old parent and of its new parent |
| HeaderTree.MoveHeaderRight | src/reducers/org.js:518-529 | `moveHeaderRight` shifts only the header right, opens its new direct parent and refreshes the cookies |
| HeaderTree.MoveSubtreeLeft | src/reducers/org.js:531-547 | a top-level header is left alone; otherwise the header and its subtree shift left and the cookies are refreshed |
| HeaderTree.MoveSubtreeRight | src/reducers/org.js:549-561 | the header and its subtree shift right, the cookies are refreshed and the new direct parent is opened |
| HeaderList.HasContentByNext | src/components/OrgFile/components/HeaderList/index.js:12-38 | a header has content exactly when its raw description is non-empty or the next header is deeper |
| HeaderList.Writer | src/components/OrgFile/components/HeaderList/index.js:31-39 | the turn that last set a header's `displayed` flag is an earlier header whose subtree contains it |
| HeaderList.WriterFindsParent | src/components/OrgFile/components/HeaderList/index.js:31-39 | when only headers at least as deep lie between, that last writer is the nearest earlier shallower header |
| HeaderList.RunIsSubtree | src/components/OrgFile/components/HeaderList/index.js:30-35 | the inner loop's `break` stops exactly at the end of the header's subtree |
| HeaderList.PendingStep | src/components/OrgFile/components/HeaderList/index.js:38 | after a turn, a header inside the turn's subtree holds `opened && displayed` of that turn's header, and any other header keeps its flag |
| HeaderList.PendingAtTurn | src/components/OrgFile/components/HeaderList/index.js:20-28 | at its own turn a header's flag is "displayed" exactly when it has no parents or an earlier turn showed it |
| HeaderList.MarkSubtree | src/components/OrgFile/components/HeaderList/index.js:30-39 | the inner loop stops at the subtree end, sets every header inside to `opened && displayed` of the turn's header and marks the turn's header as having content when its subtree is not empty |
| HeaderList.TurnKeeps | src/components/OrgFile/components/HeaderList/index.js:20-39 | one turn of the `forEach` keeps the invariant that the flags so far agree with `IsVisible` and `HasContent` |
| HeaderList.Turn | src/components/OrgFile/components/HeaderList/index.js:20-39 | the body of the `forEach` advances the invariant by one header |
| HeaderList.HeaderRenderData | src/components/OrgFile/components/HeaderList/index.js:12-40 | after the `forEach`, each header's `displayed` equals "every ancestor is opened" and `hasContent` equals `HasContent` |
| HeaderList.Color | src/components/OrgFile/components/HeaderList/index.js:42-56 | level 0 has no colour (index -1); levels 1 to 8 take the eight colours in order; deeper levels repeat every eight |
| HeaderList.ShownIndices | src/components/OrgFile/components/HeaderList/index.js:47-49 | the kept indices are ascending, each displayed, and every displayed index is kept |
| HeaderList.Render | src/components/OrgFile/components/HeaderList/index.js:9-68 | the rendered list holds exactly the displayed headers in order, each with its colour, its `hasContent` and whether it is the selected header |
| HeaderEdit.UniqueIdsOfCut | src/reducers/org.js:449-451 | cutting a block out of headers with unique ids keeps the ids unique |
| HeaderEdit.DeleteRun | src/reducers/org.js:449-451 | the `_.times` loop of deletes at one index removes exactly `count` headers starting there |
| HeaderEdit.RemovedAt | src/reducers/org.js:439-463 | removing a header keeps the file well formed |
| HeaderEdit.CutSubtree | src/reducers/org.js:441-455 | cutting the subtree out keeps the file well formed |
| HeaderEdit.RemovedAtShape | src/reducers/org.js:439-463 | the header and exactly its subtree are gone, the ids before and after are kept in order, no header keeps the removed id, and the view is no longer narrowed to it |
| HeaderEdit.RemoveHeader | src/reducers/org.js:439-463 | `removeHeader` gives `RemovedAt` at the header's index (subtree cut, narrowing cleared, parent's cookies refreshed) |
| HeaderEdit.SwapBlocks | src/reducers/org.js:465-481 | swapping two adjacent blocks keeps the length |
| HeaderEdit.SwapBlocksAt | src/reducers/org.js:465-481 | every position of the swapped list holds the element `Source` names |
| HeaderEdit.SwapBlocksPermutes | src/reducers/org.js:465-481 | swapping two adjacent blocks is a permutation |
| HeaderEdit.SwapStep | src/reducers/org.js:475-478 | one `insert`/`delete` round moves the last element of the back block to the front and advances the loop invariant |
| HeaderEdit.SwapAdjacentBlocks | src/reducers/org.js:475-478 | the `_.times` loop of `insert(p, get(h + n))` and `delete(h + n + 1)` swaps the front block with the back block of `n + 1` headers |
| HeaderEdit.MoveUpAt | src/reducers/org.js:465-481 | moving up keeps the number of headers |
| HeaderEdit.MoveDownAt | src/reducers/org.js:483-504 | moving down keeps the number of headers |
| HeaderEdit.MovesPermute | src/reducers/org.js:465-504 | moving a header up or down is a permutation of the headers |
| HeaderEdit.PreviousSiblingSubtree | src/reducers/org.js:469-472 | the previous sibling's subtree ends right at the header |
| HeaderEdit.MoveUpThenDown | src/reducers/org.js:465-504 | moving a header with a previous sibling up and then moving it down restores the headers |
| HeaderEdit.MovedUpSwapsBack | src/reducers/org.js:483-504 | after moving up, moving down at the new position swaps the same two blocks back |
| HeaderEdit.SwappedSiblings | src/reducers/org.js:465-481 | after the swap the two subtrees are again siblings with the same extents, in the other order |
| HeaderEdit.SwapBack | src/reducers/org.js:465-504 | swapping the blocks back restores the list |
| HeaderEdit.MoveDownThenUp | src/reducers/org.js:465-504 | moving a header with a next sibling down and then up restores the headers |
| HeaderEdit.MoveDownSwaps | src/reducers/org.js:483-504 | with a next sibling, moving down swaps the header's subtree with the sibling's |
| HeaderEdit.MovedDownSwapsBack | src/reducers/org.js:465-481 | after moving down, the header's previous sibling is the sibling it passed |
| HeaderEdit.PreviousSiblingAfterSubtree | src/reducers/org.js:487-491 | a same-level header right after the subtree has the header as its previous sibling |
| HeaderEdit.SwapBlocksKeepsUniqueIds | src/reducers/org.js:465-504 | swapping blocks keeps the ids unique |
| HeaderEdit.MovesKeepUniqueIds | src/reducers/org.js:465-504 | moving up or down keeps the ids unique |
| HeaderEdit.MoveHeaderUp | src/reducers/org.js:465-481 | `moveHeaderUp` gives `MoveUpAt` at the header's index and keeps the file well formed |
| HeaderEdit.MoveHeaderDown | src/reducers/org.js:483-504 | `moveHeaderDown` gives `MoveDownAt` at the header's index and keeps the file well formed |
| HeaderEdit.AddedAtShape | src/reducers/org.js:356-377 | exactly one header is inserted, right after the subtree, everything else keeps its place, and narrowing to the header is cleared |
| HeaderEdit.AddedAtWellFormed | src/reducers/org.js:356-377 | with a fresh id the file stays well formed |
| HeaderEdit.UniqueIdsOfInsert | src/reducers/org.js:374-376 | inserting a header with a fresh id keeps the ids unique |
| HeaderEdit.SpacedPrefix | src/reducers/org.js:364-368 | a keyword followed by a space identifies the keyword when keywords hold no spaces |
| HeaderEdit.AddedHeaderTitle | src/reducers/org.js:364-368 | the new header takes the fresh id and the level, is closed and empty, and (for keywords without spaces) carries the same todo keyword with an empty title; a header whose keyword is absent or empty gives a new header with no keyword (`undefined`) |
| HeaderEdit.AddHeader | src/reducers/org.js:356-377 | `addHeader` gives `AddedAt` with the counter's next id, and the counter advances by one |
| Refile.IndexOfValue | src/reducers/org.js:573 | `List.indexOf` answers -1 or an index inside the list |
| Refile.IndexOfValueFromFinds | src/reducers/org.js:573 | the scan answers the first position holding the value |
| Refile.IndexOfValueFromMisses | src/reducers/org.js:573 | the scan answers -1 when no later position holds the value |
| Refile.IndexOfValueUnique | src/reducers/org.js:573 | among headers with unique ids, `indexOf` of the header at `p` is `p` |
| Refile.MoveItemInFile | src/reducers/org.js:570-576 | for an index inside the list, moving within one list keeps its length |
| Refile.MoveItemAcrossFiles | src/reducers/org.js:578-584 | the source list loses one header (for an index inside it) and the target list gains one |
| Refile.MoveItem | src/reducers/org.js:588 | the in-file variant answers the same list twice; the lengths change as for the chosen variant |
| Refile.InFileInRange | src/reducers/org.js:570-576 | within a file: delete at `fromIndex`, then insert right after where the target item now sits |
| Refile.AcrossInRange | src/reducers/org.js:578-584 | across files: delete from the source list, insert right after the target item in the target list |
| Refile.Block | src/reducers/org.js:604-637 | the first `k` headers of the subtree, re-indented under the target, are `k` headers |
| Refile.BlockEntries | src/reducers/org.js:604-637 | the re-indented block keeps the ids and gives each header its level minus the source level plus the target level plus one |
| Refile.BlockDistinct | src/reducers/org.js:604-637 | the block's ids are distinct |
| Refile.BlockSnoc | src/reducers/org.js:617-637 | one more loop round appends the next re-indented subheader |
| Refile.InFileStage | src/reducers/org.js:617-637 | a loop stage within one file keeps the number of headers |
| Refile.StageBefore | src/reducers/org.js:617-637 | a loop stage for a target before the source keeps the number of headers |
| Refile.StageAfter | src/reducers/org.js:617-637 | a loop stage for a target after the subtree keeps the number of headers |
| Refile.StageBeforeStart | src/reducers/org.js:604-637 | before any move, the stage is the original headers |
| Refile.StageAfterStart | src/reducers/org.js:604-637 | before any move, the stage is the original headers |
| Refile.SwapKeepsIds | src/reducers/org.js:604-637 | exchanging a block for one with the same ids keeps the multiset of ids |
| Refile.InFileStageMultiset | src/reducers/org.js:604-637 | every stage within a file keeps the multiset of ids |
| Refile.UniqueIdsByMultiset | src/reducers/org.js:604-637 | the same multiset of ids keeps them unique |
| Refile.InFileStageIds | src/reducers/org.js:604-637 | every stage within a file keeps the ids and their uniqueness |
| Refile.UniqueIdsOfRemove | src/reducers/org.js:572 | deleting a header keeps the ids unique |
| Refile.IndexAfterRemove | src/reducers/org.js:571-573 | after the delete, the target item sits one place earlier exactly when it came after the deleted one |
| Refile.StageShapeBefore | src/reducers/org.js:617-637 | for a target before the source, one loop round moves the next subheader to right after the block placed so far |
| Refile.StageShapeAfter | src/reducers/org.js:617-637 | for a target after the subtree, one loop round moves the next subheader from the front of what is left to right after the block placed so far |
| Refile.StageBeforeUnique | src/reducers/org.js:617-637 | stages before keep the ids unique |
| Refile.StageAfterUnique | src/reducers/org.js:617-637 | stages after keep the ids unique |
| Refile.PositionsBefore | src/reducers/org.js:630-633 | at each stage before, the next subheader and the target are found where the loop expects them |
| Refile.PositionsAfter | src/reducers/org.js:630-633 | at each stage after, the next subheader sits at the source index and the target `k` places earlier |
| Refile.MoveWithin | src/reducers/org.js:570-576 | a move within a file from `f` to the target's slot gives the expected list twice |
| Refile.InFileStepBefore | src/reducers/org.js:617-637 | one `moveItem` call of the loop takes a stage before to the next one |
| Refile.InFileStepAfter | src/reducers/org.js:617-637 | one `moveItem` call of the loop takes a stage after to the next one |
| Refile.RefiledWithin | src/reducers/org.js:586-656 | refiling within one file keeps the number of headers, the multiset of ids and their uniqueness |
| Refile.ParentIsPrevious | src/reducers/org.js:600-603 | a header right after a shallower one has it as its parent |
| Refile.BlockPlaced | src/reducers/org.js:600-637 | a block placed right after the target, rooted one level deeper with deeper headers after its root, has the target as the root's parent |
| Refile.BlockRoot | src/reducers/org.js:600-603 | the root of the moved block keeps its id and sits one level under the target; the rest sits deeper |
| Refile.PlacementBefore | src/reducers/org.js:586-656 | for a target before the source: the subtree is cut out and the re-indented block is inserted right after the target |
| Refile.PlacementAfter | src/reducers/org.js:586-656 | for a target after the subtree: the same, at the target's position in the cut list |
| Refile.CutKeepsTarget | src/reducers/org.js:586-656 | cutting the subtree out keeps the target, now found at its shifted index |
| Refile.RefiledWithinShape | src/reducers/org.js:586-656 | the result is the list without the subtree, with the re-indented block right after the target |
| Refile.RefiledWithinPlacement | src/reducers/org.js:586-656 | after the refile the target is kept, its first child is the moved header one level deeper, and the moved subtree lies under it |
| Refile.AcrossStage | src/reducers/org.js:617-637 | after `k` rounds across files the source lost `k` headers and the target gained `k` |
| Refile.AcrossStageStart | src/reducers/org.js:604-637 | before any move, the stage is the two original lists |
| Refile.UniqueIdsOfBlockInsert | src/reducers/org.js:578-584 | inserting a block of fresh, distinct ids keeps the target's ids unique |
| Refile.AcrossStageIds | src/reducers/org.js:617-637 | every stage across files keeps both lists' ids unique |
| Refile.AcrossPositions | src/reducers/org.js:630-633 | at each stage across, the next subheader sits at the source index and the target where it was |
| Refile.AcrossStep | src/reducers/org.js:617-637 | one `moveItemAcrossFiles` call of the loop takes a stage across to the next one |
| Refile.RefiledAcross | src/reducers/org.js:586-656 | refiling across files keeps both lists' ids unique; the source loses the subtree and the target gains exactly as many headers |
| Refile.AcrossKeepsIds | src/reducers/org.js:586-656 | across files, no id is lost or added overall |
| Refile.AcrossPlacement | src/reducers/org.js:586-656 | the subtree leaves the source; in the target, everything up to the target header and everything after it are kept and the re-indented block sits right after the target |
| Refile.RefiledFileWithin | src/reducers/org.js:586-656 | refiling within a file, cookies included, keeps the file well formed and its multiset of ids |
| Refile.RefiledFilesAcross | src/reducers/org.js:586-656 | refiling across files, cookies included, keeps both files well formed and the total number of headers |
| Refile.TakesStep | src/reducers/org.js:626-637 | a round whose `indexOfHeaderWithId` lookups find the moved header and the target gives the loop's next stage |
| Refile.LoopStepBefore | src/reducers/org.js:617-637 | every round before takes the stage to the next one |
| Refile.LoopStepAfter | src/reducers/org.js:617-637 | every round after takes the stage to the next one |
| Refile.LoopStepAcross | src/reducers/org.js:617-637 | every round across takes the stage to the next one |
| Refile.LoopStep | src/reducers/org.js:617-637 | every round of the `forEach` takes stage `k` to stage `k + 1` |
| Refile.StageStart | src/reducers/org.js:604-637 | stage 0 is the original lists |
| Refile.StageEnd | src/reducers/org.js:604-637 | the last stage is `RefiledWithin` (twice) within a file and `RefiledAcross` across files |
| Refile.HeaderStep | src/reducers/org.js:600-614 | moving the re-indented source header is stage 1 |
| Refile.SubheaderEntry | src/reducers/org.js:617 | the subheader at `index` is the header at `i + index + 1`, deeper than the source |
| Refile.SubheaderPass | src/reducers/org.js:617-637 | one round on the subheader at `index` takes stage `index + 1` to the next |
| Refile.MoveSubheaders | src/reducers/org.js:617-637 | the `forEach` over the subheaders ends at the last stage |
| Refile.MoveSubtree | src/reducers/org.js:586-637 | the whole move gives `RefiledWithin` within a file and `RefiledAcross` across files |
| Refile.RefileSubtree | src/reducers/org.js:586-656 | `refileSubtree` on the file map gives `Refiled`: the moved headers, then the cookies of both paths refreshed |
| Refile.RefileWithinFile | src/reducers/org.js:586-656 | within a file it gives `RefiledFileWithin` |
| Refile.RefileAcrossFiles | src/reducers/org.js:586-656 | across files it gives `RefiledFilesAcross` |
| Cookies.CountTrue | src/reducers/org.js:127 | the done count is at most the total, 0 when nothing is done and the total when everything is |
| Cookies.Percentage | src/reducers/org.js:135 | no value (JavaScript's NaN) exactly when there are no children; otherwise the floor of `100 * done / total`, at most 100 |
| Cookies.UpdateCookieParts | src/reducers/org.js:126-140 | every title part is kept in place |
| Cookies.CookiePartsMeaning | src/reducers/org.js:126-140 | each part keeps its kind; a fraction cookie becomes `[done, total]`, a percentage cookie the percentage, and every other part is unchanged |
| Cookies.TodoKeywordSetForKeyword | src/reducers/org.js:160-162 | the first keyword set that holds the keyword, or the first set when none does |
| Cookies.FindSet | src/reducers/org.js:160-162 | the scan from `from` answers the first set holding the keyword, or the first set |
| Cookies.KeywordCompletionStates | src/reducers/org.js:156-163 | one state per child with a todo keyword; none exactly when no child has one |
| Cookies.CheckboxItems | src/reducers/org.js:168-171 | only checkbox items are kept |
| Cookies.CheckboxesOf | src/reducers/org.js:167-171 | exactly the checkbox items of the list parts are collected |
| Cookies.CheckboxCompletionStates | src/reducers/org.js:172 | one state per item, true exactly when the item is checked |
| Cookies.ChildrenIn | src/reducers/org.js:147-154 | the direct children of a range are no more than the range |
| Cookies.ChildrenInWitness | src/reducers/org.js:147-154 | every collected child is a header of the range with no shallower header before it in the range |
| Cookies.ChildrenInHas | src/reducers/org.js:147-154 | every header of the range with no shallower header before it is collected |
| Cookies.ChildrenInRun | src/reducers/org.js:147-154 | a child and its subtree add exactly that child |
| Cookies.SkipSubheaders | src/reducers/org.js:152-153 | `i += subheaderSubheaders.size` jumps to the end of the child's subtree |
| Cookies.CollectStep | src/reducers/org.js:148-154 | one loop round pushes the child and keeps the loop invariant |
| Cookies.DirectChildren | src/reducers/org.js:147-154 | the `for` loop collects exactly the direct children |
| Cookies.SubheaderBounds | src/lib/org_utils.js:9-23 | the subheaders form a closed range of the headers |
| Cookies.CookieTarget | src/reducers/org.js:177-183 | the updated header lies inside the list (for an absent id, Immutable's index -1: the last header) |
| Cookies.SetTitleCookies | src/reducers/org.js:177-183 | writing the cookies keeps the headers' number, ids, levels and keyword sets |
| Cookies.CookiesUpdated | src/reducers/org.js:142-184 | updating the cookies keeps the file well formed, its ids and its levels |
| Cookies.UpdateCookiesOfHeaderWithId | src/reducers/org.js:142-184 | the method gives `CookiesUpdated` |
| Cookies.CookiesUpdatedBy | src/reducers/org.js:156-183 | the states come from the children's keywords, or from the header's checkboxes when no child has a keyword, and only the target's title cookies are written |
| Cookies.CookiesTouchOnlyTarget | src/reducers/org.js:177-183 | every header but the target is unchanged, the target keeps all but its title, and the rest of the file is unchanged |
| Cookies.DirectChildrenAreChildren | src/reducers/org.js:147-154 | a header is a direct child of `t` exactly when it lies in `t`'s subtree with no shallower header before it |
| Cookies.CookieChildIsChild | src/reducers/org.js:147-154 | every collected child has `t` as its parent |
| Cookies.ChildIsCookieChild | src/reducers/org.js:147-154 | every header whose parent is `t` is collected |
| Cookies.CookieBoundsOfPresentId | src/reducers/org.js:143-146 | for a present id, the target is the header and the range is its subtree |
| Cookies.UpdateCookiesOfParentOfHeaderWithId | src/reducers/org.js:186-193 | a header without a (truthy) parent id leaves the file unchanged; otherwise the parent's cookies are updated |
| OrgState.SaveBookmark | src/reducers/org.js:1738-1745 | nothing (a missing context list, on which the source throws) exactly when the context has no list; otherwise only that context's list changes, to `Saved` |
| OrgState.DeleteBookmark | src/reducers/org.js:1747-1751 | nothing exactly when the context has no list; otherwise only that context's list changes, to `Deleted` |
| OrgState.SavedShape | src/reducers/org.js:1738-1745 | a saved bookmark comes first, appears once, and is followed by the other bookmarks in order, at most ten entries in all |
| OrgState.SaveIdempotent | src/reducers/org.js:1738-1745 | saving the same bookmark twice is saving it once |
| OrgState.DeletedShape | src/reducers/org.js:1747-1751 | a deleted bookmark is gone, a list of at most ten loses only that bookmark, and deleting a freshly saved new bookmark restores the list |
| OrgState.ReorderTagsPermutes | src/reducers/org.js:1356-1366 | without a (truthy) selection nothing changes; otherwise the selected header's tags are permuted (moved element lands at the target index) and nothing else changes |
| OrgState.ReorderPropertyListPermutes | src/reducers/org.js:1368-1380 | without a (truthy) header id nothing changes; otherwise the header's property list is permuted and nothing else changes |
| OrgState.AffectedFilesRule | src/reducers/org.js:1986-2001 | no file is affected exactly when the action is not dirtying; a refile affects the source and target paths, a capture its template's file or else the viewed path, and every other dirtying action the viewed path |
| OrgState.MarkDirty | src/reducers/org.js:1971-1974 | the loop marks every listed path dirty and leaves every other file's flag as it was |
| OrgState.DirtyAfterAction | src/reducers/org.js:1970-1974 | a non-dirtying action changes no flag; otherwise exactly the affected files are marked dirty |
| OrgState.SettingForPath | src/reducers/org.js:1509 | a found setting is one whose `path` is the file's path; none found exactly when no setting has that path |
| OrgState.IncludedFiles | src/reducers/org.js:1506-1528 | every file is kept with its headers when `Included` holds and with none otherwise |
| OrgState.IncludedFilesRule | src/reducers/org.js:1506-1528 | the viewed file is always included; a file with a setting follows the setting's value; a static file without a setting is excluded; any other file follows `includeByDefault` |
| SettingsLists.IndexOfSettingWithId | src/reducers/query.js:6-7 | -1 exactly when no setting has the id; otherwise the first setting that has it |
| SettingsLists.Resolved | src/reducers/query.js:30 | Immutable's index resolution: an index inside the list is itself, a negative one counts from the end, anything else addresses nothing |
| SettingsLists.TargetOfId | src/reducers/capture.js:33-37 | a present id addresses its first setting; an absent id (index -1) addresses the last setting, or nothing in an empty list |
| SettingsLists.GetSetPath | src/reducers/capture.js:33-37 | after `setIn` on a field path, reading the path gives the new value |
| SettingsLists.SetPathKeepsOthers | src/reducers/capture.js:33-37 | `setIn` keeps the id and every other field |
| SettingsLists.SetFieldPathValue | src/reducers/org.js:1721-1725 | the list keeps its length |
| SettingsLists.SetFieldPathValueAt | src/reducers/capture.js:33-37 | only the addressed setting changes, by `SetPath` |
| SettingsLists.PushItem | src/reducers/capture.js:39-45 | pushing an item keeps the number of settings |
| SettingsLists.DeleteItem | src/reducers/capture.js:47-53 | deleting an item keeps the number of settings |
| SettingsLists.PushThenDeleteItem | src/reducers/query.js:33-47 | pushing `''` appends it to the addressed setting's list only, and deleting the new last item restores the settings |
| SettingsLists.DeleteSetting | src/reducers/query.js:65-69 | for a present id, exactly the first setting with that id is removed |
| SettingsLists.DeleteSettingMissingId | src/reducers/org.js:1732-1736 | for an absent id, `delete(-1)` removes the last setting |
| SettingsLists.DeleteSettingRemovesId | src/reducers/capture.js:71-75 | with unique ids, deleting a present id removes one setting and no setting keeps the id |
| SettingsLists.Reordered | src/reducers/query.js:79-82 | a reorder is a permutation that puts the moved setting at the target index (clamped to the end) |
| SettingsLists.Appended | src/reducers/query.js:9-25 | a missing list becomes a list of one; otherwise the new setting is appended and the others are kept |
| SettingsLists.EmptySettingsShape | src/reducers/query.js:16-22 | a new query holds one `search` config with an empty query; a new capture template holds one empty header path and is available in all files |
| SettingsLists.PushQueryConfig | src/reducers/query.js:49-55 | adding a query config keeps the number of queries |
| SettingsLists.DeleteQueryConfig | src/reducers/query.js:57-63 | the as-written removal keeps the number of queries |
| SettingsLists.DeleteQueryConfigUsesQueryIndex | src/reducers/query.js:60-62 | as written, the config removed is the one at the QUERY's own index `k`, not the chosen config |
| SettingsLists.DeleteQueryConfigAt | src/reducers/query.js:57-63 | the corrected removal keeps the number of queries |
| SettingsLists.DeleteQueryConfigAtRemovesChosen | src/reducers/query.js:57-63 | the corrected removal deletes exactly the chosen config of the addressed query and changes no other query |
| SettingsLists.SetQueryFieldPathValueAsWritten | src/reducers/query.js:27-31 | as written, the id is read from `action.templateId`, which query actions do not carry, so index -1 edits the last query |
| SettingsLists.QueryEditHitsLastQuery | src/reducers/query.js:28 | editing the first of two queries changes the second and leaves the first alone |
| SettingsLists.QueryEditCorrected | src/reducers/query.js:27-31 | looking up `queryId` edits exactly the addressed query |
| SearchHeaders.AcceptsIsMatch | src/reducers/org.js:1533 | the filter keeps exactly the headers `isMatch` accepts |
| SearchHeaders.SearchHeadersIn | src/reducers/org.js:1530-1557 | the method, loop included, gives `Search` |
| SearchHeaders.SearchOtherFiles | src/reducers/org.js:1544-1555 | the `forEach` over the other files gives `SearchFrom` |
| SearchHeaders.SearchFromKeeps | src/reducers/org.js:1544-1555 | results already found for the viewed file or files not yet visited are kept |
| SearchHeaders.SearchFromAdds | src/reducers/org.js:1544-1555 | only visited files get an entry |
| SearchHeaders.SearchFromBudget | src/reducers/org.js:1544-1555 | the other files together get at most the remaining budget |
| SearchHeaders.SearchFromMatches | src/reducers/org.js:1546-1552 | every entry written is a prefix of that file's matches |
| SearchHeaders.SearchViewedFirst | src/reducers/org.js:1536-1541 | the viewed file always gets an entry: its first 200 matches |
| SearchHeaders.SearchWithinLimit | src/reducers/org.js:1530-1557 | all files together get at most 200 headers |
| SearchHeaders.SearchOthersArePrefixes | src/reducers/org.js:1544-1555 | every other file's entry is a prefix of its matches, in order |
| ParseOrg.IdCounter.constructor | src/lib/parse_org.js:3-6 | the counter starts at 0 |
| ParseOrg.IdCounter.GetNextId | src/lib/parse_org.js:3-6 | `nextId++`: answers the current value and advances the counter by one |
| ParseOrg.AllKeywords | src/lib/parse_org.js:80-82 | the keywords of all sets, and nothing else |
| ParseOrg.FirstKeyword | src/lib/parse_org.js:83 | none exactly when no keyword followed by a space starts the line; otherwise the first such keyword in order |
| ParseOrg.LastWord | src/lib/parse_org.js:92-93 | the last space-separated piece: a suffix without spaces |
| ParseOrg.NonEmpty | src/lib/parse_org.js:96 | exactly the non-empty pieces |
| ParseOrg.ExtractTagsAsWritten | src/lib/parse_org.js:89-98 | as written: a title that does not end in `:` once trimmed is left untagged; the cut is at most the title's length |
| ParseOrg.TrailingSpaceCutsTitle | src/lib/parse_org.js:95 | as written, `Foo :a: ` gives the title `Foo :` and the tag `a`: the cut counts from the untrimmed end |
| ParseOrg.ExtractTags | src/lib/parse_org.js:89-98 | corrected: tags are non-empty and hold no `:` or space; an untagged title is kept; a cut title followed by the tag group gives back the trimmed title |
| ParseOrg.ExtractTagsAgree | src/lib/parse_org.js:89-98 | the as-written and corrected tag extractions find the same tags, and agree entirely on titles without trailing white space |
| ParseOrg.ParseTitleLineSpec | src/lib/parse_org.js:79-103 | the keyword is absent (`undefined`, distinct from any string, the empty keyword included) exactly when no keyword of the sets followed by a space starts the line; a found keyword starts the line; only a non-empty one is cut off; tags are non-empty words without `:` or spaces |
| ParseOrg.ParseTitleLineUntagged | src/lib/parse_org.js:79-103 | for a line that does not end in `:`, there are no tags and the keyword, a space and the raw title give back the line |
| ParseOrg.KeywordThenBody | src/lib/parse_org.js:85-87 | a line starting with a keyword and a space is that keyword, a space and the rest |
| ParseOrg.NewHeader | src/lib/parse_org.js:105-119 | the new header is `NewHeaderWithTitle` with the counter's id, and the counter advances by one |
| ParseOrg.LevelOf | src/lib/parse_org.js:129-132 | the level never exceeds the line's length |
| ParseOrg.LevelOfSpec | src/lib/parse_org.js:129-132 | the level is the index of the first space, or the length when there is none; a header line has level at least 1 |
| ParseOrg.RemoveBars | src/lib/parse_org.js:139-141 | exactly the words other than `\|` are kept |
| ParseOrg.BeforeParen | src/lib/parse_org.js:143-146 | the regex group before `(`: a prefix of the word without `(`, the whole word when it has none |
| ParseOrg.StripAnnotations | src/lib/parse_org.js:142-148 | each keyword is its word cut before `(` |
| ParseOrg.ConfigLineKeywords | src/lib/parse_org.js:137-153 | a `#+TODO: ` line gives a non-default set with the line as its config line, no completed keywords, and keywords without `(` or white space |
| ParseOrg.AppendDescription | src/lib/parse_org.js:156-157 | only the last header changes |
| ParseOrg.WithDescriptions | src/lib/parse_org.js:166-168 | every header gets the parsed links of its raw description |
| ParseOrg.PrefixStep | src/lib/parse_org.js:127-160 | parsing one more line is one step of the `forEach` |
| ParseOrg.ParseLine | src/lib/parse_org.js:127-160 | one loop round advances the parse state by one line and the counter by the headers added |
| ParseOrg.ParseLines | src/lib/parse_org.js:127-160 | the loop gives the parse of all lines and uses one id per header |
| ParseOrg.ParseOrg | src/lib/parse_org.js:121-173 | `parseOrg` gives `ParseOrgSpec` and uses one id per header |
| ParseOrg.CountHeaderLinesMono | src/lib/parse_org.js:128 | the count of header lines grows with the prefix |
| ParseOrg.StepCounts | src/lib/parse_org.js:127-160 | a step adds a header exactly for a header line, and adds a keyword set only for a config line before any header |
| ParseOrg.StepHeaders | src/lib/parse_org.js:127-160 | a header line pushes a new header; any other line after a header extends the last description |
| ParseOrg.StepShape | src/lib/parse_org.js:127-160 | a step keeps the ids and levels of the headers so far and gives a new header the line's level and the next id |
| ParseOrg.StarLinesStep | src/lib/parse_org.js:127-160 | the correspondence between header lines and headers extends by one line |
| ParseOrg.HeaderPerStarLine | src/lib/parse_org.js:127-160 | the `k`-th header comes from the `k`-th line starting with `*`, with its level and the `k`-th id |
| ParseOrg.DescriptionsStartNewLine | src/lib/parse_org.js:156-157 | every raw description is empty or starts with a line break |
| ParseOrg.FirstHeaderIndex | src/lib/parse_org.js:136 | the index of the first header line, with no header line before it |
| ParseOrg.FirstHeaderFrom | src/lib/parse_org.js:136 | the first header line at or after `i` |
| ParseOrg.HeaderCount | src/lib/parse_org.js:127-160 | there is one header per line starting with `*` |
| ParseOrg.SetsBeforeHeaders | src/lib/parse_org.js:136-154 | before the first header there are no headers and the sets are those of the config lines so far |
| ParseOrg.SetsKept | src/lib/parse_org.js:136 | once a header exists, the sets no longer change |
| ParseOrg.SetsAfterHeader | src/lib/parse_org.js:136 | after the first header, the sets are those read before it |
| ParseOrg.ConfigLinesBecomeSets | src/lib/parse_org.js:136-154 | the sets are exactly those of the config lines before the first header |
| Links.CloseBracket | src/lib/parse_org.js:11 | the first `]` at or after `from`, with none before it, or the end |
| Links.MatchAt | src/lib/parse_org.js:11 | a match at `p` is a link at least four characters long inside the string |
| Links.MatchAfterUri | src/lib/parse_org.js:11 | a match closed after the uri is a link inside the string |
| Links.MatchAfterTitle | src/lib/parse_org.js:11 | a match closed after the title is a link inside the string |
| Links.NextMatch | src/lib/parse_org.js:13-29 | `exec` from `lastIndex` finds a match at or after it, at least four characters long, inside the string |
| Links.NextMatchMatches | src/lib/parse_org.js:13-29 | the match found is a match of the regex at its index |
| Links.NextMatchLeftmost | src/lib/parse_org.js:13-29 | no match starts before the one found, or anywhere when none is found |
| Links.MatchesFromStep | src/lib/parse_org.js:13-29 | the global scan continues from the end of each match |
| Links.MatchesOrdered | src/lib/parse_org.js:13-29 | the matches are in order and do not overlap |
| Links.MatchStep | src/lib/parse_org.js:14-30 | one `exec` round advances `lastIndex` and keeps the loop invariant |
| Links.CollectMatches | src/lib/parse_org.js:12-30 | the `while` loop collects exactly the leftmost non-overlapping matches |
| Links.AssembleStep | src/lib/parse_org.js:34-60 | one round of the `forEach` emits the text before the match and the link, and keeps the invariant |
| Links.AssembleUnfold | src/lib/parse_org.js:34-60 | assembling from match `k` emits it and continues after it |
| Links.AssembleParts | src/lib/parse_org.js:32-70 | the `forEach` and the trailing text give `Assemble` |
| Links.ParseLinksLoop | src/lib/parse_org.js:9-72 | `parseLinks` gives `ParseLinks` |
| Links.RenderAppend | src/lib/parse_org.js:9-72 | rendering parts back to text distributes over concatenation |
| Links.MatchRenders | src/lib/parse_org.js:11 | a matched link renders back to exactly the matched text (when `][]]` does not occur) |
| Links.PlainLinkRenders | src/lib/parse_org.js:15-20 | `[[uri]]` renders back to itself |
| Links.TitledLinkRenders | src/lib/parse_org.js:21-28 | `[[uri][title]]` renders back to itself |
| Links.EmittedRenders | src/lib/parse_org.js:37-59 | the text and link emitted for a match render back to the source from the start index to the match's end |
| Links.AssembleRenders | src/lib/parse_org.js:32-70 | the parts render back to the description from the start index on |
| Links.MatchesFaithful | src/lib/parse_org.js:11 | every match renders back to its text |
| Links.MatchesAreMatches | src/lib/parse_org.js:13-29 | every collected match is a match of the regex |
| Links.ParseLinksRoundTrip | src/lib/parse_org.js:9-72 | rendering the parsed parts gives back the description (when `][]]` does not occur) |
| Links.AssembleTextsNonEmpty | src/lib/parse_org.js:38-44 | no emitted text part is empty |
| Links.ParseLinksTextsNonEmpty | src/lib/parse_org.js:38-69 | `parseLinks` never emits an empty text part |
| Links.LinkWithoutTitle | src/lib/parse_org.js:15-20 | `[[u]]` parses to a single link with uri `u` and no title |
| Links.LinkWithTitle | src/lib/parse_org.js:21-28 | `[[u][t]]` parses to a single link with uri `u` and title `t` |
| ExportOrg.ConfigLines | src/lib/export_org.js:4-6 | the config line of each set, in order |
| ExportOrg.ExportHeaders | src/lib/export_org.js:9-30 | one exported text per header, in order |
| ExportOrg.ExportHeaderStars | src/lib/export_org.js:11 | an exported header starts with `nestingLevel` stars and a space |
| ExportOrg.ExportHeaderTitle | src/lib/export_org.js:13-16 | after the stars and the space come the keyword (if any) or else the raw title |
| ExportOrg.ExportHeaderEnd | src/lib/export_org.js:18-27 | the header ends with its tags as `:a:b:` (when it has any), a line break when the description does not start with one, and the raw description |
| ExportOrg.ExportHeaderShape | src/lib/export_org.js:9-30 | stars, space, then the keyword or the raw title, as above |
| ExportOrg.ExportConfigBlock | src/lib/export_org.js:2-7 | default sets add no config block; otherwise the export starts with the config lines and a blank line |
| ExportOrg.HeaderLineSplit | src/lib/parse_org.js:128-133 | a header line is its stars, a space and its title |
| ExportOrg.HeadLineOfTitle | src/lib/export_org.js:11-16 | an untagged header's head line is its stars, a space and the keyword-prefixed title |
| ExportOrg.ParseTitleLineRendersUntagged | src/lib/parse_org.js:79-103 | for an untagged line, the parsed keyword and raw title render the line back |
| ExportOrg.HeadLineOfParsedLine | src/lib/parse_org.js:105-119 | a header parsed from an untagged header line exports back to that line |
| ExportOrg.ExportAppendDescription | src/lib/export_org.js:22-27 | appending a description line appends a line break and the line to the export |
| ExportOrg.ExportPushHeader | src/lib/export_org.js:30 | pushing a header appends a line break and its line |
| ExportOrg.ExportPushDescription | src/lib/export_org.js:22-30 | extending the last description appends a line break and the line |
| ExportOrg.ExportFirstLine | src/lib/export_org.js:9-30 | the first header line exports back to itself |
| ExportOrg.ExportHeaderStep | src/lib/export_org.js:9-30 | a parsed header line exports back to itself after the rest |
| ExportOrg.LastDescriptionNewLine | src/lib/parse_org.js:156-157 | the last header's description is empty or starts with a line break |
| ExportOrg.ExportLine | src/lib/export_org.js:9-30 | each further line of the file is exported back after the lines before it |
| ExportOrg.ExportPrefix | src/lib/export_org.js:9-30 | the headers parsed from the first `n` lines export back to those lines |
| ExportOrg.ExportIgnoresDescriptionParts | src/lib/export_org.js:22-27 | the export reads only the raw description |
| ExportOrg.HeaderFirstKeepsDefaults | src/lib/parse_org.js:136 | a file that starts with a header reads no keyword sets |
| ExportOrg.ParsedLinesExport | src/lib/export_org.js:1-33 | the headers parsed from such a file's lines export back to the lines |
| ExportOrg.ParseExportRoundTrip | src/lib/export_org.js:1-33 | for a file that starts with a header and has well-formed, untagged header lines, exporting the parsed file gives back the text |
| Tables.LocateCell | src/reducers/org.js:726 | a located position holds a table cell with the id |
| Tables.LocateCellFinds | src/reducers/org.js:726 | a cell with the id anywhere in a table of the headers is located |
| Tables.EmptyCell | src/reducers/org.js:744 | a new cell has the fresh id and no contents |
| Tables.EmptyRowLike | src/reducers/org.js:744 | a new row has as many cells as the first row, all empty |
| Tables.ColumnAdded | src/reducers/org.js:769-784 | adding a column keeps the number of rows |
| Tables.ColumnRemoved | src/reducers/org.js:786-803 | removing a column keeps the number of rows |
| Tables.ColumnMovedLeft | src/reducers/org.js:837-860 | moving a column left keeps the number of rows |
| Tables.ColumnMovedRight | src/reducers/org.js:862-885 | moving a column right keeps the number of rows; defined on the first row's last column whatever the other rows hold |
| Tables.RowAddedShape | src/reducers/org.js:735-748 | exactly one empty row, shaped like the first, is inserted right after the selected row |
| Tables.RowAddedThenRemoved | src/reducers/org.js:735-767 | removing the added row restores the rows |
| Tables.ColumnAddedThenRemoved | src/reducers/org.js:769-803 | adding a column puts an empty cell right after the selected one in every row, and removing it restores the rows |
| Tables.ColumnRemovedShape | src/reducers/org.js:786-803 | every row loses the cell at the column when it has one and keeps its id |
| Tables.RowMovedDownSwaps | src/reducers/org.js:805-820 | the last row stays; any other row trades places with the next |
| Tables.RowMovedUpSwaps | src/reducers/org.js:822-835 | the first row stays; any other row trades places with the previous |
| Tables.RowMovesInverse | src/reducers/org.js:805-835 | moving a row down and then up restores the rows, and a move is a permutation |
| Tables.ColumnMovedLeftSwaps | src/reducers/org.js:837-860 | column 0 stays; otherwise every non-empty row swaps the column with the one to its left |
| Tables.ColumnMovedRightSwaps | src/reducers/org.js:862-885 | on or past the first row's last column the rows stay; otherwise every non-empty row swaps the column with the one to its right |
| Tables.LastColumnStays | src/reducers/org.js:869-870 | on a rectangular table the last column may be moved right, and the rows are unchanged |
| Tables.CellValueSetShape | src/reducers/org.js:887-899 | only the edited cell changes: it keeps its id and takes the new raw contents and their parse |
| Tables.Selected | src/reducers/org.js:735-748 | the selected cell is located in a table |
| Tables.WithRowsReplaces | src/reducers/org.js:723-733 | writing rows replaces exactly that table and re-renders its header's raw description, keeping the selection |
| Tables.AddNewTableRow | src/reducers/org.js:735-748 | without a (truthy) selection nothing changes; otherwise the table gets one more row and the selection stays |
| Tables.RemoveTableRow | src/reducers/org.js:750-767 | without a selection nothing changes; otherwise the table loses the selected row and the selection is cleared |
| Tables.AddNewTableColumn | src/reducers/org.js:769-784 | without a selection nothing changes; otherwise a column is added after the selected one |
| Tables.RemoveTableColumn | src/reducers/org.js:786-803 | without a selection nothing changes; otherwise the column is removed and the selection is cleared |
| Tables.MoveTableRowDown | src/reducers/org.js:805-820 | without a selection nothing changes; otherwise the table's rows are `RowMovedDown` |
| Tables.MoveTableRowUp | src/reducers/org.js:822-835 | without a selection nothing changes; otherwise the rows are `RowMovedUp` |
| Tables.MoveTableColumnLeft | src/reducers/org.js:837-860 | without a selection nothing changes; otherwise the rows are `ColumnMovedLeft` |
| Tables.MoveTableColumnRight | src/reducers/org.js:862-885 | without a selection nothing changes; otherwise the rows are `ColumnMovedRight` |
| Tables.UpdateTableCellValue | src/reducers/org.js:887-899 | the located table gets `CellValueSet` and the selection stays |
| Checkboxes.WithItem | src/reducers/org.js:1023 | writing an item at a path keeps the number of description parts |
| Checkboxes.PrefixIsItemPath | src/reducers/org.js:959 | every ancestor path of an item path is an item path |
| Checkboxes.WithItemAt | src/reducers/org.js:1023 | after `setIn` the path holds the new item |
| Checkboxes.WithItemBelow | src/reducers/org.js:959-1006 | rewriting an item without changing its contents keeps every item below it |
| Checkboxes.WithItemAbove | src/reducers/org.js:959-1006 | rewriting an item changes only the contents of its ancestors |
| Checkboxes.NextCheckboxState | src/reducers/org.js:1019-1023 | the next state is never partial and is checked exactly when the item was unchecked |
| Checkboxes.ChildStates | src/reducers/org.js:966-974 | one state per direct checkbox child |
| Checkboxes.ParentState | src/reducers/org.js:976-982 | checked exactly when every child is checked (also with no children), unchecked exactly when there are children and all are unchecked, partial exactly when the children are mixed |
| Checkboxes.UpdateParentsBelow | src/reducers/org.js:958-1007 | updating the parents changes nothing at or below the toggled item |
| Checkboxes.UpdateParentsSettles | src/reducers/org.js:958-1007 | every checkbox ancestor on an unbroken chain takes the state and the cookies its children give |
| Checkboxes.UpdateParentsStops | src/reducers/org.js:960-963 | the recursion stops at a parent item that is not a checkbox |
| Checkboxes.AdvanceCheckboxState | src/reducers/org.js:1009-1037 | the file stays well formed with the same ids; an item with direct checkbox children leaves the file unchanged |
| Checkboxes.AdvanceCheckboxStateToggles | src/reducers/org.js:1009-1037 | otherwise the item's state advances, its checkbox ancestors settle, the header's title carries the cookies `CookiesUpdated` counts on the new description, its raw description is re-rendered and every other header is unchanged |
| CaptureInsert.InsertCapturePosition | src/reducers/org.js:930-954 | with no header path: index 0 (prepend) or `headers.size + 1` (append) at level 1; a path that finds no header: no position; otherwise one level under the target, right after it (prepend) or after its subtree |
| CaptureInsert.InsertCapture | src/reducers/org.js:901-928 | no position leaves the file unchanged; otherwise exactly one header is added and the file stays well formed |
| CaptureInsert.CaptureAtFileEdge | src/reducers/org.js:930-939 | with no header path the capture becomes a level-1 header at the start or at the end (`insert(size + 1)` appends) |
| CaptureInsert.SameLevelsSameTree | src/lib/org_utils.js:25-42 | headers with the same levels have the same direct parents and subtrees |
| CaptureInsert.InsertedAsChild | src/reducers/org.js:948-953 | a header one level deeper inserted right after the target or after its subtree is a direct child of the target |
| CaptureInsert.InsertCaptureUnder | src/reducers/org.js:920-925 | under a target, the capture is inserted and the target's cookies are refreshed |
| CaptureInsert.CaptureUnderTarget | src/reducers/org.js:901-954 | under a target, the captured header sits at the computed index, one level deeper, as a direct child of the target |
| CaptureParsing.Kinds | src/lib/capture_template_parsing.js:29-43 | one line kind per line of the text |
| CaptureParsing.DetermineInitialSubEditor | src/lib/capture_template_parsing.js:13-60 | the loop over the lines yields the sub-editor `InitialSubEditor` defines |
| CaptureParsing.KindsAt | src/lib/capture_template_parsing.js:34 | each line is classified on its own trimmed text |
| CaptureParsing.PlanningLine | src/lib/capture_template_parsing.js:50-56 | a line is a scheduled line exactly when its trimmed text starts with `SCHEDULED:`, a deadline line exactly when it starts with `DEADLINE:` and not `SCHEDULED:` |
| CaptureParsing.DrawerState | src/lib/capture_template_parsing.js:32-43 | the loop's drawer flag at the cursor line equals "a `:PROPERTIES:` line opened a drawer that no `:END:` before the cursor line closed" |
| CaptureParsing.NewlinesAppend | src/lib/capture_template_parsing.js:21 | newline counts add up over concatenation |
| CaptureParsing.NoNewlines | src/lib/capture_template_parsing.js:21-24 | no newline is counted exactly when the text has none |
| CaptureParsing.LineCount | src/lib/capture_template_parsing.js:29 | `split('\n')` gives one more line than there are newlines |
| CaptureParsing.CursorLineExists | src/lib/capture_template_parsing.js:50 | the cursor's line number is always a line of the text |
| CaptureParsing.TitleIffFirstLine | src/lib/capture_template_parsing.js:15-26 | the title editor is chosen exactly when there is no cursor or no newline precedes it |
| CaptureParsing.FocusAfterTitle | src/lib/capture_template_parsing.js:45-59 | below the title: property list inside an open drawer, else scheduled, deadline or description by the cursor line |
| CaptureParsing.EndLineIsInside | src/lib/capture_template_parsing.js:37-41 | the cursor on the `:END:` line of a drawer is still inside the drawer |
| CaptureParsing.BlankIffWhitespace | src/lib/capture_template_parsing.js:77 | a trimmed text is empty exactly when every character is whitespace |
| CaptureParsing.BlankTemplate | src/lib/capture_template_parsing.js:76-84 | a blank template gives empty text and the title editor |
| CaptureSubstitution.Builtins | src/lib/capture_template_substitution.js:10-18 | seven built-in substitutions |
| CaptureSubstitution.KeyIndex | src/lib/capture_template_substitution.js:21 | the position of the key in the table, or -1 exactly when no entry has it |
| CaptureSubstitution.Assign | src/lib/capture_template_substitution.js:21 | assigning a key grows the table by at most one entry |
| CaptureSubstitution.CustomKeyed | src/lib/capture_template_substitution.js:20-22 | after the custom variables the table still has distinct keys |
| CaptureSubstitution.SubstituteTemplateVariables | src/lib/capture_template_substitution.js:5-34 | the replacement loop yields `Substituted`: empty for an empty template, else every entry replaced in insertion order, the first `%?` removed and its index returned |
| CaptureSubstitution.AssignLookup | src/lib/capture_template_substitution.js:21 | after `substitutions[k] = v` the key reads `v` and every other key reads what it did |
| CaptureSubstitution.KeyIndexSnoc | src/lib/capture_template_substitution.js:21 | a new key is appended at the end; an existing key keeps its place |
| CaptureSubstitution.KeyIndexUpdate | src/lib/capture_template_substitution.js:21 | overwriting a value keeps every key's place (object key order) |
| CaptureSubstitution.CustomOverrides | src/lib/capture_template_substitution.js:20-22 | each custom variable `k` is looked up as `%k` with its own value |
| CaptureSubstitution.BuiltinsKept | src/lib/capture_template_substitution.js:10-22 | built-ins not named by a custom variable keep their values, and the seven built-ins stay first in order |
| CaptureSubstitution.ReplaceAllUnmatched | src/lib/capture_template_substitution.js:27 | a global replace of an absent pattern changes nothing |
| CaptureSubstitution.FirstCharAbsent | src/lib/capture_template_substitution.js:27 | a text without the pattern's first character does not contain the pattern |
| CaptureSubstitution.ReplaceAllSplice | src/lib/capture_template_substitution.js:27 | the global replace rewrites the first occurrence and continues after it |
| CaptureSubstitution.ReplaceAllJoin | src/lib/capture_template_substitution.js:27 | replacing the separator of joined parts joins them with the value |
| CaptureSubstitution.OrderMatters | src/lib/capture_template_substitution.js:25-28 | on `%%t`, replacing `%t` before `%T` gives `Z` while the other order gives `%T`: the table's order is observable |
| CaptureSubstitution.EmptyTemplate | src/lib/capture_template_substitution.js:6-8 | an empty template gives `['', null]` |
| CaptureSubstitution.CursorMarker | src/lib/capture_template_substitution.js:30-33 | no cursor exactly when the substituted text has no `%?`; otherwise the index is the first `%?` and exactly it is cut out |
| TodoState.TargetIndex | src/reducers/org.js:251 | the written index is always a header of the file (a missing id reads as the last one) |
| TodoState.AdvanceTodoState | src/reducers/org.js:243-285 | the result is `Advanced`; with neither a header id nor a selection the state is unchanged |
| TodoState.CurrentSet | src/reducers/org.js:253-254 | a header without a keyword (`undefined`, listed by no set) gets the first keyword set |
| TodoState.NextKeywordSteps | src/reducers/org.js:256-258 | in a set of distinct keywords, the empty one included, each is followed by the next and the last by `''`; an absent keyword (`indexOf(undefined)` is -1) is followed by the first, and so is `''` when the set does not list it |
| TodoState.AdvanceCycles | src/reducers/org.js:256-258 | advancing n times from an absent keyword gives the n-th keyword of any set of distinct keywords, then `''`; when the set does not list `''` the next step is the first keyword again |
| TodoState.WithKeywordChangesOnlyKeyword | src/reducers/org.js:265-276 | writing the keyword changes only that header's keyword and keeps ids and levels |
| TodoState.AdvanceSetsNextKeyword | src/reducers/org.js:243-277 | the header gets the next keyword of its set, and a header without a keyword the first keyword of the first set; ids are kept, and headers other than the target and its parent are unchanged |
| TodoState.IndexOfSameIds | src/lib/org_utils.js:14-16 | finding a header by id depends only on the ids |
| TodoState.ParentIdSameIds | src/lib/org_utils.js:25-42 | the parent id depends only on ids and levels |
| Clocking.CompleteEntries | src/lib/clocking.js:21 | the kept entries are complete and no more than were given |
| Clocking.OnlyCompleteEntriesCount | src/lib/clocking.js:4-15 | an entry without both start and end adds 0: the total is the sum over the complete entries, and an empty logbook gives 0 |
| Clocking.CountedClocks | src/lib/clocking.js:18-22 | the filtered clocks are no more than the entries |
| Clocking.CountedClocksExactly | src/lib/clocking.js:18-22 | an entry is counted exactly when it is complete and one of its two timestamps passes every filter |
| Clocking.NoFiltersCountAll | src/lib/clocking.js:17-28 | with no filters the filtered total equals the unfiltered total |
| Clocking.FilteredWithinTotal | src/lib/clocking.js:17-28 | with non-negative durations the filtered total lies between 0 and the total |
| Clocking.SubheadersOfHeaderWithIndex | src/lib/clocking.js:38 | the subheaders of a header lie after it |
| Clocking.Totals | src/lib/clocking.js:37-44 | one pair of totals per header |
| Clocking.OwnTotals | src/lib/clocking.js:34-36 | one own total per header |
| Clocking.OwnFilteredTotals | src/lib/clocking.js:52-54 | one own filtered total per header |
| Clocking.UpdateHeadersTotalTimeLoggedRecursive | src/lib/clocking.js:30-46 | a missing header list stays missing; otherwise every header is kept, one for one |
| Clocking.UpdateHeadersTotalFilteredTimeLoggedRecursive | src/lib/clocking.js:48-64 | a missing header list stays missing; otherwise every header is kept, one for one |
| Clocking.TotalsOfHeader | src/lib/clocking.js:30-46 | each header changes only in its totals: its own logbook total, and that plus its subheaders' own totals |
| Clocking.LeafTotals | src/lib/clocking.js:37-44 | a header without subheaders has a recursive total equal to its own |
| Clocking.RecursiveAtLeastOwn | src/lib/clocking.js:37-44 | with non-negative durations the recursive total is at least the own total |
| Clocking.OwnNonNegative | src/lib/clocking.js:4-15 | non-negative durations sum to a non-negative total |
| Clocking.FilteredTotalsOfHeader | src/lib/clocking.js:48-64 | each header changes only in its filtered totals: its own filtered total, and that plus its subheaders' |
| HeadlineFilter.MatchIsConjunction | src/lib/headline_filter.js:6-32 | a header matches exactly when every group of the filter matches it, whatever order the kinds come in |
| HeadlineFilter.GroupsCons | src/lib/headline_filter.js:15-22 | each kind's groups are collected in filter order |
| HeadlineFilter.SameGroupsSameMatch | src/lib/headline_filter.js:6-32 | filters with the same groups match the same headers (order and repetition do not matter) |
| HeadlineFilter.EmptyFilterMatchesAll | src/lib/headline_filter.js:28-31 | a filter with no tag, text or property group matches every header |
| HeadlineFilter.ExcludeIgnored | src/lib/headline_filter.js:15-22 | flipping a group's `exclude` flag does not change the match |
| HeadlineFilter.TagMatchIsExact | src/lib/headline_filter.js:24-28 | a one-word tag group matches exactly when the word is one of the tags |
| HeadlineFilter.CaseSensitiveMatch | src/lib/headline_filter.js:11-29 | a one-word case-sensitive group matches exactly when the word occurs in `todoKeyword rawTitle` |
| HeadlineFilter.UpperCaseWordNeverMatches | src/lib/headline_filter.js:30 | an ignore-case word with an upper-case letter never matches (only the headline is lower-cased) |
| HeadlineFilter.PropertyMatch | src/lib/headline_filter.js:26-27 | a property group matches exactly when some property has the name and a value containing one of the words |
| Keybindings.NamedKeybindings | src/lib/keybindings.js:18-22 | thirteen pairs, keyed by the default bindings' names in order |
| Keybindings.ActionedKeybindings | src/lib/keybindings.js:24-28 | thirteen pairs, keyed by the default bindings' actions in order |
| Keybindings.CustomOverridesDefault | src/lib/keybindings.js:18-28 | both lists bind a binding to the custom keys stored under its display name, else to its default keys |
| Keybindings.NoCustomGivesDefaults | src/lib/keybindings.js:1-16 | with no custom bindings the lists are the defaults |
| Keybindings.UnknownNamesIgnored | src/lib/keybindings.js:18-28 | custom entries under no default's name change nothing |
| ShortcutRow.Replacement | src/components/KeyboardShortcutsEditor/components/ShortcutRow/index.js:11-25 | every replaced name is non-empty |
| ShortcutRow.ReplaceNameAbsent | src/components/KeyboardShortcutsEditor/components/ShortcutRow/index.js:28 | a binding without the name is unchanged |
| ShortcutRow.ReplaceNameFirst | src/components/KeyboardShortcutsEditor/components/ShortcutRow/index.js:28 | only the first occurrence of the name, with one following `+`, becomes the symbol |
| ShortcutRow.ReplaceAtStart | src/components/KeyboardShortcutsEditor/components/ShortcutRow/index.js:28 | a leading name and its `+` become the symbol |
| ShortcutRow.SymbolizeKeybinding | src/components/KeyboardShortcutsEditor/components/ShortcutRow/index.js:6-30 | a missing or empty binding renders as the empty string |
| ShortcutRow.NoNamesUnchanged | src/components/KeyboardShortcutsEditor/components/ShortcutRow/index.js:27-29 | a binding containing none of the remaining names passes the rest of the reduce unchanged |
| ShortcutRow.SkipForeign | src/components/KeyboardShortcutsEditor/components/ShortcutRow/index.js:27-29 | names the binding does not contain are skipped |
| ShortcutRow.OneNameLeading | src/components/KeyboardShortcutsEditor/components/ShortcutRow/index.js:27-29 | a binding with one leading name and no later name gets exactly that symbol in front |
| ShortcutRow.CtrlA | src/components/KeyboardShortcutsEditor/components/ShortcutRow/index.js:11-28 | `ctrl+a` renders as `^a` |
| ShortcutRow.ShiftF | src/components/KeyboardShortcutsEditor/components/ShortcutRow/index.js:11-28 | `shift+f` renders as `⇧f` |
| Timestamps.RenderAsText | src/lib/timestamps.js:1-31 | the text is bracketed by `<`/`>` when active and `[`/`]` otherwise, around the date and the optional parts |
| Timestamps.DateFirst | src/lib/timestamps.js:21-27 | after the bracket comes `year-month-day`, then exactly the optional parts |
| Timestamps.ToggleOnlyBrackets | src/lib/timestamps.js:21-28 | toggling active changes only the two brackets |
| Timestamps.DateOnly | src/lib/timestamps.js:20-30 | with no optional field the text is the bracketed date |
| Timestamps.EndTimeAfterStart | src/lib/timestamps.js:25 | an end time is `-HH:MM`, placed right after the start time and before the repeater |
| TextWrap.DropBreaks | src/util/misc.js:3 | what is left starts with no `\r` or `\n` |
| TextWrap.CollapseBreaks | src/util/misc.js:3 | the result has no `\r` or `\n` |
| TextWrap.NoBreaksUnchanged | src/util/misc.js:3 | a text without line breaks is unchanged |
| TextWrap.RunBecomesOneSpace | src/util/misc.js:3 | each maximal run of `\r`/`\n` becomes exactly one space |
| TextWrap.RunAtStart | src/util/misc.js:3 | a leading run of breaks becomes one leading space |
| TextWrap.DropRun | src/util/misc.js:3 | dropping a leading run of breaks leaves what follows it |
| TextWrap.Words | src/util/misc.js:3 | at least one word, none holding a space or a line break |
| TextWrap.FormatTextWrap | src/util/misc.js:2-15 | the loop with the mutable line length yields the `reduce` that `Wrap` defines |
| TextWrap.WrapPrefix | src/util/misc.js:6-14 | one more word is one more step of the reduce |
| TextWrap.BreakExactlyAtLimit | src/util/misc.js:7-9 | a word goes on a new line exactly when the running length plus its length reaches the limit |
| TextWrap.LinesFit | src/util/misc.js:4-14 | the running length is always the length of the current line, and no line holding a space is longer than the limit |
| TextWrap.WrapEndsWithLast | src/util/misc.js:9-12 | the result is at least as long as the last word |
| TextWrap.WordsInOrder | src/util/misc.js:6-14 | with every line break read as a space, the result is the words joined by spaces (plus one leading space when the first word alone reaches the limit) |
| TextWrap.LeadingBreak | src/util/misc.js:7-9 | the result starts with a line break exactly when the first word reaches the limit |
| TextWrap.TextLinesFit | src/util/misc.js:2-15 | for any text, every line of the result that holds a space fits the limit |
| LinkHeader.WordEnd | src/sync_backend_clients/gitlab_sync_backend_client.js:93 | the end of the maximal `\w*` run from a position |
| LinkHeader.LineEnd | src/sync_backend_clients/gitlab_sync_backend_client.js:93 | the end of the maximal run `.` can match from a position |
| LinkHeader.LastRel | src/sync_backend_clients/gitlab_sync_backend_client.js:93 | the last position in a range where `>; rel="\w*"` matches, or none exactly when there is none |
| LinkHeader.RelAtCloses | src/sync_backend_clients/gitlab_sync_backend_client.js:93 | the marker starts with `>` |
| LinkHeader.ClosesOnLine | src/sync_backend_clients/gitlab_sync_backend_client.js:93 | from a `<`, the pattern can close exactly at marker positions before the line ends |
| LinkHeader.CloseFrom | src/sync_backend_clients/gitlab_sync_backend_client.js:93 | greedy `(.*)`: the chosen close is a match, and no match closes later |
| LinkHeader.FirstLink | src/sync_backend_clients/gitlab_sync_backend_client.js:93 | leftmost match: the chosen `<` starts a match, none starts earlier, and the close is the greediest |
| LinkHeader.MatchLink | src/sync_backend_clients/gitlab_sync_backend_client.js:93-95 | no match exactly when the pattern matches nowhere; the name is word characters and the url has no line terminator |
| LinkHeader.NoRelAfterMarker | src/sync_backend_clients/gitlab_sync_backend_client.js:93 | in a well-formed entry no marker matches after the real one |
| LinkHeader.LinkEntryShape | src/sync_backend_clients/gitlab_sync_backend_client.js:93 | `<url>; rel="name"` matches from its first character, the url between `<` and the marker and the name after it |
| LinkHeader.MatchLinkEntry | src/sync_backend_clients/gitlab_sync_backend_client.js:93-95 | a server's `<url>; rel="name"` reads back as exactly (url, name) |
| LinkHeader.WordEndAt | src/sync_backend_clients/gitlab_sync_backend_client.js:93 | a maximal run of word characters ends where `WordEnd` says |
| LinkHeader.LinksMeaning | src/sync_backend_clients/gitlab_sync_backend_client.js:92-98 | a name is mapped exactly when some entry carries it, to the url of the last such entry |
| DirectoryListing.NameLessAsymmetric | src/sync_backend_clients/gitlab_sync_backend_client.js:128 | JavaScript's string `<` never holds both ways |
| DirectoryListing.NameLessTotal | src/sync_backend_clients/gitlab_sync_backend_client.js:128 | two different names are ordered one way or the other |
| DirectoryListing.NameLessTransitive | src/sync_backend_clients/gitlab_sync_backend_client.js:128 | the string order is transitive |
| DirectoryListing.ListedBeforeTotal | src/sync_backend_clients/gitlab_sync_backend_client.js:119-130 | folders-first-then-name orders any two entries |
| DirectoryListing.ListedBeforeTransitive | src/sync_backend_clients/gitlab_sync_backend_client.js:119-130 | folders-first-then-name is transitive |
| DirectoryListing.InsertSorted | src/sync_backend_clients/gitlab_sync_backend_client.js:119-130 | inserting into a sorted listing keeps it sorted and adds exactly the entry |
| DirectoryListing.Sort | src/sync_backend_clients/gitlab_sync_backend_client.js:119-130 | the result is sorted folders first, then by name, and is a permutation of the input |
| DirectoryListing.SortedUnique | src/sync_backend_clients/gitlab_sync_backend_client.js:126-128 | with distinct names (the source's "can't have same name") there is only one sorted order, so any sort gives this result |
| DirectoryListing.SortMembers | src/sync_backend_clients/gitlab_sync_backend_client.js:119-130 | sorting keeps the length and exactly the entries |
| DirectoryListing.MapSorted | src/sync_backend_clients/dropbox_sync_backend_client.js:35-45 | converting entries after sorting keeps them sorted when both keys carry over |
| DirectoryListing.SortedListingMembers | src/sync_backend_clients/gitlab_sync_backend_client.js:106-131 | the sorted converted listing holds one entry per kept item and nothing else |
| ProjectUrl.WithScheme | src/sync_backend_clients/gitlab_sync_backend_client.js:57-60 | a URL without `://` gets `https://` in front; otherwise it is unchanged |
| ProjectUrl.TrimSlashes | src/sync_backend_clients/gitlab_sync_backend_client.js:63 | one leading and one trailing `/` are removed, nothing else |
| ProjectUrl.SplitHasMore | src/sync_backend_clients/gitlab_sync_backend_client.js:68 | splitting at `/` gives more than one piece exactly when there is a `/` |
| GitLabClient.LinksSnoc | src/sync_backend_clients/gitlab_sync_backend_client.js:92-98 | each matching entry sets its name to its url in the accumulated mapping |
| GitLabClient.ParseLinkHeader | src/sync_backend_clients/gitlab_sync_backend_client.js:87-99 | a missing or empty header gives `{}`; otherwise it fails (the source throws on `match[1]`) exactly when some entry does not match, and gives `Links` of the entries when all match |
| GitLabClient.ProjectIdFromUrl | src/sync_backend_clients/gitlab_sync_backend_client.js:54-78 | empty URL: none; otherwise (hostname, encoded path) exactly when the URL parses and the trimmed path has a `/` |
| GitLabClient.TreeToDirectoryListing | src/sync_backend_clients/gitlab_sync_backend_client.js:106-132 | sorted directories first then by name; exactly one entry, with a `/`-prefixed path, per tree item or org file |
| GiteaClient.ParseLinkHeader | src/sync_backend_clients/gitea_sync_backend_client.js:89-103 | a missing or empty header gives `{}`; otherwise `Links` of the entries, entries that do not match skipped |
| GiteaClient.ProjectFromUrl | src/sync_backend_clients/gitea_sync_backend_client.js:56-81 | empty URL: none; an answer is two non-empty slash-free parts that make up the trimmed path |
| GiteaClient.ProjectFromUrlFinds | src/sync_backend_clients/gitea_sync_backend_client.js:63-72 | a parsing URL whose trimmed path is `owner/repo` gives exactly that pair |
| GiteaClient.TreeToDirectoryListing | src/sync_backend_clients/gitea_sync_backend_client.js:110-136 | sorted directories first then by name; exactly one entry per `dir` item or org file |
| DropboxClient.ComparatorInconsistent | src/sync_backend_clients/dropbox_sync_backend_client.js:21-29 | the comparator as written answers -1 both ways for a file named before a folder |
| DropboxClient.FilterAndSortDirectoryListing | src/sync_backend_clients/dropbox_sync_backend_client.js:14-30 | folders and org files only, each once, sorted folders first then by name |
| DropboxClient.TransformDirectoryListing | src/sync_backend_clients/dropbox_sync_backend_client.js:35-45 | sorted entries, one per folder or org file of the listing |
| OneDriveClient.FilterAndSortDirectoryListing | src/sync_backend_clients/onedrive_sync_backend_client.js:7-13 | exactly the folders and org files |
| OneDriveClient.FilterKeepsOrder | src/sync_backend_clients/onedrive_sync_backend_client.js:7-13 | no sort: the filter distributes over concatenation, so the listing's order is kept |
| OneDriveClient.TransformDirectoryListing | src/sync_backend_clients/onedrive_sync_backend_client.js:22-32 | one entry per kept item, each with path `path/name` |
| OneDriveClient.TransformKeepsOrder | src/sync_backend_clients/onedrive_sync_backend_client.js:22-32 | the conversion keeps the listing's order |
| OneDriveClient.ReplaceFirstAt | src/sync_backend_clients/onedrive.js:140 | a string `replace` rewrites the first occurrence only |
| OneDriveClient.ReplacePlaceholder | src/sync_backend_clients/onedrive.js:140 | `/{path}` is replaced by the final path |
| OneDriveClient.CollapseScheme | src/sync_backend_clients/onedrive.js:140 | `replace('//','/')` hits the scheme's `//` first: `https://x` becomes `https:/x` |
| OneDriveClient.PathComponentsOfTemplate | src/sync_backend_clients/onedrive.js:138-145 | the path is `:path:` (or empty) and the URL has the path in place and `https:/` in front |
| OneDriveClient.GraphUrls | src/sync_backend_clients/onedrive.js:3-5 | the three Graph URLs come out as `https:/graph…/root` + path + their suffix |
| AndroidStore.PathToUri | android/app/src/main/java/com/twohundredok/organice/OrganiceSync.java:41-48 | an empty path gives the base; otherwise the base's root with the path, less one leading `/`, as its encoded path |
| AndroidStore.PathToUriSegments | android/app/src/main/java/com/twohundredok/organice/OrganiceSync.java:41-48 | the URI's path segments are the path's, less the leading empty one |
| AndroidStore.ReadTextFromUri | android/app/src/main/java/com/twohundredok/organice/OrganiceSync.java:221-231 | the read text is the lines concatenated without separators |
| AndroidStore.Concat | android/app/src/main/java/com/twohundredok/organice/OrganiceSync.java:222-230 | no lines give the empty string |
| AndroidStore.ConcatSnoc | android/app/src/main/java/com/twohundredok/organice/OrganiceSync.java:227 | each line is appended to the text read so far |
| AndroidStore.ReadTextLosesLineBreaks | android/app/src/main/java/com/twohundredok/organice/OrganiceSync.java:226-228 | two different files, `* a` / `* b` and `* a* b`, read as the same text |
| AndroidStore.ReadTextKeepingLines | android/app/src/main/java/com/twohundredok/organice/OrganiceSync.java:221-231 | corrected: the text is the lines joined by `\n` |
| AndroidStore.KeepingLinesRoundTrip | android/app/src/main/java/com/twohundredok/organice/OrganiceSync.java:221-231 | corrected: splitting the text at `\n` gives back the lines |
| AndroidStore.Deleted | android/app/src/main/java/com/twohundredok/organice/OrganiceSync.java:330 | the document is gone and every other one stays |
| AndroidStore.DeletedKeepsLinked | android/app/src/main/java/com/twohundredok/organice/OrganiceSync.java:330 | deleting a leaf keeps the tree linked and changes only it and its parent's child list |
| AndroidStore.DocumentStore.constructor | android/app/src/main/java/com/twohundredok/organice/OrganiceSync.java:39 | the store holds the given documents |
| AndroidStore.DocumentStore.AsFileMetaData | android/app/src/main/java/com/twohundredok/organice/OrganiceSync.java:114-131 | a null document is an error with the source's message, a missing one an error; otherwise the metadata of the document with its URI as id |
| AndroidStore.DocumentStore.Records | android/app/src/main/java/com/twohundredok/organice/OrganiceSync.java:149-153 | one metadata record per child, in order, exactly when every child exists |
| AndroidStore.DocumentStore.ListFiles | android/app/src/main/java/com/twohundredok/organice/OrganiceSync.java:139-175 | null argument: rejected; not a directory: rejected; otherwise the children's records, or a rejection when one cannot be read |
| AndroidStore.DocumentStore.DeleteFile | android/app/src/main/java/com/twohundredok/organice/OrganiceSync.java:323-339 | null argument: rejected with nothing changed; otherwise resolved exactly when the document existed, and the store is `Deleted` |
| AndroidStore.DocumentStore.CreateFile | android/app/src/main/java/com/twohundredok/organice/OrganiceSync.java:275-309 | a null argument rejects and then throws, nothing changed; a failed create rejects; otherwise the document is added, and the call resolves with the parent's metadata exactly when there is content and the parent exists |
| AndroidStore.ListLinked | android/app/src/main/java/com/twohundredok/organice/OrganiceSync.java:139-155 | in a linked store, listing an existing directory resolves with one record per child |
| AndroidClient.OrgNameNotAnchored | src/sync_backend_clients/android_sync_backend_client.js:24 | `borg` and `.org_archive` count as org files, `org.txt` does not |
| AndroidClient.ComparatorInconsistent | src/sync_backend_clients/android_sync_backend_client.js:26-33 | the comparator as written answers -1 both ways for a file named before a directory |
| AndroidClient.FilterAndSortDirectoryListing | src/sync_backend_clients/android_sync_backend_client.js:18-43 | the directories and names ending in `org`/`org_archive`, each once, sorted directories first then by name |
| SeqOps.Insert | src/reducers/org.js:1728 | inserting adds one element |
| SeqOps.Remove | src/reducers/org.js:1728 | removing drops one element |
| SeqOps.RemoveInsert | src/reducers/org.js:1726-1729 | removing what was inserted restores the list |
| SeqOps.InsertShape | src/reducers/org.js:1728 | `splice(i, 0, x)` keeps what is before, puts `x` at `i` and shifts the rest |
| SeqOps.RemoveMultiset | src/reducers/org.js:1728 | removing takes away exactly that element |
| SeqOps.InsertMultiset | src/reducers/org.js:1728 | inserting adds exactly that element |
| SeqOps.DeleteAt | src/reducers/org.js:572 | Immutable `delete`: a negative index counts from the end; an index out of range changes nothing |
| SeqOps.DeleteAtLast | src/reducers/org.js:580 | `delete(-1)` drops the last element |
| SeqOps.FindIndex | src/lib/org_utils.js:1-3 | -1 or an index of the list |
| SeqOps.FindIndexMeaning | src/lib/org_utils.js:1-3 | the first index satisfying the test, or -1 exactly when none does |
| SeqOps.MoveIsPermutation | src/reducers/org.js:1726-1729 | a splice move is a permutation that puts the moved element at the target (clamped to the end) and keeps the others' order |
| SeqOps.MoveBack | src/reducers/org.js:1726-1729 | moving back from the target restores the list |
| SeqOps.Take | src/reducers/org.js:1738-1745 | the first n elements (all when there are fewer) |
| SeqOps.Without | src/reducers/org.js:1747-1751 | the elements other than the value, and all of them |
| SeqOps.FilterMembers | src/lib/clocking.js:21 | a filter keeps exactly the elements that pass |
| SeqOps.MapMembers | src/lib/clocking.js:7 | the mapped elements are exactly the images |
| SeqOps.SwapNext | src/reducers/org.js:815 | `insert(i, rows.get(i + 1)).delete(i + 2)` swaps the elements at `i` and `i + 1` |

## Left out

Weaker contracts and requirements narrower than the source:

- Cookies.Percentage: computes the exact floor of `100 * done / total`. `org.js:135` computes `Math.floor((done / total) * 100)` in floating point, which differs: for 29 of 100 JavaScript gives 28 (0.29 * 100 is 28.999999999999996) and the model 29; for 57 of 100 JavaScript gives 56 and the model 57. Floating point is not modelled.
- Cookies.KeywordCompletionStates: the keyword sets parsed by `parse_org.js` (73-76 and 136-156) carry no `completedKeywords`, so `org.js:159-162` calls `.contains` on `undefined` and throws. The model reads the missing list as empty, so every TODO child counts as not done.
- Strings.Lower: lower-cases ASCII letters only. JavaScript's `toLowerCase` (used at `headline_filter.js:30`) is Unicode-aware: "Élan" matches "élan" there but not in HeadlineFilter.IsMatch.
- TodoState.AdvanceTodoState: models the keyword change only for a header without repeating planning items, the plain branch of `updateHeadlines` (`org.js:2041-2042`). The repeater branch, `updatePlanningItemsWithRepeaters` (from `org.js:2083`), rests on the date library and is not modelled. When the new keyword is completed and a planning item has a repeater, it reschedules the items and resets the keyword to the set's FIRST keyword (`org.js:2148-2151`), not the next one. `addLogDone` on reaching the last keyword (`org.js:279-283`) is not modelled either. The parent's cookies are modelled.
- TodoState.AdvanceTodoState: with a truthy id and no headers at all, `indexAndHeaderWithId` gives no header and `header.getIn` throws. The requires excludes that case only.
- TodoState.AdvanceTodoState: `updateHeadlines` starts with `currentTodoSet.get('completedKeywords').includes(...)` (`org.js:2026-2028`). The keyword sets that `parse_org.js` builds (73-76 and 149-153) have no `completedKeywords`, so as written that call throws on every parsed file. The model reads the missing list as empty, as it does for Cookies.KeywordCompletionStates, and takes the non-repeater branch.
- CaptureSubstitution.SubstituteTemplateVariables: each key is replaced as a literal string. The source builds `RegExp(key, 'g')` (`capture_template_substitution.js:27`), so a custom key holding regular-expression syntax, or a value holding `$&`-style replacement patterns, behaves differently. The date strings of the built-ins are parameters.
- TextWrap.FormatTextWrap: word lengths count characters (code points). JavaScript's `length` counts UTF-16 code units, so words outside the Basic Multilingual Plane wrap earlier in the source.
- DirectoryListing.NameLess: compares names character by character (Unicode scalar values). JavaScript's `<` compares UTF-16 code units, so a name with a character above U+FFFF sorts before one with a character in U+E000 to U+FFFF at the same place in the source, and after it in the model.
- Refile.WithinAllowed: requires both ids to be present and the target outside the moved subtree (`Refile.RefileWithinFile`, `Refile.RefileSubtree`). Refiling a header into its own subtree, or with a missing id, makes `org.js:586-656` splice through index -1 and produce an arbitrary list; that outcome is not modelled.
- Refile.AcrossAllowed: requires both ids to be present, the moved ids to be fresh in the target file, and at least one header to stay in the source file, since the source's cookie update then reads the source file's last header. Missing ids and colliding ids are not modelled.
- HeaderEdit.RemoveHeader, HeaderEdit.AddHeader, HeaderEdit.MoveHeaderUp, HeaderEdit.MoveHeaderDown: require the header id to be present, as every dispatch site passes a header of the file. With a missing id the source addresses index -1 (the last header); that is not modelled here.
- HeaderTree.MoveHeaderLeft, HeaderTree.MoveHeaderRight, HeaderTree.MoveSubtreeLeft, HeaderTree.MoveSubtreeRight: require the header id to be present, for the same reason.
- HeaderView.ToggleHeaderOpened, HeaderView.OpenHeader, HeaderView.SelectNextSiblingHeader: require the header id to be present, for the same reason.
- SearchHeaders.SearchHeadersIn, SearchHeaders.SearchViewedFirst: when the viewed path is not among the files, `headersToSearch.get(path)` is `undefined` and its `.filter` throws (`org.js:1536-1538`). The model's `HeadersOf` answers no headers instead, so the viewed file gets an empty entry. Every caller passes the viewed file, which OrgState.IncludedFilesRule always keeps, so the case does not arise in the app.
- OrgFiles.WellFormed: the header operations require unique header ids and at least one keyword set. `parseOrg` produces exactly such files: ids come from `getNextId`, and the default set is used when no `#+TODO:` line exists.
- Tables.AddNewTableRow, Tables.RemoveTableRow, Tables.AddNewTableColumn, Tables.RemoveTableColumn, Tables.MoveTableRowDown, Tables.MoveTableRowUp, Tables.UpdateTableCellValue: require that a truthy selected cell id is found in some table of some header. Otherwise the source's destructuring of the missing lookup throws.
- Tables.MoveTableColumnLeft, Tables.MoveTableColumnRight: additionally require, when the columns do move, every non-empty row to reach both moved columns. A right move of the first row's last column, which the source leaves alone, is allowed. On a ragged table `contents.get` answers `undefined` and Immutable inserts it as a cell; that is not modelled.
- Tables.LocateCell: cells are looked up in tables at the top level of a description. Tables nested inside list items are not located.
- Checkboxes.AdvanceCheckboxState: `pathAndPartOfListItemWithIdInHeaders` is not part of this model. The item is given by its header index and its path, so the requires states that the path leads to a list item.
- CaptureInsert.InsertCapturePosition, CaptureInsert.InsertCapture: `headerWithPath` is not part of this model. Its answer is the parameter `target`, so the requires only says that a found header is a header of the file.
- AndroidStore.DocumentStore.DeleteFile: deletes a single node. Recursive deletion of a directory's descendants by the provider is not modelled (`AndroidStore.Deleted` is stated for a leaf in `AndroidStore.DeletedKeepsLinked`).
- AndroidStore.DocumentStore.CreateFile: `DocumentsContract.createDocument` and `removeLastPathSegment` depend on Android internals. They are parameters (`created`, `parentOf`).
- AndroidStore.DocumentStore.ListFiles: the error texts of the rejections are reduced to a reason (`NullArgument`, `NotADirectory`, `Exception`).
- GitLabClient.ProjectIdFromUrl, GiteaClient.ProjectFromUrl: the WHATWG URL parser and `encodeURIComponent` are parameters (`parse`, `encode`).
- GitLabClient.TreeToDirectoryListing, GiteaClient.TreeToDirectoryListing, DropboxClient.FilterAndSortDirectoryListing: `orgFileExtensions` is a parameter (`isOrgFile`). The sort is an insertion sort by the intended order. `DirectoryListing.SortedUnique` shows that any sort gives the same result on names that are distinct.

Operations and behaviour not modelled:

- Reducers of `src/reducers/org.js` outside the header, table, checkbox, cookie, capture, bookmark and settings core are not modelled. This covers log notes and logbook entries, planning items and timestamps, list-item editing and moves, `setTodoState`, `createFirstHeader`, title and description edits, narrowing, openness state, `setSearchFilterInformation`, and the top-level `reducer` dispatch. Each depends on the date library, on unseen helpers, or on UI state.
- Unknown actions in `src/reducers/capture.js` and `src/reducers/query.js`: the switch dispatch is not modelled. Each handler is modelled on its own.
- `addNewEmptyFileSetting` (`org.js:1765-1778`) is not modelled separately. Appending is `SettingsLists.Appended`, and the fresh record's fields are not stated.
- The unit-test file `src/lib/parse_org.unit.test.js` (274-290) expects `#+TODO:` lines after the first header to add keyword sets, and every set to carry `completedKeywords`. `parse_org.js` (136-156) does neither, so those expectations belong to another version of the parser. ParseOrg.ConfigLineKeywords and ParseOrg.ConfigLinesBecomeSets follow the code: only config lines before the first header count, and no set has completed keywords.
- The parts parser of text (`parseMarkupAndCookies`) and the raw-text serialiser (`attributedStringToRawText`) are not part of this model. They are parameters (`ParseCell`, `ToRaw`).
- Cookies.TodoKeywordSetForKeyword, TodoState.CurrentSet: the definition of `todoKeywordSetForKeyword` in `org_utils.js` is not part of this model. It is taken to be the first set whose `keywords` contain the keyword, and the first set otherwise. So the absent keyword (`undefined`), which no set lists, gets the first set.
- `newHeaderFromText`, `newEmptyTableRowLikeRows`, `headerWithPath` and `generateId` are not part of this model. The fresh-id generator is a supply of ids (`FreshIds`).
- The header part of `parseCaptureTemplate` (`newHeaderFromText`) is not modelled. The empty-template branch and the choice of the sub-editor are.
- Network, OAuth and SDK calls of the sync back-ends are not modelled. This covers `getFileContentsAndMetadata`, `putFileContents`/`writeFile` and `pickDirectory` in `OrganiceSync.java`. So are the ContentResolver streams: the lines `BufferedReader` yields are a parameter of `AndroidStore.ReadTextFromUri`.
- The Android client's `transformDirectoryListing` is its filter-and-sort followed by `fromJS`, so `AndroidClient.FilterAndSortDirectoryListing` stands for both.
- Timestamps in clock entries are integers, and a clock filter is a test on an integer. Date arithmetic is not modelled.
- Concurrency, persistence (localStorage) and rendering are not modelled.

## Findings

| source | as written | input that shows it | evidently intended | confidence | as-written member | corrected member |
|---|---|---|---|---|---|---|
| src/reducers/org.js:116-121 | `while (!!parentHeaderId)` stops when a parent's id is 0, and `getNextId` hands out 0 to the first header | headers `[root(id 0, level 1, closed), child(id 1, level 2)]`, `openParentsOfHeader(1)`: the root stays closed and the child stays hidden | open every ancestor | not executed | HeaderView.OpenParentsOfHeaderAsWritten, HeaderView.AsWrittenLeavesHidden | HeaderView.OpenParentsOfHeader, HeaderView.OpenAncestorsShows |
| src/reducers/query.js:27-31 | the query is looked up by `action.templateId`, which the query action does not carry | queries `[q1, q2]`, edit of query 1: `indexOfQueryWithId` answers -1 and `setIn` edits `q2` | look up `action.queryId`, as the capture and file-setting edits do | not executed | SettingsLists.SetQueryFieldPathValueAsWritten, SettingsLists.QueryEditHitsLastQuery | SettingsLists.QueryEditCorrected |
| src/reducers/query.js:57-63 | `removeQueryConfig` deletes the config at `queryIndex`, the query's own position in the list | second query (index 1) with configs `[c0, c1]`, removing `c0`: `c1` is deleted | delete the config the user picked: `src/components/QueriesEditor/components/QuerySetting/index.js:54` passes its index, which `src/components/QueriesEditor/index.js:29` drops | not executed | SettingsLists.DeleteQueryConfig, SettingsLists.DeleteQueryConfigUsesQueryIndex | SettingsLists.DeleteQueryConfigAt, SettingsLists.DeleteQueryConfigAtRemovesChosen |
| src/lib/parse_org.js:91-97 | the tag group is found on the right-trimmed title but cut by its length from the untrimmed one | `* Foo :a: ` (one trailing space): rawTitle `Foo :` with tag `a` | the title is what precedes the tag group, `Foo ` | not executed | ParseOrg.ExtractTagsAsWritten, ParseOrg.TrailingSpaceCutsTitle | ParseOrg.ExtractTags, ParseOrg.ExtractTagsAgree |
| src/sync_backend_clients/dropbox_sync_backend_client.js:21-29 | the comparator answers -1 for (folder, file) and otherwise by name only, so (file, folder) can also answer -1 | file `a.org` and folder `b`: both orders compare as "first", so the folder's place depends on the sort's comparisons | folders first, then by name | not executed | DropboxClient.ComparatorInconsistent | DropboxClient.FilterAndSortDirectoryListing |
| src/sync_backend_clients/android_sync_backend_client.js:26-33 | the same one-sided comparator | file `a.org` and directory `b`: both orders compare as "first" | directories first, then by name | not executed | AndroidClient.ComparatorInconsistent | AndroidClient.FilterAndSortDirectoryListing |
| android/app/src/main/java/com/twohundredok/organice/OrganiceSync.java:221-231 | `readLine` drops each line break and the lines are appended without one | the files `* a` / `* b` (two lines) and `* a* b` (one line) read as the same text | the text with its line breaks kept | not executed | AndroidStore.ReadTextFromUri, AndroidStore.ReadTextLosesLineBreaks | AndroidStore.ReadTextKeepingLines, AndroidStore.KeepingLinesRoundTrip |

`ParseOrg.ParseTitleLine` keeps the tag extraction as written, so the parsed
titles are the ones the app shows. `HeaderView.OpenParentsOfHeader` is the
corrected loop, and the as-written loop stands beside it.

The OneDrive URL composition (`src/sync_backend_clients/onedrive.js:140`) collapses
the scheme's `//` to `https:/`. The model states this as behaviour
(`OneDriveClient.CollapseScheme`, `OneDriveClient.GraphUrls`) and does not list
it as a defect, since URL parsers accept the result.
