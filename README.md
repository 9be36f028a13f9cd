# dho4Guide controllers in Dafny

This project models the decision logic of the three browser controllers of the
dho4Guide game-reference site and proves properties of that model:

- **`ItemSearchApp`** (script.js) runs the item search:
  - it infers an item's category from its index prefix, and reads a number from its effect field;
  - it filters the catalog with an AND of text, category, position, region, character-group and acquired criteria;
  - it sorts weapons and armour by effect, and pages the result 20 at a time;
  - it keeps a map of acquired items that the user toggles, with a progress percentage;
  - it couples the character-group and main-character drop-downs;
  - it filters the companion (crew) list.
- **`GoldRouteManager`** (goldroute.js) shows the trade-route table.
  - A chain of substring and equality filters runs over the first five columns.
  - Drop-down options are the sorted distinct values of a column.
  - Prices from 500 on are highlighted.
  - Pages hold 15 rows, with the same page state as the item search.
- **`BoardManager`** (board.js) runs the bulletin board: an in-memory list of posts, newest first, with an id counter.
  - Adding a post prepends it.
  - Deleting filters out a post by id.
  - Editing replaces a post in place.
  - Field validation and an author or developer-mode check guard these operations.
  - Search and sort produce copies.

The pure logic is written as datatypes, functions and lemmas: `ItemRecords`, the
first half of `GoldRoute`, and the first half of `Board`. The state each
controller changes in place is a Dafny `class` with the same fields:
`ItemSearch.ItemSearchApp`, `GoldRoute.GoldRouteManager` and
`Board.BoardManager`. Each method's `ensures` ties the new state to those
functions. Shared pieces are their own modules:

- `Text`: lower-casing, `includes`, `trim` and string order;
- `Seqs`: `filter` and subsequences;
- `Sorting`: `sort` with a comparator;
- `Paging`: page count, clamp and slice;
- `Wrappers`: `Option`.

The environment is passed in as parameters:

- `lower: char -> char` stands for `toLowerCase`;
- the current time `now` is an opaque string;
- `confirm()` is a boolean `confirmed`;
- the date-to-time reading and the locale collation of the board sort are functions;
- form and drop-down values are method arguments, or, on the board, fields set by `FillForm`;
- data that `fetch` or `localStorage` would deliver is an `Option` given to the constructor or to `Init`.

Two behaviours of the code are modelled as written:

- **Page count for an empty result.** `displayItems` and `displayFilteredResults` return before `calculatePagination` when the result is empty (script.js:916-922, goldroute.js:249-256). So an empty search leaves `totalPages` at its previous value. `calculatePagination` itself would give 0 pages for an empty list.
- **Effect sort on a mixed list.** The comment at script.js:1580 says items that are neither weapon nor armour keep their original order. The comparator returns 0 only when neither of the two items is a weapon or armour. When one of them is, it compares by `bEffect - aEffect` (script.js:1581-1590). So in the model, a produce item with effect 999 moves in front of weapons with effect 50 and 10 (`ItemRecords.MixedListExample`).

## Model

| member | source | states |
|---|---|---|
| Text.Lower | script.js:780 | the lower-cased string has the input's length and is the case map applied at every position |
| Text.ContainsEmpty | script.js:806-808 | every text contains the empty term, so an empty term never excludes anything |
| Text.TrimStartSpec | board.js:114-116 | what remains after dropping leading white space is a suffix that is empty or starts with a non-space, and every dropped character is white space |
| Text.TrimEndSpec | board.js:114-116 | the symmetric statement for trailing white space: a prefix, empty or ending in a non-space, all dropped characters white space |
| Text.Trim | board.js:114-116 | trimming never lengthens a string |
| Text.TrimIsSlice | script.js:780 | `trim` returns a slice `s[i..j]` whose ends are not white space, and all of `s` outside it is white space |
| Text.TrimEmptyIff | board.js:118 | a trimmed field is empty exactly when the input is all white space (both directions) |
| Text.TrimIdempotent | script.js:780 | trimming a trimmed term changes nothing |
| Text.LessIrreflexive | goldroute.js:172-175 | the string order of `sort()` is irreflexive |
| Text.LessTransitive | goldroute.js:172-175 | the string order is transitive |
| Text.LessTotal | goldroute.js:172-175 | any two distinct strings are ordered one way or the other |
| Text.LessAsymmetric | goldroute.js:172-175 | the string order is asymmetric |
| Seqs.Filter | script.js:799 | `filter` never lengthens a list |
| Seqs.FilterSpec | script.js:799 | every kept element passes the test, and an element is kept iff it is in the input and passes |
| Seqs.FilterMultiset | board.js:159 | filtering keeps each passing element exactly as often as it occurs and drops the others |
| Seqs.FilterEmbedding | goldroute.js:208-234 | `filter` yields an order-preserving subsequence, with the witnessing increasing positions |
| Seqs.FilterSubsequence | goldroute.js:208-234 | the filtered list is an order-preserving subsequence holding exactly the passing elements |
| Seqs.FilterAppend | goldroute.js:208-234 | filtering distributes over concatenation |
| Seqs.FilterCongruent | goldroute.js:208-234 | two tests that agree on the list's elements filter it the same way |
| Seqs.FilterFilter | goldroute.js:223-234 | filtering twice is filtering once by the conjunction |
| Seqs.FilterAll | board.js:282-286 | a test every element passes keeps the list unchanged |
| Seqs.FilterNarrows | script.js:799-884 | a stronger test keeps a subsequence of what the weaker keeps, and equals the weaker result filtered again |
| Sorting.Insert | script.js:1576-1591 | inserting adds exactly one occurrence of the element (multiset) |
| Sorting.SortBy | script.js:1576-1591 | sorting with a comparator is a permutation of the input |
| Sorting.InsertAscending | script.js:1576-1591 | inserting into a key-ordered list, with a comparator that agrees with the key, keeps it key-ordered |
| Sorting.SortByAscending | script.js:1576-1591 | a comparator that orders as an integer key sorts into non-decreasing key order |
| Sorting.InsertFilter | script.js:1576-1591 | elements selected by a test that the inserted element never passes over keep their order |
| Sorting.InsertFilterPast | script.js:1576-1591 | the same, in the step where the inserted element moves past the last one |
| Sorting.SortByKeepsOrderOf | script.js:1581-1583 | elements that never compare as "after" one another keep their relative order |
| Sorting.SortByIdentity | script.js:1581-1583 | a comparator that never answers "after" leaves the list unchanged |
| Sorting.SortByStable | board.js:296-301 | elements with equal keys keep their input order |
| Sorting.SingletonFiltersCommute | script.js:1576-1591 | two one-element filters commute when at most one of them keeps its element |
| Paging.PageCount | script.js:975 | the page count is zero exactly when there are no rows |
| Paging.PageCountBounds | goldroute.js:400 | the page count is the ceiling of rows / per-page: the pages hold all rows, and one page fewer would not |
| Paging.ClampPage | script.js:977-985 | the clamped page is at least 1, at most the page count when there is a page, and unchanged when already in range |
| Paging.ClampIdempotent | goldroute.js:402-410 | clamping a clamped page changes nothing |
| Paging.PageSlice | script.js:933-935 | the page holds at most per-page rows, its exact length is fixed by the start offset, and its k-th row is row `(page-1)*perPage + k` |
| Paging.PageOfRow | goldroute.js:265-267 | every row appears on page `i / perPage + 1`, at offset `i % perPage`, and that page exists |
| Paging.LastPageNonEmpty | script.js:974-986 | the last page of a non-empty list holds at least one row |
| Paging.FortyOneRows | script.js:21 | 41 rows at 20 a page make 3 pages, and the third holds only row 41 |
| ItemRecords.KindByPrefix | script.js:1410-1424 | the category is Equipment or the category of a prefix in the table that starts the index |
| ItemRecords.ItemType | script.js:1398-1427 | the category is never empty, an explicit kind is returned unchanged, and otherwise it is one of the seven categories |
| ItemRecords.ItemTypeFromPrefix | script.js:1410-1424 | without an explicit kind, an index starting with the i-th prefix gets the i-th category |
| ItemRecords.KindByPrefixFirst | script.js:1410-1424 | the first matching prefix of the table decides |
| ItemRecords.ItemTypeDefault | script.js:1405-1409 | without an explicit kind, an absent or empty index, or one with none of the prefixes, is Equipment |
| ItemRecords.LeadingDigits | script.js:1604-1605 | the leading digit run is a prefix of digits that cannot be extended |
| ItemRecords.EffectValue | script.js:1594-1609 | an absent effect is 0, a numeric effect is itself, and a string effect is never negative |
| ItemRecords.NoDigitNoEffect | script.js:1604-1605 | a string effect without a digit is worth 0 |
| ItemRecords.EffectDigitRun | script.js:1603-1606 | a string effect with a digit is worth the decimal value of its first maximal digit run |
| ItemRecords.FirstDigitRun | script.js:1604-1605 | the first maximal digit run exists, nothing before it is a digit, and `FirstNumber` reads its value |
| ItemRecords.FirstNumber | script.js:1604-1605 | there is no number exactly when the string has no digit |
| ItemRecords.SearchTerm | script.js:780 | the term is never longer than the input and is already trimmed |
| ItemRecords.HasIdentity | script.js:800-803 | an item with neither a name nor an index is excluded |
| ItemRecords.TextMatch | script.js:805-810 | an empty term passes; otherwise the term occurs in the lower-cased name or index, when present |
| ItemRecords.KindMatch | script.js:812-816 | no type selected passes; otherwise the inferred category equals the selection |
| ItemRecords.PositionMatch | script.js:818-829 | no position selected passes; otherwise the item has a position equal to the selection |
| ItemRecords.RegionMatch | script.js:831-843 | a string region must equal the selection, an object region matches through either group's entry, and an item with no region fails a set region |
| ItemRecords.GroupMatch | script.js:846-862 | for either character group, a string region passes, an object region passes unless that group's entry is `null`, and no region fails |
| ItemRecords.AcquiredKey | script.js:875 | the acquired map is looked up by the index, "undefined" without one |
| ItemRecords.IsAcquired | script.js:875 | a key is acquired when the map holds it with a true value |
| ItemRecords.AcquiredMatch | script.js:872-883 | "acquired" keeps acquired items, "not-acquired" keeps the others, any other value keeps all |
| ItemRecords.Matches | script.js:799-884 | an item is listed when every one of the criteria above holds |
| ItemRecords.SearchResult | script.js:799 | the search result is never longer than the catalog |
| ItemRecords.SearchResultSpec | script.js:799-884 | the result is an order-preserving subsequence of the catalog holding exactly the items that meet every criterion |
| ItemRecords.EmptyCriteriaKeepIdentified | script.js:801-808 | with an empty term and every drop-down on "all", exactly the items with a name or an index are listed, in catalog order |
| ItemRecords.ClearingWidens | script.js:815-884 | an empty selection is a wildcard: clearing criteria never loses an item, and the narrower result is the wider one filtered again |
| ItemRecords.OffersPosition | script.js:1486-1491 | the position is non-empty and some equipment item of the catalog has it |
| ItemRecords.PositionSelectionFor | script.js:1470-1510 | the position afterwards is the old one or empty; it is kept exactly when the type is equipment and an equipment item has that position, so a kept position always leaves an item of that type and position |
| ItemRecords.EffectCompare | script.js:1576-1591 | 0 when neither item is a weapon or armour; otherwise the effect difference, higher effect first |
| ItemRecords.EffectSorted | script.js:1572-1592 | the effect sort is a permutation of the result |
| ItemRecords.RankedByEffect | script.js:1586-1590 | when every item is a weapon or armour, effect values are non-increasing |
| ItemRecords.UnrankedKeepOrder | script.js:1581-1583 | items that are neither weapon nor armour keep their relative order |
| ItemRecords.EqualEffectKeepOrder | script.js:1586-1590 | weapons and armour of equal effect keep their relative order |
| ItemRecords.UnrankedUnchanged | script.js:1581-1583 | a list without weapons and armour is not reordered |
| ItemRecords.MixedListExample | script.js:1576-1591 | [weapon 10, weapon 50, produce 999] sorts to [produce 999, weapon 50, weapon 10] |
| ItemRecords.ExampleFirstTwo | script.js:1576-1591 | [weapon 10, weapon 50] sorts to [weapon 50, weapon 10] |
| ItemRecords.ExampleLastInsert | script.js:1576-1591 | the produce item with effect 999 moves in front of both weapons |
| ItemRecords.ExampleComparisons | script.js:1586-1590 | the comparator's values on the example items (40, 989, 949) |
| ItemRecords.Toggled | script.js:661-667 | the key's acquired state flips, the key set gains or loses exactly that key, and every other entry is unchanged |
| ItemRecords.ToggleTwice | script.js:661-667 | toggling a key twice restores the map, unless the key was stored as false |
| ItemRecords.Percent | script.js:899 | 0 with no items; otherwise the integer nearest to 100·acquired/total (halves up); within [0, 100] when acquired ≤ total |
| ItemRecords.PercentExamples | script.js:899 | 3 of 4 is 75, 0 of 0 is 0, 1 of 8 rounds up to 13 |
| ItemRecords.GroupsAgree | script.js:1453-1461 | the two captain tables agree: a group's captains belong to it, and every known captain is listed under its group |
| ItemRecords.CharacterSelectionFor | script.js:1444-1468 | no main character clears the group; a known captain ends under a group that lists it, so the two selections agree; an unknown name leaves the group alone |
| ItemRecords.MainSelectionFor | script.js:1513-1537 | no group clears the main character; a known group ends with one of its captains, and keeps the current one when it belongs |
| ItemRecords.SyncAsWritten | script.js:752-770 | whichever drop-down changed, the main character is first fitted to the group, then the group to that main character |
| ItemRecords.SyncRevertsCaptainChoice | script.js:758-766 | as written, with the old group selected, choosing 교타로 ends with the old group and 라파엘 |
| ItemRecords.SyncSelections | script.js:753-766 | the drop-down that changed keeps its value and the other one follows it |
| ItemRecords.SyncSelectionsConsistent | script.js:753-766 | after a group or main-character change the two selections are consistent and the user's choice is kept |
| ItemRecords.CrewMatches | script.js:1686-1701 | an empty term passes or the lower-cased name contains it, and no character is selected or some route is for that character |
| ItemSearch.ItemSearchApp.constructor | script.js:108-133 | after loading and the first `displayItems`: every item listed, page 1 current, the page count of the catalog (1 for an empty one), the saved acquired map and the companion data |
| ItemSearch.ItemSearchApp.CalculatePagination | script.js:974-986 | totalPages is the page count of the result and the current page is clamped into it |
| ItemSearch.ItemSearchApp.DisplayItems | script.js:910-949 | an empty result shows nothing and keeps the page state; otherwise the page state is recomputed and the current page's slice is shown |
| ItemSearch.ItemSearchApp.GoToPage | script.js:1047-1055 | a page outside [1, totalPages] changes nothing; otherwise that page becomes current and is shown |
| ItemSearch.ItemSearchApp.SortItemsByEffect | script.js:1572-1592 | the result is replaced by its effect-sorted permutation |
| ItemSearch.ItemSearchApp.PerformSearch | script.js:773-896 | the result is the effect-sorted search result of the trimmed, lower-cased term; page 1 is current and shown |
| ItemSearch.ItemSearchApp.ShowFirstPage | script.js:890-895 | page 1 becomes current and is shown; the page count is recomputed only for a non-empty result |
| ItemSearch.ItemSearchApp.ToggleAcquiredItem | script.js:661-669 | the acquired map is toggled at the key, then the search runs again: page 1, the page count recomputed for a non-empty result |
| ItemSearch.ItemSearchApp.UpdateStats | script.js:898-908 | catalog size, acquired count, the rounded progress percentage and the result size |
| ItemSearch.ItemSearchApp.HandleFilterChange | script.js:752-770 | the position is fitted to the type, the group and the main character are coupled (corrected: the changed one wins), the other selections are kept, then the search runs with them and the page count is recomputed for a non-empty result |
| ItemSearch.ItemSearchApp.PerformCrewSearch | script.js:1664-1711 | no companion data gives nothing; otherwise the companions matching the term and the main character, in data order: an order-preserving subsequence holding exactly those |
| GoldRoute.TermMatch | goldroute.js:211-218 | the term occurs in one of the five lower-cased text columns |
| GoldRoute.SearchRows | goldroute.js:197-234 | the chain of filters: the lower-cased untrimmed term, then sea area, city, kind and commodity, each step only when its criterion is set |
| GoldRoute.RefineFilter | goldroute.js:223-234 | one more filter step after a filter is one filter by the conjunction |
| GoldRoute.TermAndRegionSteps | goldroute.js:211-225 | the term and sea-area steps are one filter by both criteria |
| GoldRoute.UpToKindSteps | goldroute.js:226-231 | the city and kind steps extend that filter by their criteria |
| GoldRoute.SearchRowsIsOneFilter | goldroute.js:208-234 | the chain of filters is one filter by the conjunction of all active criteria |
| GoldRoute.SearchRowsMeetCriteria | goldroute.js:208-234 | the result is an order-preserving subsequence holding exactly the rows that match the term in one of columns 0-4 and equal every set drop-down |
| GoldRoute.AscendingCons | goldroute.js:172-175 | a value below a strictly ascending list extends it |
| GoldRoute.InsertUnique | goldroute.js:172-175 | adding a value keeps the list strictly ascending and adds exactly that value |
| GoldRoute.SortedDistinct | goldroute.js:172-175 | `[...new Set(values)].sort()` is strictly ascending and holds exactly the values |
| GoldRoute.AscendingNoDuplicates | goldroute.js:172-175 | a strictly ascending list has no repeated value |
| GoldRoute.Columns | goldroute.js:172-175 | the column values of the rows, one per row, in row order |
| GoldRoute.Options | goldroute.js:172-175 | drop-down options are ascending, free of duplicates, and exactly the values of that column over all rows |
| GoldRoute.PriceMarks | goldroute.js:337-343 | one mark per price, set iff the price is at least 500 |
| GoldRoute.InitialViewAsWritten | goldroute.js:291-295 | as written, the first view shows every loaded row and computes a page count only when there are none |
| GoldRoute.SixteenRowsShownUnpaged | goldroute.js:103-106 | as written, 16 loaded rows are shown at once and totalPages stays 1, although 2 pages are needed |
| GoldRoute.GoldRouteManager.constructor | goldroute.js:2-19 | no rows, page 1 of 1, not initialised |
| GoldRoute.GoldRouteManager.CalculatePagination | goldroute.js:399-411 | totalPages is the page count at 15 rows a page and the current page is clamped into it |
| GoldRoute.GoldRouteManager.DisplayFilteredResults | goldroute.js:246-273 | no rows shows nothing and keeps the page state; otherwise the page state is recomputed and the current page's rows are shown |
| GoldRoute.GoldRouteManager.Init | goldroute.js:80-117 | a failed load changes nothing; a successful one lists every row, shows the first page with the page count computed (corrected), and marks the manager initialised |
| GoldRoute.GoldRouteManager.PerformSearch | goldroute.js:197-243 | ignored before initialisation; otherwise the rows meeting the criteria become the result, page 1 is current and shown |
| GoldRoute.GoldRouteManager.GoToPage | goldroute.js:472-480 | a page outside [1, totalPages] changes nothing; otherwise that page becomes current and is shown |
| GoldRoute.GoldRouteManager.PopulateFilters | goldroute.js:170-195 | the options of the sea-area, city, kind and commodity drop-downs come from columns 0, 2, 3 and 4 |
| Board.IdsFresh | board.js:123-130 | every id is used once and is below the id counter |
| Board.MayChange | board.js:149-156 | developer mode, or a non-empty trimmed author input equal to the post's author |
| Board.PostMatches | board.js:281-286 | the lower-cased term occurs in the lower-cased title, content or author |
| Board.FindIndex | board.js:143 | -1 exactly when no post has the id, otherwise the first position holding it |
| Board.EditIndex | board.js:247 | a found position holds a post whose id is the edit id; there is none without an edit id |
| Board.Publish | board.js:114-132 | rejected exactly when a trimmed field is empty; otherwise the new post has the counter as id, the trimmed fields, the time and 0 views, is prepended, and the counter grows by 1 |
| Board.PublishKeepsIdsFresh | board.js:123-130 | publishing keeps the ids distinct and below the counter |
| Board.Revise | board.js:237-258 | rejected exactly when a trimmed field is empty or no post has the edit id; otherwise only that post changes: new title, author, content and date, same id and views |
| Board.ReviseKeepsIdsFresh | board.js:254-260 | editing keeps every id, so the ids stay fresh |
| Board.Remove | board.js:159 | removing never lengthens the list |
| Board.RemoveSpec | board.js:159 | removing keeps, in order, exactly the posts with another id |
| Board.RemoveKeepsIdsFresh | board.js:159 | removing keeps the ids fresh and leaves no post with that id |
| Board.SearchPosts | board.js:280-288 | an order-preserving subsequence holding exactly the posts whose lower-cased title, content or author contains the term |
| Board.EmptyTermListsAll | board.js:281-286 | an empty term lists every post |
| Board.SortedPosts | board.js:291-308 | the displayed list is a permutation of the posts, and the posts themselves for an unknown sort choice |
| Board.SortedPostsByTime | board.js:296-301 | "latest" lists by non-increasing time, "oldest" by non-decreasing time |
| Board.SortedPostsTiesKeepOrder | board.js:296-301 | posts with equal times keep their relative order under both time sorts |
| Board.BoardManager.Valid | board.js:123-130 | the board's ids are fresh for its counter |
| Board.BoardManager.constructor | board.js:3-6 | the stored posts (none if absent), the stored counter (1 if absent, unreadable or 0), developer mode iff the stored flag is "true", not editing |
| Board.BoardManager.FillForm | board.js:9-12 | the form inputs hold what the user typed |
| Board.BoardManager.ToggleDeveloperMode | board.js:50-52 | the flag is negated |
| Board.BoardManager.SetDeveloperMode | board.js:63-65 | the flag is set to the given value |
| Board.BoardManager.ClearForm | board.js:401-405 | the three inputs are emptied |
| Board.BoardManager.UpdatePost | board.js:237-266 | nothing changes on a rejected edit; otherwise the list is the revision, edit mode ends and the form is cleared; fresh ids are kept |
| Board.BoardManager.AddPost | board.js:107-139 | in edit mode it is the update: nothing changes on a rejected edit, otherwise the list is the revision, edit mode ends and the form is cleared, and the counter is kept; otherwise nothing changes on a rejected form, and a complete one is published and the form cleared; fresh ids are kept |
| Board.BoardManager.DeletePost | board.js:142-163 | the posts with the id are removed exactly when the id exists, the author check passes and the user confirms; otherwise nothing changes; fresh ids are kept |
| Board.BoardManager.StartEditPost | board.js:167-190 | with the same guards, the form is filled with the post and edit mode starts for its id; otherwise nothing changes |
| Board.BoardManager.CancelEdit | board.js:229-234 | edit mode ends and the form is cleared |
| Board.BoardManager.FilterPosts | board.js:280-288 | the search result for the lower-cased, untrimmed term, an order-preserving subsequence of the posts |
| Board.BoardManager.SortPosts | board.js:291-308 | a sorted copy that is a permutation of the posts; the posts are not changed |

## Left out

- All DOM work and HTML templating is left out: item cards, detail groups, table markup, post markup, pagination controls, tabs, messages, tooltips, scrolling. It produces presentation and has no logic to prove.
- `escapeHtml` is left out because it relies on the browser DOM. `highlightText` is left out because it builds a regular expression from raw input for the JavaScript RegExp engine.
- Loading and saving are left out: `fetch`/`loadData`, every `localStorage` read and write, and the `window.goldrouteDataCache` global. Their results enter as `Option` arguments. The cached-data path of the `GoldRouteManager` constructor is the same as `Init` with loaded data.
- Asynchronous and timing logic is left out: the `init`/`isInitializing` re-entry guards, debouncing, and the tab-switching state.
- Clocks and locales enter as parameters: `new Date()`, `toISOString()`, reading dates back as times, and `localeCompare`.
- `checkMainCharacterCondition` always accepts, so the main-character selection has no filter in `ItemRecords.Matches`.
- `updatePositionFilter` is modelled for the value it leaves selected (`ItemRecords.PositionSelectionFor`). The rebuilt option list and the drop-down's visibility are not modelled.
- ItemRecords.UnrankedKeepOrder: it holds for the model's stable insertion sort. On a list that mixes ranked and unranked items the comparator is not consistent, so the ECMAScript definition of `Array.prototype.sort` leaves the order implementation-defined, and a browser's sort may reorder unranked items. On lists without ranked items it holds for every stable sort.
- ItemRecords.EqualEffectKeepOrder: same as above. On a mixed list a browser's sort may reorder ranked items of equal effect; on lists of ranked items only, the comparator is consistent and the lemma holds for every stable sort.
- ItemRecords.AcquiredKey: an item without an index is looked up under "undefined". JavaScript would use the key "null" for an index stored as JSON `null`; the model does not tell an absent index from a `null` one.
- The offline scripts under util/ are not part of this model. They rewrite files with floating-point rounding and wrap spreadsheet libraries.
- Text.Lower: `toLowerCase` is a per-character map here. JavaScript's can change a string's length (for example `İ`), which this model does not capture.
- Text.Less: whole characters (Unicode scalar values) are compared. JavaScript compares UTF-16 code units, which orders characters outside the Basic Multilingual Plane differently.
- Sorting.SortBy: the model fixes one sort, stable insertion from the back. For a consistent comparator every stable sort gives the same result. The effect comparator is not consistent on lists that mix ranked and unranked items, and there the engine's actual order may differ from the model's.
- ItemRecords.Percent: rounding is exact on rationals, while the source rounds a floating-point product. The two can differ where the product's floating-point error crosses a half.
- ItemRecords.EffectValue: the effect number is an unbounded integer. The source's `parseInt` of a very long digit run loses precision, and a numeric effect can be a fraction, which this model does not represent.
- GoldRoute.PriceMarks: the development level and the prices are `real` numbers. Non-numeric price cells, which JavaScript would compare with `>= 500` after conversion, are not represented.
- Absent, `null` and empty item names, kinds and positions are one value (""), as the source's truthiness tests treat them alike.
- Whether the board is in edit mode follows JavaScript truthiness, so an edit id of 0 counts as not editing. Post ids are unbounded integers.
- `displayPagination` and `updateCrewStats` only render; the crew result is returned instead of displayed.

## Findings

| source | as written | input that shows it | evidently intended | confidence | as-written member | corrected member |
|---|---|---|---|---|---|---|
| script.js:752-770 | `handleFilterChange` always fits the main character to the group first and then the group to the main character, whichever drop-down changed | character group 구 캐릭터 selected, user picks main character 교타로: it is replaced by 라파엘 and the group stays 구 캐릭터 | the drop-down the user changed keeps its value and the other follows it (as its comments describe) | medium, not executed | ItemRecords.SyncRevertsCaptainChoice | ItemRecords.SyncSelectionsConsistent |
| goldroute.js:103-106, 291-295 | `init` sets `filteredItems` to all rows before `displayGoldrouteTable`, whose initial-load pagination only runs when `filteredItems` is empty; the whole table is drawn with no page count and no pager | 16 loaded rows: all 16 are shown and totalPages stays 1 although 2 pages are needed | the first view is page 1 of 15 rows with the page count computed, as after any search | medium, not executed | GoldRoute.SixteenRowsShownUnpaged | GoldRoute.GoldRouteManager.Init |
