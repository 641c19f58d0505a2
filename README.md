# Document classifier front end, modelled in Dafny

This project models the review dashboard of a document classifier. The
backend labels each document with scored classifications. A reviewer uses
the dashboard to narrow the list with three filters, count the
low-confidence documents, sort the table by a column, and correct a
document's labels and scores. After a save, the dashboard shows an undo
banner that counts down from 30 seconds. The model covers the six files that hold this logic:

- `src/services/api.js` — the primary-classification and low-confidence helpers.
- `src/App.jsx` — the dashboard state, its filters, counters and update/undo handlers.
- `src/components/ClassificationTable.jsx` — column sorting and the row helpers.
- `src/components/EditModal.jsx` — the edit dialog's draft and its normalisation.
- `src/components/FilterControls.jsx` — the filter panel.
- `src/components/UndoNotification.jsx` — the undo countdown.

Modules, one per source file:

- Shared modules:
  - `Records` holds the document, classification and filter values.
  - `Text` holds the string helpers the code borrows from JavaScript.
- `Api`:
  - The primary entry is the first entry with the highest score.
  - "Low confidence" means a primary score below 0.7, and is false for an empty list.
- `App` (`class AppState`):
  - The dashboard's fields and handlers.
  - The three AND-ed filters as one filter by their conjunction (`FilterDocuments`). `AppState.ApplyFilters` is proved to compute exactly that.
  - The counters.
  - Replacing a document by id after the backend answers.
- `ClassificationTable`:
  - The column toggle.
  - A stable in-place insertion sort on an array. It is proved equal to a functional insertion sort `SortBy`, which is proved sorted, a permutation, stable, and idempotent.
  - The column keys, including their fallbacks.
  - The in-place descending sort that `formatClassificationsList` applies to a classifications array, modelled on a standalone array. It is proved to leave the primary classification and the low-confidence flag unchanged.
  - The colour and badge helpers.
- `EditModal` (`class Modal`, `class Entry`):
  - Entries are objects because `[...document.classifications]` copies the array but not its entries.
  - `handleScoreChange` then rescales entry objects that the draft still shares with the document. The model reproduces this aliasing (see Findings).
- `FilterControls` (`class Controls`):
  - Edits one key at a time, resets, and reports the active state.
  - The whole local object is reported, and it replaces the dashboard's filters.
- `UndoNotification` (`class Countdown`):
  - One tick of the interval.
  - From n whole seconds, the banner dismisses itself on tick n.

Remote calls, clocks and user input are parameters:

- A backend reply is a value: `ListReply`, `UpdateReply` or `UndoReply`.
- The time stamp is an integer `now`.
- The save callback's outcome is a `SaveOutcome`.

The model follows the code where the intended design differs:

- No snapshot of the document is taken before an edit.
- A failed undo keeps the notification.
- `handleScoreChange` leaves the scores raw when their total is not positive.
- The classification column's key is not lower-cased.
- A successful update does not clear the error banner.
- `undoClassification` is imported by `App.jsx` but not exported by `api.js`, so as written every undo call throws and ends in the catch branch (src/App.jsx:126-128). The model takes the call's outcome as the reply parameter, so its success branch covers a working backend call as well; the failure branch is the one the code as written always takes.
- The edit dialog is not opened anywhere: `handleEditClick` only shows an alert. It is modelled on its own.

## Model

| member | source | states |
|---|---|---|
| Api.GetPrimaryClassification | src/services/api.js:78-83 | none exactly for an empty list; otherwise an element of the list whose score no entry exceeds |
| Api.ReduceMax | src/services/api.js:80-82 | the reduce from a current best onwards ends on an index whose score no entry exceeds and that no earlier entry ties |
| Api.PrimaryIndex | src/services/api.js:80-82 | the reduce keeps the first maximal entry: every entry scores at most the winner's score and every earlier entry strictly less |
| Api.PrimaryIsFirstMaximum | src/services/api.js:80-82 | ties go to the first occurrence: the first index holding the maximum is the primary entry |
| Api.IsLowConfidence | src/services/api.js:88-91 | false without classifications; otherwise true exactly when the primary score is below 0.7 |
| Api.LowConfidenceIffAllBelow | src/services/api.js:88-91 | on a non-empty list, low confidence holds iff every score is below 0.7 |
| Api.ThresholdIsNotLow | src/services/api.js:90 | a primary score of exactly 0.7 is not low confidence |
| Api.PrimaryExample | src/services/api.js:78-83 | Medical 0.9 beats Legal 0.1 |
| Text.ToLower | src/App.jsx:52 | `toLowerCase` keeps the length and lower-cases each character |
| Text.ToLowerIdempotent | src/App.jsx:52 | the result has no upper-case letters, and lower-casing it again changes nothing |
| Text.Contains | src/App.jsx:52 | `includes`: true iff the text occurs at some position |
| Text.ContainsItself | src/App.jsx:52 | every text contains itself, so a label matches a type filter equal to it |
| Text.DropWhitespace | src/components/ClassificationTable.jsx:60 | strips exactly the leading whitespace run, which a `\s+` match consumes |
| Text.DashWhitespace | src/components/ClassificationTable.jsx:60 | `replace(/\s+/g, '-')` leaves no whitespace, is no longer than its input, and every character is a dash or comes from the input; the lemmas below state that each run becomes one dash and the other characters stay in order |
| Text.DashWhitespaceFixesPlainText | src/components/ClassificationTable.jsx:60 | text without whitespace is left unchanged |
| Text.DropWhitespaceRun | src/components/ClassificationTable.jsx:60 | a `\s+` match consumes the whole whitespace run in front of non-whitespace text, and nothing after it |
| Text.DashWhitespaceRun | src/components/ClassificationTable.jsx:60 | a maximal whitespace run, however long, becomes exactly one dash, and the replacement goes on after it |
| Text.DashWhitespaceKeepsPlainChar | src/components/ClassificationTable.jsx:60 | a character other than whitespace is copied to the output in its place |
| Text.DashWhitespaceKeepsPlainPrefix | src/components/ClassificationTable.jsx:60 | text without whitespace is copied through unchanged and in order, whatever follows |
| Text.DashWhitespaceOfTwoWords | src/components/ClassificationTable.jsx:60 | two words around one whitespace run become the words joined by a single dash |
| Text.ToLowerOfTwoWords | src/components/ClassificationTable.jsx:60 | lower-casing two words around a whitespace run keeps the run as it is |
| App.Filter | src/App.jsx:50-68 | `filter` returns a subsequence of its input holding exactly the elements that satisfy the test; `FilterMultiset` states that every copy is kept |
| App.FilterMultiset | src/App.jsx:50-68 | `filter` keeps every copy of an element that satisfies the test and no copy of one that does not |
| App.FilterComplementCount | src/App.jsx:167 | the elements a test keeps and those its negation keeps add up to the whole list |
| App.FilterKeepsAll | src/App.jsx:50-68 | when every element passes, the list is unchanged |
| App.FilterCongruent | src/App.jsx:50-68 | two tests that agree on every element filter the same way |
| App.FilterFilter | src/App.jsx:45-72 | two successive filters are one filter by the conjunction |
| App.MaxScore | src/App.jsx:59 | `Math.max` over the scores is minus infinity exactly for an empty list; otherwise it bounds every score and is attained |
| App.MaxScoreIsPrimaryScore | src/App.jsx:59 | on a non-empty list the maximum is the primary classification's score |
| App.AnyLabelContains | src/App.jsx:50-54 | true iff some label, lower-cased, contains the lower-cased type text |
| App.FilterDocuments | src/App.jsx:45-72 | the shown list is a subsequence of the documents, holding exactly those that pass all three tests, each as many times as it occurs in the documents |
| App.TypeMatches | src/App.jsx:49-55 | the type test: passes when no type is set, otherwise when some label contains the type text (the condition is stated by `AnyLabelContains`) |
| App.InConfidenceRange | src/App.jsx:57-61 | the range test on `Math.max` of the scores; its meaning is stated by `InConfidenceRangeIsPrimaryInRange` |
| App.InConfidenceRangeIsPrimaryInRange | src/App.jsx:57-61 | a document without labels fails the range test; otherwise it passes iff its primary score is within [min, max] |
| App.LowConfidenceMatches | src/App.jsx:63-69 | the low-confidence test, applied only when the checkbox is on; its meaning is stated by `LowConfidenceMatchesIsBelowThreshold` |
| App.LowConfidenceMatchesIsBelowThreshold | src/App.jsx:63-69 | with the checkbox on, a document passes iff it has no labels or its primary score is below 0.7 |
| App.AppState.ApplyFilters | src/App.jsx:45-72 | the three stages in turn compute the filter by the conjunction |
| App.EmptyDocumentExcluded | src/App.jsx:57-61 | a document without classifications never passes, since minus infinity is below any minimum |
| App.TypeMatchesAnyLabel | src/App.jsx:49-55 | any label can satisfy the type filter, not only the primary one |
| App.NonPrimaryLabelMatches | src/App.jsx:49-55 | a document whose primary label is Legal still matches the type "Medical" through its second label |
| App.InactiveFiltersKeepWellFormed | src/App.jsx:45-72 | inactive filters show every document that has a label and scores in [0, 1] |
| App.DefaultFiltersIdentity | src/App.jsx:14-19 | the initial filters show every such document |
| App.LowConfidenceCount | src/App.jsx:137-142 | the counter is at most the number of documents, and positive as soon as one document is below 0.7 at its best |
| App.LowConfidenceCountSplits | src/App.jsx:137-142 | the header counts documents flagged low confidence plus the documents without classifications |
| App.ManuallyEditedCount | src/App.jsx:167 | the count and the number of documents not edited add up to the total; so it is the total when all documents are edited and zero when none is |
| App.ReplaceById | src/App.jsx:86-90 | every document carrying the id becomes the reply; the others and the length are kept |
| App.ReplaceByIdIdempotent | src/App.jsx:86-90 | applying the same reply twice is the same as applying it once |
| App.ReplaceMissingIdKeepsList | src/App.jsx:86-90 | a reply for an id no document carries leaves the list as it is |
| App.FindById | src/App.jsx:94 | `find` is empty iff no document has the id; otherwise it is the first document that does |
| App.DisplayName | src/App.jsx:94-97 | the notification's name is never empty: the found name, or "Document" when the document is missing or unnamed |
| App.Merge | src/App.jsx:74-76 | `{...prev, ...newFilters}`: keys in the patch take its value, the others keep the previous one |
| App.MergeFullPatch | src/App.jsx:74-76 | merging a complete filter object replaces the previous filters |
| App.AppState.constructor | src/App.jsx:9-19 | the dashboard starts with no documents, loading, no error, no notification and the default filters |
| App.AppState.LoadDocuments | src/App.jsx:31-43 | loading ends false; success stores the list and clears the error; failure keeps the list and sets the load error |
| App.AppState.HandleFilterChange | src/App.jsx:74-76 | the filters become the merge of the old filters with the patch |
| App.AppState.HandleUpdateClassification | src/App.jsx:79-108 | returns whether the backend succeeded. Success replaces the document by id and keeps the error. The undo slot is overwritten only when the reply allows undo, with the name looked up in the list from before the update. Failure sets only the error |
| App.AppState.HandleUndo | src/App.jsx:111-130 | without a notification nothing happens. Otherwise the noted document is requested. Success replaces it and clears the notification and the error. Failure sets the prefixed error and keeps the notification |
| App.AppState.HandleDismissUndo | src/App.jsx:133-135 | the notification is cleared |
| App.AppState.DismissError | src/App.jsx:175 | the error banner's close button clears the error |
| ClassificationTable.NextSortConfig | src/components/ClassificationTable.jsx:7-13 | the clicked key becomes the key; the direction is descending iff that key was already the ascending key |
| ClassificationTable.ToggleTwiceRestores | src/components/ClassificationTable.jsx:7-13 | two clicks on the ascending column come back to ascending |
| ClassificationTable.OtherColumnStartsAscending | src/components/ClassificationTable.jsx:7-13 | a click on another column always starts ascending |
| ClassificationTable.PrecedesOrder | src/components/ClassificationTable.jsx:42-44 | the comparator's "before" is irreflexive, transitive and total on keys, in both directions |
| ClassificationTable.StringLessTransitive | src/components/ClassificationTable.jsx:42-43 | string `<` is transitive |
| ClassificationTable.StringLessTotal | src/components/ClassificationTable.jsx:42-43 | of two different strings one is `<` the other |
| ClassificationTable.Insert | src/components/ClassificationTable.jsx:18 | one insertion step of the reference sort adds one element; its order, permutation and stability are stated by the lemmas below |
| ClassificationTable.SortBy | src/components/ClassificationTable.jsx:18-45 | the reference stable sort keeps the length; it is sorted, a permutation and stable by the lemmas below |
| ClassificationTable.InsertPermutes | src/components/ClassificationTable.jsx:18 | one insertion step adds exactly the inserted element |
| ClassificationTable.SortByPermutes | src/components/ClassificationTable.jsx:18 | the sort returns a permutation of its input |
| ClassificationTable.InsertSorted | src/components/ClassificationTable.jsx:18 | inserting into a sorted list keeps it sorted |
| ClassificationTable.SortBySorted | src/components/ClassificationTable.jsx:18-45 | the result is ordered by the comparator |
| ClassificationTable.InsertStable | src/components/ClassificationTable.jsx:44 | inserting keeps the relative order of elements with equal keys, the inserted one last |
| ClassificationTable.SortByStable | src/components/ClassificationTable.jsx:44 | a comparator returning 0 keeps equal keys in input order (the sort is stable) |
| ClassificationTable.SortByFixesSorted | src/components/ClassificationTable.jsx:18-45 | sorting an already sorted list changes nothing |
| ClassificationTable.SortByIdempotent | src/components/ClassificationTable.jsx:18-45 | sorting twice is sorting once |
| ClassificationTable.InsertLast | src/components/ClassificationTable.jsx:18 | the in-place insertion step of the array sort computes the functional insertion and leaves the rest of the array alone |
| ClassificationTable.InsertionSort | src/components/ClassificationTable.jsx:18 | the array sorted in place equals the functional stable sort of its old contents |
| ClassificationTable.Key | src/components/ClassificationTable.jsx:21-40 | the key per column: the lower-cased name; the primary label or ""; the primary score or 0; 1 or 0 for edited |
| ClassificationTable.SortedDocuments | src/components/ClassificationTable.jsx:15-46 | the table shows a permutation of its documents, and the documents as given when no column is chosen |
| ClassificationTable.SortedDocumentsSpec | src/components/ClassificationTable.jsx:15-46 | with a column chosen, the table shows a permutation ordered by the column key, ascending or descending, with equal keys in input order |
| ClassificationTable.SortedDocumentsIdempotent | src/components/ClassificationTable.jsx:15-46 | sorting the shown list again with the same configuration changes nothing |
| ClassificationTable.DescendingIsNotReversedAscending | src/components/ClassificationTable.jsx:42-44 | two documents with the same name keep their order both ascending and descending |
| ClassificationTable.Table.constructor | src/components/ClassificationTable.jsx:5 | no column is chosen and the direction is ascending |
| ClassificationTable.Table.HandleSort | src/components/ClassificationTable.jsx:7-13 | the configuration becomes the next configuration for the clicked column |
| ClassificationTable.Table.GetSortedDocuments | src/components/ClassificationTable.jsx:15-46 | without a key the documents as given; otherwise the stable sort of a copy by the chosen key and direction |
| ClassificationTable.FormatClassificationsList | src/components/ClassificationTable.jsx:63-65 | the document's own array is sorted in place by descending score |
| ClassificationTable.DescendingSortKeepsPrimary | src/components/ClassificationTable.jsx:63-65 | after that sort the primary classification is the same and is first |
| ClassificationTable.DescendingSortKeepsLowConfidence | src/components/ClassificationTable.jsx:131-132 | that sort does not change the low-confidence flag of the row |
| ClassificationTable.ConfidenceColor | src/components/ClassificationTable.jsx:53-57 | high iff the score is at least 0.8, medium iff in [0.7, 0.8), low iff below 0.7 |
| ClassificationTable.LowColorIffLowConfidence | src/components/ClassificationTable.jsx:53-57 | a row's score is coloured low iff the row is flagged low confidence |
| ClassificationTable.BadgeClass | src/components/ClassificationTable.jsx:59-61 | the badge class has no whitespace and no upper-case letters and is no longer than the label; a label without whitespace gives just its lower-cased form |
| ClassificationTable.BadgeClassOfTwoWords | src/components/ClassificationTable.jsx:59-61 | two words separated by any whitespace run give the lower-cased words joined by one dash |
| ClassificationTable.BadgeClassIdempotent | src/components/ClassificationTable.jsx:59-61 | a badge class is its own badge class |
| EditModal.Total | src/components/EditModal.jsx:44 | the `reduce` sum of the scores; its properties are stated by `TotalAppend` and `TotalDivided` |
| EditModal.TotalAppend | src/components/EditModal.jsx:44 | the total of a concatenation is the sum of the totals |
| EditModal.TotalDivided | src/components/EditModal.jsx:45-46 | dividing every score by t divides the total by t |
| EditModal.WithLabel | src/components/EditModal.jsx:33-37 | only the label at the index changes; every score is kept |
| EditModal.WithScore | src/components/EditModal.jsx:40-41 | only the score at the index changes |
| EditModal.ScoreChanged | src/components/EditModal.jsx:39-50 | labels are kept. With a positive new total the scores are divided by it and sum to 1. Otherwise only the edited score differs |
| EditModal.ScoreChangedExample | src/components/EditModal.jsx:39-50 | editing Legal from 0.1 to 0.5 next to Medical 0.9 gives 0.9/1.4 and 0.5/1.4 |
| EditModal.Appended | src/components/EditModal.jsx:52-58 | the draft gains Medical 0.1 at the end and its total grows by 0.1 |
| EditModal.RemoveAt | src/components/EditModal.jsx:60-65 | the entry at the index is removed, unless only one entry is left |
| EditModal.Finalised | src/components/EditModal.jsx:71-75 | labels are kept. With a positive total every score is the old score divided by the total, so they sum to 1, each within [0, 1] when none is negative. Otherwise every score is 0 |
| EditModal.Differs | src/components/EditModal.jsx:29 | the change check compares the two lists entry by entry; `DiffersIsInequality` states that this is inequality |
| EditModal.DiffersIsInequality | src/components/EditModal.jsx:29 | the entrywise comparison is true exactly when the two lists differ |
| EditModal.DiffersOnReorder | src/components/EditModal.jsx:29 | the same entries in another order count as a change |
| EditModal.Modal.constructor | src/components/EditModal.jsx:23-31 | the draft is the document's array, sharing its entries, and there are no changes |
| EditModal.Modal.HandleLabelChange | src/components/EditModal.jsx:33-37 | a fresh entry at the index with the new label. The others and the document are kept. The change flag compares the draft's values with the document's |
| EditModal.Modal.HandleScoreChange | src/components/EditModal.jsx:39-50 | as written: fresh edited entry; the other entry objects are the same, now holding the normalised scores of the value-level edit; the change flag is recomputed |
| EditModal.ScoreEdit | src/components/EditModal.jsx:40-47 | the body of handleScoreChange on entry objects: the values become the value-level edit, the old entry at the index is untouched |
| EditModal.RescaleEntries | src/components/EditModal.jsx:46 | the `forEach` divides every entry object's score by the total, in place |
| EditModal.Modal.HandleScoreChangeCopying | src/components/EditModal.jsx:39-50 | the corrected edit: same values, and the document's entries keep their values |
| EditModal.Modal.AddClassification | src/components/EditModal.jsx:52-58 | a fresh Medical 0.1 entry is appended; the change flag is recomputed |
| EditModal.Modal.RemoveClassification | src/components/EditModal.jsx:60-65 | the draft loses the entry at the index unless only one is left; the document is kept |
| EditModal.Modal.HandleSave | src/components/EditModal.jsx:67-84 | hands the document id and the normalised draft to the save callback; saving stays true only when the callback resolved to true |
| EditModal.SharedEntryRewritten | src/components/EditModal.jsx:24-46 | a score edit in a fresh dialog rewrites the document's own Medical entry from 0.9 to 0.9/1.4 |
| EditModal.CopiedEntriesKept | src/components/EditModal.jsx:24-46 | with the copying edit the document's entries are unchanged |
| FilterControls.WithField | src/components/FilterControls.jsx:10-11 | the named key takes the new value and every other key is kept |
| FilterControls.WithFieldIsOneKeyMerge | src/components/FilterControls.jsx:11 | the spread with one key is the dashboard's merge with a one-key patch |
| FilterControls.WithFieldOverwrites | src/components/FilterControls.jsx:11 | setting the same key twice keeps only the second value |
| FilterControls.HasActiveFilters | src/components/FilterControls.jsx:27-32 | any key that narrows the list; `InactiveIffDefault` states that inactive means the reset values |
| FilterControls.InactiveIffDefault | src/components/FilterControls.jsx:27-32 | within the selectable range, no active filter iff the filters are the reset values |
| FilterControls.InactiveFiltersShowAll | src/components/FilterControls.jsx:27-32 | when no filter is active the dashboard shows every well-formed document |
| FilterControls.Controls.constructor | src/components/FilterControls.jsx:4 | the local filters start as the dashboard's |
| FilterControls.Controls.Receive | src/components/FilterControls.jsx:6-8 | the local filters become the dashboard's |
| FilterControls.Controls.HandleInputChange | src/components/FilterControls.jsx:10-14 | the local filters get the one-key update and exactly that object is reported |
| FilterControls.Controls.HandleReset | src/components/FilterControls.jsx:16-25 | the local and the reported filters are the defaults, which are inactive |
| FilterControls.ReportedFiltersReplaceDashboard | src/components/FilterControls.jsx:10-25 | the reported object replaces the dashboard's filters, for an edit and for a reset |
| UndoNotification.InitialTimeLeft | src/components/UndoNotification.jsx:4 | the countdown's start in seconds is the duration in milliseconds over 1000 |
| UndoNotification.Step | src/components/UndoNotification.jsx:8-14 | a tick dismisses iff at most one second is left, and then shows 0; otherwise it counts down one second; never negative |
| UndoNotification.AfterTicksNonNegative | src/components/UndoNotification.jsx:8-14 | after any ticks the countdown is not negative |
| UndoNotification.DismissOnTickN | src/components/UndoNotification.jsx:8-14 | from n >= 1 seconds, n - 1 ticks count down to 1 without dismissing, and tick n dismisses |
| UndoNotification.DefaultDismissesAfterThirtyTicks | src/components/UndoNotification.jsx:3-4 | the default 30000 ms is 30 seconds, and the banner dismisses itself on the 30th tick, not before |
| UndoNotification.Countdown.constructor | src/components/UndoNotification.jsx:4 | the countdown starts at duration / 1000 |
| UndoNotification.Countdown.Tick | src/components/UndoNotification.jsx:8-14 | the interval callback is one step, and the countdown stays non-negative |
| UndoNotification.Countdown.PressUndo | src/components/UndoNotification.jsx:20-22 | the undo button reports undo |
| UndoNotification.Countdown.PressDismiss | src/components/UndoNotification.jsx:24-26 | the close button reports dismiss |

## Left out

- Transport:
  - The axios client, its interceptors, the health check and the listing parameters (api.js 1-71) are left out: they are network I/O.
  - `getClassifications`, `updateClassification` and `undoClassification` become reply parameters.
- Failures: the console logging, and error texts other than the three fixed messages, are left out.
- Timing:
  - React's asynchronous state updates are not modelled. Each handler runs atomically, on the state from before it runs; `useEffect` runs where the code has one.
  - The dashboard recomputes the filtered list whenever the documents or filters change. The model exposes `ApplyFilters` for that rather than calling it from each handler.
  - `setInterval` and the clean-up of the timer are left out. `Countdown.Tick` is one callback, and `AfterTicks` assumes the interval keeps firing.
- Rendering:
  - JSX, CSS classes and the DOM are not modelled.
  - `getSortIcon` and the "Showing n documents" text are not modelled.
  - `handleEditClick` (an alert), the loading spinner and the empty-table message are not modelled.
  - The edit dialog's cancel confirmation (`window.confirm`) and its overlay click are not modelled.
- Formatting and parsing:
  - `formatConfidence` (`toFixed`) and the `label (nn.n%)` join of `formatClassificationsList` are left out. Only its in-place ordering effect is modelled.
  - `parseFloat` of the selects is left out: the edit carries a real number.
- Numbers:
  - Scores are exact reals. JavaScript floating point, its rounding, and the order of summation are not modelled.
  - A missing classifications list (`null`) is treated as an empty one.
- Text:
  - `toLowerCase` is ASCII only; Unicode case mapping is not modelled.
  - `\s` is the ASCII whitespace set.
  - String `<` compares Dafny characters, not UTF-16 code units.
- Clock: `Date.now()` is the integer parameter `now`.
- Change detection: JSON key order is not modelled. `JSON.stringify` is taken to compare label and score entry by entry, which holds when the documents carry only those two keys.
- Undo banner remounting: the banner is rendered without a `key` (src/App.jsx:194-201), so a second undoable save while it is shown keeps the running countdown, with the new document's name. `AppState` only stores the new notification; the countdown's lifetime across such replacements is not modelled.
- ClassificationTable.FormatClassificationsList: sorts a standalone array. In the source the array is the document's own `classifications`, so the descending reorder is also written back into the dashboard's documents; the model does not carry that write into `AppState.documents`. `DescendingSortKeepsPrimary` and `DescendingSortKeepsLowConfidence` show that the reorder changes neither the primary entry nor the low-confidence flag. It does change the array order that the edit dialog copies and that `JSON.stringify` compares.
- Row helpers:
  - The table's per-row primary/low-confidence display is covered through `DescendingSortKeepsLowConfidence` and `LowColorIffLowConfidence`.
  - `Key` keeps the `|| 0` and `|| ''` fallbacks only where they apply: a primary score of 0 or an empty primary label gives the same key either way.
- EditModal.Modal.HandleScoreChange: each old entry's new score appears only through `ValuesOf(draft)` together with the entry-identity ensures. It is not restated per object, which keeps the proof small.

## Findings

| source | as written | input that shows it | evidently intended | confidence | as-written member | corrected member |
|---|---|---|---|---|---|---|
| src/components/EditModal.jsx:24-46 | the draft copies the array but not its entry objects, and the normalising `forEach` rewrites the scores of the shared entries in place | a document with Medical 0.9 and Legal 0.1; Legal's score set to 0.5 in a fresh dialog turns the document's own Medical entry into 0.9/1.4 before any save, and the change flag compares the draft with this rewritten list | normalise copies, leaving the document's entries alone until the save | not executed | EditModal.SharedEntryRewritten | EditModal.Modal.HandleScoreChangeCopying |
