# Resizable-Table: column-width reconciliation in Dafny

This project models the column-width logic of the Resizable-Table widget, an
HTML table whose columns can be dragged wider or narrower, rebalance when the
container changes width, and can be shown or hidden from a header menu. The
widget keeps one record per table, `{columnRatios, tableWidth}`: the
percentage of the table width each column id takes, and the width at which
those percentages were valid. It derives pixel widths from that record and
rebuilds it after every drag, container resize or toggle.

The model covers both core source files:

- `src/ts/resizable-columns.ts`:
  - the ratio/width conversions and their rounding to 10 decimals;
  - the minimum and effective table width;
  - capturing ratios from the current widths;
  - rebalancing after a width change, where fixed columns keep their pixels
    and auto-resizable columns share the rest or are pinned at their minimum;
  - the drag session: the two walks in `mousedown`, the acceptance rule in
    `mousemove`, and the capture on `mouseup`;
  - resize handles, the storage key, and loading and saving the record.
- `src/ts/toggleable-columns.ts`:
  - numbering the cells;
  - collecting the hidden ids;
  - show and hide as per-cell attribute updates;
  - checkbox locking;
  - the toggle rebalancing. A newly shown column gets its minimum ratio and
    the largest entry is shrunk in steps of 0.1. A newly hidden column's
    ratio is split among the other visible auto-resizable columns.

Modules, one file each:

- `Results` (`results.dfy`): `Option` and `Result`.
- `Ratios` (`ratios.dfy`): `roundTo` and the conversions, over `real`.
- `Columns` (`columns.dfy`): the header record and column classes, the
  table-width functions, and the `Table` class.
- `TableStore` (`store.dfy`): the stored record, the storage key, and the
  `LocalStorage` class.
- `Resizable` (`resizable.dfy`): capture, width-change rebalancing, and the
  record plumbing.
- `Drag` (`drag.dfy`): the neighbour walks, the `DragSession` class and
  table initialisation.
- `Toggle` (`toggleable.dfy`): everything in the toggle file.

State the source updates in place is modelled as classes:

- the table's headers, body cells and checkbox states (`Columns.Table`);
- the key-value store (`TableStore.LocalStorage`);
- the drag closure's variables (`Drag.DragSession`).

Each loop of the source is a `method` with a `while` or `for` loop. The
method is proved equal to a recursive specification function, and the
lemmas state what that function promises.

Modelling choices:

- **Attributes.** A data attribute is `Absent` or `Text(s)`, so `'true'`,
  `'false'` and any other value stay distinct, as the source's string
  comparisons distinguish them.
- **Visibility.** A header's computed visibility (`display != none`) is the
  `visible` field.
- **Rounding.** `roundTo(x, 10)` is modelled exactly over reals, as
  `toFixed` rounds: the magnitude is rounded half away from zero to 10
  decimals, and values at or above 1e21 are unchanged. Facts about widths
  and ratios are stated against the exact quotients, within half a unit of
  the tenth decimal per rounding.
- **Key order.** The order of `Object.keys(columnRatios)` is an input
  sequence `keys`. It must hold each key of the record exactly once.

Two details of the toggle code that the model follows exactly:

- **Which branch runs.** The branch is chosen from the target's
  `data-shown` after its cells were updated. A column that the toggle shows
  gets the ratio of its minimum width, and then the shrink loop runs. A
  column that the toggle hides has its ratio shared out among the other
  visible auto-resizable columns, and is then set to 0.
- **Shrink-loop tie-break.** The `reduce` that picks the largest ratio
  compares with `prev > cur ? prev : cur`, so among equal ratios it keeps
  the later key.

## Model

| member | source | states |
|---|---|---|
| Ratios.RoundTo | src/ts/resizable-columns.ts:269-271 | the rounded value is within half a unit of the 10th decimal of its argument and keeps its sign |
| Ratios.RoundToIdempotent | src/ts/resizable-columns.ts:269-271 | a rounded value lies on the 10-decimal grid, so rounding it again changes nothing |
| Ratios.RoundToMonotone | src/ts/resizable-columns.ts:269-271 | rounding never reverses the order of two values |
| Ratios.ColumnWidthFromRatio | src/ts/resizable-columns.ts:261-263 | the width is `ratio * tableWidth / 100` up to half a unit |
| Ratios.ColumnRatioFromWidth | src/ts/resizable-columns.ts:265-267 | the ratio is `width / tableWidth * 100` up to half a unit, and is not negative for a non-negative width |
| Ratios.ExactConversionsInverse | src/ts/resizable-columns.ts:261-267 | without rounding, the two conversions undo each other for any non-zero table width |
| Ratios.RatioWidthRoundTrip | src/ts/resizable-columns.ts:261-267 | ratio to width and back returns the ratio up to `HalfUnit * (1 + 100 / tableWidth)` |
| Ratios.WidthRatioRoundTrip | src/ts/resizable-columns.ts:261-267 | width to ratio and back returns the width up to `HalfUnit * (1 + tableWidth / 100)` |
| Columns.Filter | src/ts/resizable-columns.ts:144-146 | a header is kept exactly when it is in the class (visible; visible with `'false'`; visible with `'true'`), and distinct ids stay distinct |
| Columns.ClassesOfVisible | src/ts/resizable-columns.ts:155-160 | filtering the visible headers by `data-auto-resizable` gives the fixed and auto-resizable classes |
| Columns.TableWidth | src/ts/resizable-columns.ts:148-150 | the table width is at least the container width and the minimum width, and equals one of them |
| Columns.MinTableWidth | src/ts/resizable-columns.ts:154-164 | the minimum table width is never negative when no column's minimum width is |
| Columns.MinTableWidthByColumn | src/ts/resizable-columns.ts:154-164 | the minimum width sums, per header: the current width of a visible `'false'` column, the minimum width of a visible `'true'` column, and 0 for every other header |
| Columns.ColumnWithId | src/ts/toggleable-columns.ts:196 | the header found carries the id and no header before it does, so it is the first one; with distinct ids it is the only one |
| TableStore.StripDigits | src/ts/resizable-columns.ts:236 | the result contains no digit and is no longer than the path |
| TableStore.StorageKey | src/ts/resizable-columns.ts:235-238 | the key is the prefix, the table id and a dash, followed by a digit-free part no longer than the path |
| TableStore.StripDigitsKeepsNonDigits | src/ts/resizable-columns.ts:236 | a path without digits is unchanged |
| TableStore.StripDigitsIdempotent | src/ts/resizable-columns.ts:236 | stripping twice is stripping once |
| TableStore.DigitsDoNotMatter | src/ts/resizable-columns.ts:236 | inserting a run of digits anywhere in the path does not change the stripped path |
| TableStore.SameTableKeyIff | src/ts/resizable-columns.ts:235-238 | one table's keys for two paths agree exactly when the paths agree once their digits are removed |
| TableStore.ParameterisedRoutesShareKey | src/ts/resizable-columns.ts:235-238 | `/items/42` and `/items/7` share the stored record |
| Resizable.CapturedRatios | src/ts/resizable-columns.ts:124-132 | the captured map has an entry for exactly the header ids |
| Resizable.CapturedRatio | src/ts/resizable-columns.ts:125-131 | a column of non-zero width gets the ratio of `max(clientWidth, minWidth)` within half a unit; at a positive table width the ratio is never negative |
| Resizable.CaptureRatios | src/ts/resizable-columns.ts:124-132 | the loop fills the map `CapturedRatios` describes |
| Resizable.CapturedRatiosOfDistinct | src/ts/resizable-columns.ts:129-131 | with distinct ids, each header's entry is its own captured ratio |
| Resizable.CapturedRatioBounds | src/ts/resizable-columns.ts:125-131 | a header of width 0 gets exactly 0; any other gets at least the ratio of its minimum width and of its current width |
| Resizable.CapturedWidthRestored | src/ts/resizable-columns.ts:125-131 | converting a captured ratio back gives `max(clientWidth, minWidth)` up to rounding, and 0 for a column of width 0 |
| Resizable.CapturedVisibleSum | src/ts/resizable-columns.ts:119-135 | when the visible headers fill the table width and none is below its minimum, their captured ratios sum to 100 within one half unit per column |
| Resizable.Rebalanced | src/ts/resizable-columns.ts:167-203 | the rebalanced record has the new table width and the same set of ids |
| Resizable.FixedRatio | src/ts/resizable-columns.ts:184 | a fixed column's new ratio is not negative when its old ratio and the widths are not |
| Resizable.ScaleFixed | src/ts/resizable-columns.ts:183-186 | the first loop's map keeps the set of ids |
| Resizable.Distribute | src/ts/resizable-columns.ts:190-198 | the second loop's map keeps the set of ids |
| Resizable.ScaleFixedRatios | src/ts/resizable-columns.ts:183-186 | the first loop rescales the fixed columns as `ScaleFixed` says and its accumulator is the sum of their new ratios |
| Resizable.DistributeRatios | src/ts/resizable-columns.ts:190-198 | the second loop computes `Distribute` |
| Resizable.RecalculateForResize | src/ts/resizable-columns.ts:167-203 | the two loops together compute `Rebalanced` |
| Resizable.RebalancedLeavesOthers | src/ts/resizable-columns.ts:168-200 | entries of hidden headers, of headers whose `data-auto-resizable` is neither `'true'` nor `'false'`, and of non-headers are unchanged |
| Resizable.RebalancedFixed | src/ts/resizable-columns.ts:183-184 | a fixed column's ratio becomes `roundTo(ratio * oldWidth / newWidth)` |
| Resizable.RebalancedFixedKeepsWidth | src/ts/resizable-columns.ts:183-186 | a fixed column keeps its pixel width across the change, up to one rounding scaled by the new width |
| Resizable.RebalancedResizable | src/ts/resizable-columns.ts:190-197 | an auto-resizable column's ratio is its share of what the fixed columns leave, or its minimum |
| Resizable.RebalancedShare | src/ts/resizable-columns.ts:193-194 | an unpinned auto-resizable column's ratio is its old ratio times `newResizableSum / oldResizableSum`, up to half a unit |
| Resizable.RebalancedPinnedAtMinimum | src/ts/resizable-columns.ts:195-196 | a pinned column's ratio is the ratio of its minimum width, and converts back to that width up to rounding |
| Resizable.RebalancedSumsTo100 | src/ts/resizable-columns.ts:175-197 | with a non-zero old resizable sum and no pinned column, fixed and auto-resizable ratios sum to 100 within one half unit per auto-resizable column |
| Resizable.RebalancedAtSameWidthIsIdentity | src/ts/resizable-columns.ts:167-203 | rebalancing at the width the record already has returns the record itself, when its ratios are on the rounding grid, sum to 100, and no column is pinned |
| Resizable.SaveTableProperties | src/ts/resizable-columns.ts:256-259 | the record is stored under the table's key and nothing else changes |
| Resizable.CaptureFromCurrentWidths | src/ts/resizable-columns.ts:119-135 | the captured record is stored under the table's key |
| Resizable.GetTableProperties | src/ts/resizable-columns.ts:240-254 | returns the stored record, or a fresh capture when there is none, and the store then holds what was returned |
| Resizable.SetColumnWidths | src/ts/resizable-columns.ts:205-216 | the record is saved under the table's key |
| Resizable.ResizeTable | src/ts/resizable-columns.ts:93-97 | the store ends up holding the stored (or captured) record rebalanced to the current table width |
| Drag.IsUnfitCurrent | src/ts/resizable-columns.ts:99-107 | an unfit header with a visible header at or before it is not the first header, and a visible header comes before it, so the left walk can always step left |
| Drag.IsUnfitNext | src/ts/resizable-columns.ts:109-117 | a visible unfit header always has a visible header after it, so only a hidden header can be unfit and last |
| Drag.WalkLeft | src/ts/resizable-columns.ts:44-48 | the left walk ends at or before the handle's header |
| Drag.WalkLeftStops | src/ts/resizable-columns.ts:99-107 | the left walk stops at a header that is resizable and not hidden, or the first visible one, and every header it passed is unfit |
| Drag.RightStepAsWritten | src/ts/resizable-columns.ts:57-59 | one pass of the right loop as written moves one header on, or stays put at the last header |
| Drag.RightWalkAsWrittenNeverEnds | src/ts/resizable-columns.ts:52-60 | for headers A, B shown and C hidden, pressing B's handle leaves the right loop at an unfit C that it never leaves |
| Drag.WalkRight | src/ts/resizable-columns.ts:52-60 | the corrected right walk, when it finds a header, finds one that is fit and at or after its start |
| Drag.WalkRightStops | src/ts/resizable-columns.ts:109-117 | every header the right walk passes is unfit, and it finds nothing exactly when every header to the end is unfit |
| Drag.WalkRightReachesLastVisible | src/ts/resizable-columns.ts:109-117 | starting at or before the last visible header, the right walk finds a header no later than it |
| Drag.AsWrittenAgreesWhenFound | src/ts/resizable-columns.ts:56-60 | whenever the corrected walk finds a header, the loop as written takes the same steps to the same header |
| Drag.MoveOutcome | src/ts/resizable-columns.ts:68-83 | a move is accepted exactly when both new widths are strictly above their minimums and neither column has `'false'` manual resizing; an accepted move grows the current column by the movement and keeps the pair's total width |
| Drag.DragSession.MouseDown | src/ts/resizable-columns.ts:33-66 | a press sets the start position, the current and next columns the two walks pick, and their widths; no press starts when the right walk finds nothing |
| Drag.DragSession.MouseMove | src/ts/resizable-columns.ts:68-83 | while listening, returns the two new widths exactly when the move is acceptable; the current column grows by the pointer's movement and the pair's total is kept |
| Drag.DragSession.MouseUp | src/ts/resizable-columns.ts:85-89 | a release stores the capture of the current widths and stops listening; the recorded columns, widths and start position stay |
| Drag.WithHandles | src/ts/resizable-columns.ts:218-227 | every header but the last gets one more handle; nothing else about the headers changes |
| Drag.HandlesOnAllButLast | src/ts/resizable-columns.ts:218-227 | from no handles, a header ends up with a handle exactly when it is not the last |
| Drag.CreateResizeHandlers | src/ts/resizable-columns.ts:218-227 | the loop gives the headers `WithHandles` and changes nothing else of the table |
| Drag.InitResizableTable | src/ts/resizable-columns.ts:10-22 | the store holds the record rebalanced to the current width when the widths differ, else the stored record; handles are added; cells, checkboxes and container width are unchanged; the new session is idle. Only the rebalancing branch needs rebalancing's preconditions |
| Toggle.IdAt | src/ts/toggleable-columns.ts:95-100 | with headers, the id given to a cell is one of the header ids, and the header's own id for a header position; with none it is the text `undefined` |
| Toggle.SetDataAttributesToCells | src/ts/toggleable-columns.ts:92-105 | every cell gets `data-shown="true"`; headers keep their ids and body cell `k` gets the id of header `k % n` |
| Toggle.BodyCellColumn | src/ts/toggleable-columns.ts:99-100 | the id a cell gets repeats every `n` cells |
| Toggle.HiddenIds | src/ts/toggleable-columns.ts:119-134 | an id is listed exactly when it is a header id whose stored ratio is exactly 0, and the list is no longer than the headers |
| Toggle.HiddenIdsAppend | src/ts/toggleable-columns.ts:125-131 | ids are listed in header order, once per header: one more header appends its id when its ratio is 0, and nothing otherwise |
| Toggle.GetHiddenColumnIds | src/ts/toggleable-columns.ts:119-134 | the loop returns `HiddenIds` of the stored (or captured) record and the store holds that record |
| Toggle.MarkHiddenCells | src/ts/toggleable-columns.ts:110-112 | cells whose id is listed get `data-shown="false"`; the others are unchanged |
| Toggle.SetDataShownToHiddenCells | src/ts/toggleable-columns.ts:107-113 | the cells of every column whose stored ratio is 0 are marked not shown, and nothing else changes |
| Toggle.MarkKeepsIds | src/ts/toggleable-columns.ts:148-172 | showing or hiding changes no header's id |
| Toggle.MarkCells | src/ts/toggleable-columns.ts:149-169 | every cell with the id gets the `hidden` class and `data-shown` the toggle gives; cells with other ids are unchanged |
| Toggle.ShowColumn | src/ts/toggleable-columns.ts:148-159 | every cell with the id is shown with `data-shown="true"`, other cells are unchanged, and the checkboxes are then `Locked` for the new headers |
| Toggle.HideColumn | src/ts/toggleable-columns.ts:161-172 | every cell with the id is hidden with `data-shown="false"`, other cells are unchanged, and the checkboxes are then `Locked` for the new headers |
| Toggle.Locked | src/ts/toggleable-columns.ts:174-188 | the checkbox of each visible auto-resizable column is disabled exactly when it is the only one; no other checkbox changes |
| Toggle.SetDisabled | src/ts/toggleable-columns.ts:179-186 | each listed checkbox gets the given state and every other keeps its own |
| Toggle.LockOrUnlockCheckboxes | src/ts/toggleable-columns.ts:174-188 | the loop leaves the checkbox states `Locked` gives for the headers; headers, cells and container width are unchanged |
| Toggle.MaxKeyIndex | src/ts/toggleable-columns.ts:209-210 | the chosen key holds the largest ratio, and every later key holds a strictly smaller one (a tie keeps the later key) |
| Toggle.Shrink | src/ts/toggleable-columns.ts:208-216 | the loop ends with a running sum at most 100 and above `100 - 0.1`; it does nothing when the sum starts at most 100; no entry grows and no key is added |
| Toggle.ShrinkRatios | src/ts/toggleable-columns.ts:208-216 | the `while` loop computes `Shrink` |
| Toggle.SumRatiosUpdate | src/ts/toggleable-columns.ts:206-214 | changing one header's ratio changes the header sum by the difference |
| Toggle.ShrinkTracksHeaders | src/ts/toggleable-columns.ts:206-216 | when every key is a header id, the running sum stays the sum over the headers, so the headers end at most 100 |
| Toggle.Recipients | src/ts/toggleable-columns.ts:218-220 | a header receives a share exactly when it is visible, auto-resizable with `'true'`, and not the target |
| Toggle.RecipientsDistinct | src/ts/toggleable-columns.ts:218-220 | recipients of distinct headers have distinct ids, none the target's |
| Toggle.Spread | src/ts/toggleable-columns.ts:222-226 | sharing out keeps the set of keys |
| Toggle.SpreadLeavesOthers | src/ts/toggleable-columns.ts:222-226 | an entry no recipient owns is unchanged |
| Toggle.SpreadGivesShare | src/ts/toggleable-columns.ts:222-226 | each recipient ends exactly one share above its old ratio |
| Toggle.SpreadRatios | src/ts/toggleable-columns.ts:222-226 | the `+=` loop, which reads the target's ratio on every pass, computes `Spread` with the share `target / n` |
| Toggle.HiddenRatios | src/ts/toggleable-columns.ts:218-228 | the hide branch's map has the old keys plus the target |
| Toggle.ShownRatios | src/ts/toggleable-columns.ts:202-216 | the show branch's map has the old keys plus the target, and it fails exactly when the stored table width is 0 |
| Toggle.RatioFromWidthAsWritten | src/ts/resizable-columns.ts:265-271 | in IEEE arithmetic a positive width has an infinite ratio exactly at table width 0, and otherwise the rounded ratio |
| Toggle.ShrinkAsWrittenNeverEndsAtZeroWidth | src/ts/toggleable-columns.ts:203-216 | at a stored table width of 0 and a positive minimum width, the running sum is infinite, so the loop condition holds, and a pass changes neither the sum nor the target's ratio |
| Toggle.Toggled | src/ts/toggleable-columns.ts:190-234 | the record keeps its table width and gains at most the target's key; the unknown-column error happens exactly when no header has the id |
| Toggle.SharedOverHeaders | src/ts/toggleable-columns.ts:218-228 | sharing the target's whole ratio keeps the sum over the headers |
| Toggle.HideSharesOut | src/ts/toggleable-columns.ts:218-228 | hiding with `n > 0` recipients: the target ends at 0, each recipient gains `target / n`, every other entry stays, and the header sum is unchanged |
| Toggle.ShowFitsHeaders | src/ts/toggleable-columns.ts:202-216 | showing, when every key is a header id: the headers end at most 100 and no other ratio grows |
| Toggle.ShowWithinHundred | src/ts/toggleable-columns.ts:203-208 | showing when the sum is then at most 100: the target gets the ratio of its minimum width and no other entry changes |
| Toggle.RecalculateForToggle | src/ts/toggleable-columns.ts:190-234 | the method computes `Toggled` from the stored (or captured) record, and the store holds that record |
| Toggle.ShowBranch | src/ts/toggleable-columns.ts:202-216 | the show branch computes `ShownRatios` |
| Toggle.HideBranch | src/ts/toggleable-columns.ts:217-229 | the hide branch computes `HiddenRatios` |
| Toggle.MarkedTargetShown | src/ts/toggleable-columns.ts:140-142 | after the cells are updated, the target reads as shown exactly when its checkbox is checked, so the show branch runs exactly then |
| Toggle.FlipVisibility | src/ts/toggleable-columns.ts:140 | shows or hides every cell of the column as the checkbox says, leaves the checkboxes `Locked` for the new headers and the container width as it was; the ids capture would record stay the same |
| Toggle.RecalculateAndSave | src/ts/toggleable-columns.ts:142-143 | the store ends with the toggled record, or the record it started from when recalculation fails |
| Toggle.ToggleColumn | src/ts/toggleable-columns.ts:136-145 | for a non-empty id: every cell of the column is updated first and the checkboxes are `Locked`, the branch follows the checkbox, and the store holds the record recalculated from the updated headers; an empty id changes nothing |

## Left out

- DOM access is not modelled; headers and cells are records. Widths are read from `clientWidth` fields, and the `style.width` writes of `setColumnWidths` and `mousemove` are not modelled. `setColumnWidths` is modelled by the save it ends with.
- `requestAnimationFrame` deferral is not modelled. The deferred writes are style writes.
- Event wiring is not modelled: `addEventListener` for mousedown, mousemove, mouseup, resize, contextmenu and click, and the outside-click listener. `MouseDown` takes the pressed handle's header position; a press elsewhere does nothing in the source.
- Header-menu construction and positioning are not modelled, nor `initTableWithToggleableColumns` and `hideColumnsOnLoading`, which only wire these operations together.
- `localStorage` and `JSON.parse`/`stringify` are a `map` from key to record held by `LocalStorage`. The JSON encoding is taken as lossless.
- Floating point is not modelled: widths and ratios are reals. Only the zero-width finding models an infinite value (`Toggle.Number`). The subtraction of 0.1 in the shrink loop and the division in the share are exact here.
- Ratios.RoundTo: only the precision 10 the source always passes is modelled.
- Element identity is modelled by header position (the drag walks) or by column id (`targetColumn`, and the recipients' `column !== targetColumn`). The two agree when ids are distinct.
- `clientWidth` does not change when a column is shown or hidden, because layout is not modelled. Capture after a toggle therefore uses the widths of before the toggle.
- Toggle.Toggled: where the source throws or computes with `undefined`, `NaN` or `Infinity`, the model returns an error and stores nothing. This covers three cases. An id no header has gives `NoSuchColumn`; the source throws a `TypeError`. A stored table width of 0 gives `ZeroTableWidth`; the source computes an infinite target ratio and, for a positive minimum width, its shrink loop never ends (see "## Findings"). A target or recipient missing from the record gives `MissingRatio`; the source computes `NaN`.
- Toggle.ShowFitsHeaders: assumes every stored key is a header id. With stale keys the running sum is over the headers while the shrink loop may shrink a stale key, so the header sum is not bounded by 100.
- Drag.DragSession.MouseDown: assumes the handle's header is visible and not the last. Only such headers carry a handle that can be pressed.
- Resizable.ResizeTable: assumes distinct header ids. With a repeated id the source still computes numbers: it rescales a repeated fixed id once per header and counts it once per header in the sums. The model does not describe that case.
- Resizable.ResizeTable: also requires a ratio for every visible fixed or auto-resizable header, a non-zero new width when there are such headers, and a non-zero old resizable sum unless every auto-resizable column is pinned. Without these the source divides by zero or reads `undefined`.
- Drag.InitResizableTable: needs the preconditions of Resizable.ResizeTable only when the current width differs from the stored one, which is the only case in which it rebalances.
- Toggle.LockOrUnlockCheckboxes: the source finds each checkbox with `document.querySelector`, across the whole page, so two tables sharing a column id lock or unlock each other's checkboxes. The model keeps the checkbox states per table, so it does not capture that interference.
- Toggle.ToggleColumn: requires a laid-out table (container width above 0), so that capture never divides by 0.

## Findings

| source | as written | input that shows it | evidently intended | confidence | as-written member | corrected member |
|---|---|---|---|---|---|---|
| src/ts/resizable-columns.ts:56-60 | the right walk advances only while a next sibling exists; on an unfit last header it loops forever | headers A and B shown, C hidden (`data-shown="false"`), handle of B pressed: the walk reaches C, which is unfit (hidden and not the last visible header) and has no next sibling | stop the walk when no later header is fit, and start no drag | not executed | Drag.RightWalkAsWrittenNeverEnds | Drag.WalkRight |
| src/ts/toggleable-columns.ts:203-216 | at a stored table width of 0, the target's minimum ratio is `Infinity`, so the running sum is `Infinity`; `Infinity - 0.1` is `Infinity`, so the shrink loop never ends | a record captured while the container had width 0 (a hidden tab, say) and every visible auto-resizable column had `data-min-width="0"`; then showing a hidden column with `data-min-width="50"` | end the toggle without changing the record | not executed | Toggle.ShrinkAsWrittenNeverEndsAtZeroWidth | Toggle.ShownRatios |
