# Grid recorder: walker and stored-state normalisation

A Dafny model of the core of a single-page tool for recording the outcome of a
repeated in-game activity. The results go in a grid of `types` columns
(categories), each with `count` rows (attempts). A cursor walks the grid
column by column. On each cell the user either records a group skill and a
series skill, or marks the cell skipped. The user can also step back one cell.
The whole session is saved to local storage and normalised when it is loaded
again.

Two parts of the source are modelled. They are independent: the form does not
read or write storage itself.

- **The walker** (`src/App.tsx`):
  - `grid.dfy`, module `Grid`: positions and the forward and backward moves as
    pure functions. It proves that the walk is column-major, that it ends after
    exactly `count * types` forward moves, and that stepping back and stepping
    forward undo each other.
  - `cell_key.dfy`, module `CellKey`: the `"col_row"` cell key built from
    decimal digits. It proves the key is injective.
  - `records.dfy`, module `Records`: the per-cell and per-column records, the
    record written by "next", the selection refilled by "back", and the
    spread-merge of a column edit.
  - `app_state.dfy`, module `AppState`: class `App`. Its fields are the
    component's state variables and each event handler is a method. Every
    method states the whole new state and keeps the invariant `Valid()`.
  - `sessions.dfy`, module `Sessions`: whole sessions driven through the
    handlers. Skipping every cell finishes the walk with every cell marked
    skipped. Proceeding and then stepping back restores the cursor and the
    selection. The two-by-two session runs record, skip, record, record.
- **Load-time normalisation** (`src/storage.ts`), `storage.dfy`, module
  `Storage`: `loadState` is a total function on the parsed record. `None`
  stands for a missing item, an empty string or text that fails to parse.
  Each absent property takes its default. A cursor outside the loaded
  dimensions is dropped. `saveState` is a best-effort write into the storage
  slot that never fails.
- `wrappers.dfy`, module `Wrappers`: the `Option` type. An absent or
  `undefined`/`null` value is `None`.

The model follows the code in three places where a reader might expect otherwise:

- Proceeding does not itself check that both skills are selected. The button
  is only disabled when they are not. `HandleNext` therefore has no such
  precondition, and an empty selection is stored as an absent property.
  `CanProceed` and `HandleNext` state what is recorded when the button is
  enabled.
- Stepping back and then forward does not always restore a cursor that lies
  outside the current grid. The dimensions can shrink during a walk, and a
  cursor outside the grid is not repaired until the next load. With 5 rows, a
  cursor at (0,10) steps back to (0,9) and then forward to the next column or
  to null. A cursor in a removed column comes back when its row is inside the
  grid and is not the first row. `PrevThenNextExactly` states the exact
  condition, and `PrevThenNext` states the in-grid case.
- A property present in a column edit with the value `undefined` clears that
  property. This is what spreading the update object does, and it is how both
  header selectors reset their choice.

## Model

| member | source | states |
|---|---|---|
| `Grid.NextStepsIndex` | src/App.tsx:86-98 | From an in-bounds cursor, a forward move stays in bounds and raises the column-major index `col*count+row` by exactly one. It finishes (null) exactly when the cursor was the last cell. |
| `Grid.Prev` | src/App.tsx:100-118 | Stepping back moves exactly when the cursor is not at the origin. For a row inside the grid it lowers the column-major index by exactly one and never moves to a later column. |
| `Grid.Next` | src/App.tsx:89-95 | The forward move from a cursor: (c,r+1), else (c+1,0), else null. It is null exactly from the last row of the last column, and it never moves left or more than one column. |
| `Grid.Advance` | src/App.tsx:86-95 | The forward move on a nullable cursor. A null cursor stays null (the early return), and a non-null one becomes null only from the last row of the last column. |
| `Grid.Walk` | src/App.tsx:86-98 | Starting at (0,0), the cursor after k forward moves is non-null exactly when k < count*types. It is then in bounds and its index is k. |
| `Grid.IndexInjective` | src/App.tsx:86-98 | Two in-bounds positions with the same column-major index are the same position. |
| `Grid.IndexInRange` | src/App.tsx:86-98 | Every in-bounds position has an index below count*types, so the walk reaches every cell. |
| `Grid.WalkIsColumnMajor` | src/App.tsx:86-98 | The k-th cursor of the walk is (k / count, k % count): all rows of column 0, then all rows of column 1, and so on. |
| `Grid.WalkVisitsEachOnce` | src/App.tsx:86-98 | No cell is visited twice during one walk. |
| `Grid.WalkStaysFinished` | src/App.tsx:86-87 | After count*types moves the cursor is null, and further moves leave it null. |
| `Grid.PrevThenNextExactly` | src/App.tsx:86-118 | From any cursor other than (0,0), stepping back and then forward returns to the same cursor exactly when 0 < row < count, or row = 0 and the column lies inside the grid. For 0 < row < count the column does not matter, so a cursor left in a removed column comes back from any row but the first. |
| `Grid.PrevThenNext` | src/App.tsx:86-118 | From an in-bounds cursor other than (0,0), stepping back and then forward returns to the same cursor. |
| `Grid.NextThenPrev` | src/App.tsx:86-118 | From an in-bounds cursor with a non-null successor, stepping forward and then back returns to the same cursor. |
| `CellKey.Digits` | src/App.tsx:76 | The decimal rendering of a number is non-empty and consists of the digits '0' to '9' only. It has at least two digits from 10 on. |
| `CellKey.DigitsInjective` | src/App.tsx:76 | Distinct numbers have distinct decimal renderings. |
| `CellKey.Key` | src/App.tsx:76 | `cellKey(col, row)`, the decimal column, '_' and the decimal row. The key holds exactly one '_', right after the column's digits. |
| `CellKey.KeyInjective` | src/App.tsx:76 | `cellKey` is injective: equal keys mean equal column and equal row, so writing one cell never overwrites another. |
| `Records.OrAbsent` | src/App.tsx:127-128 | An empty selection becomes `undefined`: the stored property is present exactly when the selection is non-empty, and it then holds the selection. |
| `Records.Recorded` | src/App.tsx:124-130 | The record written by "next" is never a skip and is well formed. With both skills selected it is exactly `{groupSkill, seriesSkill}`. Stepping back onto it refills exactly the selection that was recorded. |
| `Records.Prefill` | src/App.tsx:114-117 | The selection refilled on a back step, `prevData?.groupSkill ?? ""` and the same for the series skill: each stored skill when present, "" when the property is absent or there is no record. |
| `Records.PrefillSkipped` | src/App.tsx:114-117 | A skipped cell, `{skipped: true}`, refills both selections with "". |
| `Records.Merge` | src/App.tsx:58-66 | `{...prev, ...updates}`: each property named in the update takes the update's value, `undefined` included. Every other property keeps the old value, or is absent when the column had no config. |
| `Records.MergeIdempotent` | src/App.tsx:58-66 | Applying the same column edit twice gives the same config as applying it once. |
| `Records.MergeCommutes` | src/App.tsx:58-66 | A weapon-only edit and an attribute-only edit give the same config in either order. |
| `AppState.App.constructor` | src/App.tsx:19-32 | The initial state is a 1x1 grid with no configs, no cells, no cursor, not started, empty selections and the dialog closed. |
| `AppState.App.CellAt` | src/App.tsx:114 | The lookup `cellData[cellKey(col, row)]`. It is present exactly when the key is stored, and under the invariant a stored cell is well formed (exactly the skip marker, or an unskipped record with non-empty skills). |
| `AppState.App.CanGoBack` | src/App.tsx:120 | The back control is offered exactly when stepping back would move the cursor. |
| `AppState.App.ShowInputBar` | src/App.tsx:147 | Under the invariant, the input bar is shown exactly when there is a cursor cell to fill. |
| `AppState.App.IsComplete` | src/App.tsx:143 | A completed walk shows no input bar and is started. A started walk is complete exactly when it shows no input bar, so the completion notice and the input bar are never shown together. |
| `AppState.App.CanProceed` | src/App.tsx:145 | "Next" is enabled exactly when proceeding would record both the group skill and the series skill. |
| `AppState.App.GetHeaderLabel` | src/App.tsx:68-74 | The header is weapon " × " attribute when both are set and non-empty, the one that is set when only one is, and otherwise "種類" followed by the 1-based column number. |
| `AppState.App.FallbackHeadersDistinct` | src/App.tsx:68-74 | Two different columns with no weapon or attribute set never share a header. This covers columns with no config and columns whose choices were reset to `undefined`. |
| `AppState.App.SetCount` | src/App.tsx:179-190 | The attempt selector sets `count` to a value in 1..50. Nothing else changes, the cursor included. |
| `AppState.App.SetTypes` | src/App.tsx:199-210 | The column selector sets `types` to a value in 1..20. Nothing else changes, the cursor included. |
| `AppState.App.SelectGroupSkill` | src/App.tsx:413-416 | Sets the pending group skill only. |
| `AppState.App.SelectSeriesSkill` | src/App.tsx:434-437 | Sets the pending series skill only. |
| `AppState.App.UpdateColumnConfig` | src/App.tsx:58-66 | The edited column's config becomes the merge of its old config and the update. Every other column's config and header are unchanged. |
| `AppState.App.HandleStart` | src/App.tsx:78-84 | Sets the cursor to (0,0), empties the cells, clears both selections and sets started. Dimensions, configs and the dialog are unchanged. |
| `AppState.App.MoveToNext` | src/App.tsx:86-98 | The cursor goes to (c,r+1), else (c+1,0), else null, and both selections are cleared. With a null cursor nothing changes. No cell changes. |
| `AppState.App.MoveToPrev` | src/App.tsx:100-118 | When the back control is offered, the cursor moves one cell back and the selections are refilled from that cell's record ("" for an unvisited or skipped cell). Otherwise nothing changes. |
| `AppState.App.HandleNext` | src/App.tsx:122-132 | The cursor cell gets `{groupSkill, seriesSkill}`, with empty selections stored as absent and no skip flag. With "next" enabled both skills are stored. Every other cell is unchanged, then the cursor advances. With a null cursor nothing changes. |
| `AppState.App.HandleSkip` | src/App.tsx:134-141 | The cursor cell becomes exactly `{skipped: true}`. Every other cell is unchanged, then the cursor advances. With a null cursor nothing changes. |
| `AppState.App.OtherCellsUnchanged` | src/App.tsx:122-141 | Writing the key of one cell leaves every other cell's presence and record as they were. |
| `AppState.App.HandleResetClick` | src/App.tsx:149-151 | Only opens the confirmation dialog. |
| `AppState.App.HandleResetCancel` | src/App.tsx:162-164 | Only closes the confirmation dialog. |
| `AppState.App.HandleResetConfirm` | src/App.tsx:153-160 | Empties the cells and the selections, sets the cursor to null, clears started and closes the dialog. Count, types, column configs and every header are unchanged. |
| `Sessions.SkipEveryCell` | src/App.tsx:134-143 | After start, count*types skips finish the walk (no fewer, by `Grid.Walk`). The walk is then complete and every cell of the grid holds the skip marker. |
| `Sessions.ProceedThenStepBack` | src/App.tsx:100-132 | Proceeding from a cell with a successor and then stepping back restores the cursor and the selection, and that cell holds the recorded selection. |
| `Sessions.TwoByTwoSession` | src/App.tsx:78-143 | In a 2x2 grid, record, skip, record, record completes the walk with the four expected cells, and exactly those four keys are stored. |
| `Storage.LoadState` | src/storage.ts:26-56 | Always returns a state. Nothing usable stored gives exactly the default state (1, 1, 3, empty maps, not started, null cursor). Each present property passes through and each absent one takes its default. The cursor is kept exactly when it is present and inside the loaded (possibly defaulted) dimensions, so the result's cursor is always valid. |
| `Storage.CursorInBounds` | src/storage.ts:35-39 | The bounds check on a stored cursor: 0 <= col < types and 0 <= row < count. Only a grid with at least one row and one column admits a cursor. |
| `Storage.ToRecord` | src/storage.ts:58-64 | What writing a state and parsing it back yields: every property present. A state whose cursor is valid loads back from it unchanged. |
| `Storage.SaveState` | src/storage.ts:58-64 | A failed write leaves the slot unchanged and raises nothing. After a successful write, loading gives back the saved state, with its cursor dropped if it lay outside its grid. |
| `Storage.LoadIdempotent` | src/storage.ts:31-50 | Feeding a loaded state back in as a complete record loads the same state. |
| `Storage.ValidationUsesDefaultedTypes` | src/storage.ts:31-39 | With `types` absent, the default of one column applies. A cursor in column 1 is dropped and one in column 0 is kept. |
| `Storage.StaleColumnDropped` | src/storage.ts:34-41 | A stored cursor in column 5 of a 3-column grid is dropped and everything else is kept. |

## Left out

- Rendering: the markup, CSS classes, option lists and the completion notice
  (src/App.tsx:166-483).
- The dialog show/close effect and the click-outside listener. Together with
  the `editingColumn` popover state (src/App.tsx:24, 36-56), these are DOM side
  effects with no bearing on the grid.
- `localStorage`, `JSON.parse` and `JSON.stringify`. The storage slot holds the
  parsed record. A missing item, an empty string and a parse failure are
  `None`. So is a `null` parse result: reading a property of it throws, and
  the throw is caught. Other non-object parse results (a number, a string, a
  boolean, an array) throw nothing. Every property of them reads as
  `undefined` and takes its default, which gives the same default state as
  `None`. A quota failure on write is the `written` flag.
- Stored values of the wrong type. The model takes stored numbers to be
  integers and stored cursors to have integer `col` and `row`. Fractional
  numbers, strings in numeric fields and cursor objects without `col`/`row`
  are not modelled.
- `Number(e.target.value)` in the two dimension selectors: the selectors are
  modelled as offering only 1..50 and 1..20.
- The reference catalogs `src/data/weapons.ts` and `src/data/attributes.ts`,
  and the group and series skill catalogs. These only provide option labels;
  the model accepts any string as a selection or a config value.
- React's batching of state updates. Each handler runs as a sequence of field
  assignments. This gives the same result here, because `handleNext` and
  `handleSkip` read the cursor as it was when the event fired.
- Numbers in the model are unbounded. Positions stay far below any JavaScript
  precision limit under the 50 × 20 bound.
