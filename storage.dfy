/** Load-time normalisation of the persisted session and the best-effort
    save. The stored text itself is not modelled: what the storage slot holds
    is the already-parsed record, `None` when nothing usable is stored. */
module Storage {
  import opened Wrappers
  import opened Records

  /** A stored cursor; the stored numbers are not known to be in range. */
  datatype StoredCursor = StoredCursor(col: int, row: int)

  /** The full record, as `loadState` returns it. */
  datatype StoredState = StoredState(
    count: int,
    types: int,
    partsCount: int,
    columnConfigs: map<nat, ColumnConfig>,
    cellData: map<string, CellData>,
    isStarted: bool,
    cursor: Option<StoredCursor>)

  /** A parsed record in which any property may be missing (or null). */
  datatype PartialRecord = PartialRecord(
    count: Option<int>,
    types: Option<int>,
    partsCount: Option<int>,
    columnConfigs: Option<map<nat, ColumnConfig>>,
    cellData: Option<map<string, CellData>>,
    isStarted: Option<bool>,
    cursor: Option<StoredCursor>)

  const DEFAULT_STATE: StoredState :=
    StoredState(1, 1, 3, map[], map[], false, None)

  /** The bounds a cursor must satisfy for a grid of `types` columns of
      `count` rows. */
  function CursorInBounds(c: StoredCursor, count: int, types: int): (b: bool)
    ensures b ==> count >= 1 && types >= 1
  {
    0 <= c.col < types && 0 <= c.row < count
  }

  /** The state's cursor is absent or inside its own grid. */
  predicate CursorValid(s: StoredState) {
    s.cursor.None? || CursorInBounds(s.cursor.value, s.count, s.types)
  }

  /** `loadState` on what the slot holds (`None`: nothing stored, an empty
      string, or text that does not parse to an object). It never fails. */
  function LoadState(saved: Option<PartialRecord>): (s: StoredState)
    ensures saved.None? ==> s == DEFAULT_STATE
    ensures CursorValid(s)
    ensures saved.Some? ==>
              var p := saved.value;
              && (p.count.Some? ==> s.count == p.count.value)
              && (p.count.None? ==> s.count == DEFAULT_STATE.count)
              && (p.types.Some? ==> s.types == p.types.value)
              && (p.types.None? ==> s.types == DEFAULT_STATE.types)
              && (p.partsCount.Some? ==> s.partsCount == p.partsCount.value)
              && (p.partsCount.None? ==> s.partsCount == DEFAULT_STATE.partsCount)
              && (p.columnConfigs.Some? ==> s.columnConfigs == p.columnConfigs.value)
              && (p.columnConfigs.None? ==> s.columnConfigs == DEFAULT_STATE.columnConfigs)
              && (p.cellData.Some? ==> s.cellData == p.cellData.value)
              && (p.cellData.None? ==> s.cellData == DEFAULT_STATE.cellData)
              && (p.isStarted.Some? ==> s.isStarted == p.isStarted.value)
              && (p.isStarted.None? ==> s.isStarted == DEFAULT_STATE.isStarted)
              && (s.cursor.Some? <==> p.cursor.Some? && CursorInBounds(p.cursor.value, s.count, s.types))
              && (s.cursor.Some? ==> s.cursor == p.cursor)
  {
    match saved
    case None => DEFAULT_STATE
    case Some(parsed) =>
      var count := parsed.count.GetOr(DEFAULT_STATE.count);
      var types := parsed.types.GetOr(DEFAULT_STATE.types);
      var cursor := if parsed.cursor.Some? then parsed.cursor else DEFAULT_STATE.cursor;
      var validCursor := if cursor.Some? && CursorInBounds(cursor.value, count, types) then cursor else None;
      StoredState(
        count,
        types,
        parsed.partsCount.GetOr(DEFAULT_STATE.partsCount),
        parsed.columnConfigs.GetOr(DEFAULT_STATE.columnConfigs),
        parsed.cellData.GetOr(DEFAULT_STATE.cellData),
        parsed.isStarted.GetOr(DEFAULT_STATE.isStarted),
        validCursor)
  }

  /** What serialising a state and parsing it back yields: every property
      present. */
  function ToRecord(s: StoredState): (r: PartialRecord)
    ensures r.count.Some? && r.types.Some? && r.partsCount.Some? && r.columnConfigs.Some?
    ensures r.cellData.Some? && r.isStarted.Some?
    ensures CursorValid(s) ==> LoadState(Some(r)) == s
  {
    PartialRecord(Some(s.count), Some(s.types), Some(s.partsCount), Some(s.columnConfigs),
                  Some(s.cellData), Some(s.isStarted), s.cursor)
  }

  /** `saveState`: the slot holds the state when the write succeeds; a failed
      write (`written == false`, e.g. the quota is exceeded) is swallowed and
      leaves the slot as it was. A state whose cursor is in bounds loads back
      exactly; one with a stale cursor loads back with the cursor dropped. */
  function SaveState(slot: Option<PartialRecord>, state: StoredState, written: bool): (r: Option<PartialRecord>)
    ensures !written ==> r == slot
    ensures written && CursorValid(state) ==> LoadState(r) == state
    ensures written && !CursorValid(state) ==> LoadState(r) == state.(cursor := None)
  {
    if written then Some(ToRecord(state)) else slot
  }

  /** Loading what a load returned, saved back in full, changes nothing. */
  lemma LoadIdempotent(saved: Option<PartialRecord>)
    ensures LoadState(Some(ToRecord(LoadState(saved)))) == LoadState(saved)
  {
  }

  /** The loaded cursor is validated against the loaded dimensions: with no
      stored `types`, the default of one column applies, so a cursor in
      column 1 is dropped even though it fit the grid it was saved with. */
  lemma ValidationUsesDefaultedTypes(count: int, row: int)
    requires 0 <= row < count
    ensures LoadState(Some(PartialRecord(Some(count), None, None, None, None, Some(true),
                                         Some(StoredCursor(1, row))))).cursor == None
    ensures LoadState(Some(PartialRecord(Some(count), None, None, None, None, Some(true),
                                         Some(StoredCursor(0, row))))).cursor == Some(StoredCursor(0, row))
  {
  }

  /** A cursor beyond the stored column count, such as column 5 of 3, is
      dropped while everything else is kept. */
  lemma StaleColumnDropped(s: StoredState)
    requires s.types == 3 && s.cursor == Some(StoredCursor(5, 2))
    ensures LoadState(Some(ToRecord(s))) == s.(cursor := None)
  {
  }
}
