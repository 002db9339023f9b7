/** The recording form's state and its event handlers: one object whose
    fields are the component's state variables, one method per handler. */
module AppState {
  import opened Wrappers
  import opened Grid
  import opened CellKey
  import opened Records

  const HEADER_SEPARATOR: string := " × "
  const HEADER_FALLBACK_PREFIX: string := "種類"

  class App {
    var count: nat                                  // attempts per column (rows)
    var types: nat                                  // categories (columns)
    var columnConfigs: map<nat, ColumnConfig>
    var isStarted: bool
    var cursor: Option<Pos>                         // None: no walk, or walk finished
    var cellData: map<string, CellData>             // keyed by Key(col, row)
    var selectedGroupSkill: string
    var selectedSeriesSkill: string
    var showResetModal: bool

    /** The selectors offer 1..50 attempts and 1..20 columns; the cursor is
        only ever set while a walk is started; every stored cell is one the
        handlers can write. The cursor is NOT kept within the bounds: the
        dimensions may shrink during a walk. */
    ghost predicate Valid()
      reads this
    {
      && 1 <= count <= 50 && 1 <= types <= 20
      && (cursor.Some? ==> isStarted)
      && forall k :: k in cellData ==> WellFormed(cellData[k])
    }

    /** The initial state of every `useState` call. */
    constructor ()
      ensures Valid()
      ensures count == 1 && types == 1 && columnConfigs == map[]
      ensures !isStarted && cursor == None && cellData == map[]
      ensures selectedGroupSkill == "" && selectedSeriesSkill == "" && !showResetModal
    {
      count, types, columnConfigs := 1, 1, map[];
      isStarted, cursor, cellData := false, None, map[];
      selectedGroupSkill, selectedSeriesSkill := "", "";
      showResetModal := false;
    }

    /** The record stored for cell `p`, if any. */
    function CellAt(p: Pos): (r: Option<CellData>)
      reads this
      ensures r.Some? <==> Key(p.col, p.row) in cellData
      ensures Valid() && r.Some? ==> WellFormed(r.value)
    {
      var k := Key(p.col, p.row);
      if k in cellData then Some(cellData[k]) else None
    }

    /** Whether the "one back" control is offered: exactly when stepping back
        moves the cursor. */
    function CanGoBack(): (b: bool)
      reads this
      requires Valid()
      ensures b <==> cursor.Some? && Prev(count, cursor.value).Some?
    {
      cursor.Some? && (cursor.value.row > 0 || cursor.value.col > 0)
    }

    /** Whether the input bar is shown: exactly when there is a cell to fill.
        With `IsComplete` it says the input bar and the completion notice
        are never shown together. */
    function ShowInputBar(): (b: bool)
      reads this
      ensures Valid() ==> (b <==> cursor.Some?)
    {
      isStarted && cursor.Some?
    }

    /** Whether the completion notice is shown. A started walk is complete
        exactly when it no longer asks for input, so the notice and the input
        bar are never shown together. */
    function IsComplete(): (b: bool)
      reads this
      ensures b ==> !ShowInputBar() && isStarted
      ensures isStarted ==> (b <==> !ShowInputBar())
    {
      cursor.None? && isStarted
    }

    /** Whether "next" is enabled: exactly when proceeding now records both
        skills. */
    function CanProceed(): (b: bool)
      reads this
      ensures b <==> (Recorded(selectedGroupSkill, selectedSeriesSkill).groupSkill.Some?
                      && Recorded(selectedGroupSkill, selectedSeriesSkill).seriesSkill.Some?)
    {
      selectedGroupSkill != "" && selectedSeriesSkill != ""
    }

    /** The header of column `col`: the configured weapon and attribute, joined
        by the separator when both are set, or a 1-based positional fallback. */
    function GetHeaderLabel(col: nat): (r: string)
      reads this
      ensures var c := if col in columnConfigs then Some(columnConfigs[col]) else None;
              var w := c.Some? && Truthy(c.value.weapon);
              var a := c.Some? && Truthy(c.value.attribute);
              && (w && a ==> r == c.value.weapon.value + HEADER_SEPARATOR + c.value.attribute.value)
              && (w && !a ==> r == c.value.weapon.value)
              && (!w && a ==> r == c.value.attribute.value)
              && (!w && !a ==> r == HEADER_FALLBACK_PREFIX + Digits(col + 1))
    {
      var config := if col in columnConfigs then Some(columnConfigs[col]) else None;
      var parts := (if config.Some? && Truthy(config.value.weapon) then [config.value.weapon.value] else [])
                 + (if config.Some? && Truthy(config.value.attribute) then [config.value.attribute.value] else []);
      if |parts| == 2 then parts[0] + HEADER_SEPARATOR + parts[1]
      else if |parts| == 1 then parts[0]
      else HEADER_FALLBACK_PREFIX + Digits(col + 1)
    }

    /** Two columns with no weapon or attribute set (no config, or one whose
        choices were reset to undefined) never share a header. */
    lemma FallbackHeadersDistinct(i: nat, j: nat)
      requires i != j
      requires i in columnConfigs ==> !Truthy(columnConfigs[i].weapon) && !Truthy(columnConfigs[i].attribute)
      requires j in columnConfigs ==> !Truthy(columnConfigs[j].weapon) && !Truthy(columnConfigs[j].attribute)
      ensures GetHeaderLabel(i) != GetHeaderLabel(j)
    {
      var p := HEADER_FALLBACK_PREFIX;
      if GetHeaderLabel(i) == GetHeaderLabel(j) {
        assert Digits(i + 1) == GetHeaderLabel(i)[|p|..];
        assert Digits(j + 1) == GetHeaderLabel(j)[|p|..];
        DigitsInjective(i + 1, j + 1);
      }
    }

    /** The attempt-count selector. */
    method SetCount(n: nat)
      requires Valid() && 1 <= n <= 50
      modifies this
      ensures Valid() && count == n
      ensures types == old(types) && columnConfigs == old(columnConfigs) && isStarted == old(isStarted)
      ensures cursor == old(cursor) && cellData == old(cellData)
      ensures selectedGroupSkill == old(selectedGroupSkill) && selectedSeriesSkill == old(selectedSeriesSkill)
      ensures showResetModal == old(showResetModal)
    {
      count := n;
    }

    /** The column-count selector. */
    method SetTypes(n: nat)
      requires Valid() && 1 <= n <= 20
      modifies this
      ensures Valid() && types == n
      ensures count == old(count) && columnConfigs == old(columnConfigs) && isStarted == old(isStarted)
      ensures cursor == old(cursor) && cellData == old(cellData)
      ensures selectedGroupSkill == old(selectedGroupSkill) && selectedSeriesSkill == old(selectedSeriesSkill)
      ensures showResetModal == old(showResetModal)
    {
      types := n;
    }

    /** The group-skill selector of the input bar. */
    method SelectGroupSkill(s: string)
      requires Valid()
      modifies this
      ensures Valid() && selectedGroupSkill == s
      ensures count == old(count) && types == old(types) && columnConfigs == old(columnConfigs)
      ensures isStarted == old(isStarted) && cursor == old(cursor) && cellData == old(cellData)
      ensures selectedSeriesSkill == old(selectedSeriesSkill) && showResetModal == old(showResetModal)
    {
      selectedGroupSkill := s;
    }

    /** The series-skill selector of the input bar. */
    method SelectSeriesSkill(s: string)
      requires Valid()
      modifies this
      ensures Valid() && selectedSeriesSkill == s
      ensures count == old(count) && types == old(types) && columnConfigs == old(columnConfigs)
      ensures isStarted == old(isStarted) && cursor == old(cursor) && cellData == old(cellData)
      ensures selectedGroupSkill == old(selectedGroupSkill) && showResetModal == old(showResetModal)
    {
      selectedSeriesSkill := s;
    }

    /** `updateColumnConfig`: merge a partial config into one column; every
        other column, and so every other header, is unchanged. */
    method UpdateColumnConfig(colIndex: nat, updates: ConfigUpdate)
      requires Valid()
      modifies this
      ensures Valid()
      ensures columnConfigs ==
                old(columnConfigs)[colIndex := Merge(if colIndex in old(columnConfigs)
                                                     then Some(old(columnConfigs)[colIndex]) else None, updates)]
      ensures forall j :: j != colIndex ==> GetHeaderLabel(j) == old(GetHeaderLabel(j))
      ensures count == old(count) && types == old(types) && isStarted == old(isStarted)
      ensures cursor == old(cursor) && cellData == old(cellData)
      ensures selectedGroupSkill == old(selectedGroupSkill) && selectedSeriesSkill == old(selectedSeriesSkill)
      ensures showResetModal == old(showResetModal)
    {
      var prev := if colIndex in columnConfigs then Some(columnConfigs[colIndex]) else None;
      columnConfigs := columnConfigs[colIndex := Merge(prev, updates)];
    }

    /** `handleStart`: a fresh walk from the first cell with no recorded cells
        and an empty selection. */
    method HandleStart()
      requires Valid()
      modifies this
      ensures Valid()
      ensures isStarted && cursor == Some(ORIGIN)
      ensures cellData == map[] && forall p :: CellAt(p) == None
      ensures selectedGroupSkill == "" && selectedSeriesSkill == ""
      ensures count == old(count) && types == old(types) && columnConfigs == old(columnConfigs)
      ensures showResetModal == old(showResetModal)
    {
      isStarted := true;
      cursor := Some(ORIGIN);
      cellData := map[];
      selectedGroupSkill := "";
      selectedSeriesSkill := "";
    }

    /** `moveToNext`: the cursor moves one cell forward in column-major order
        (finishing after the last cell) and the selection is cleared; with no
        cursor nothing changes. */
    method MoveToNext()
      requires Valid()
      modifies this
      ensures Valid()
      ensures cursor == Advance(count, types, old(cursor))
      ensures old(cursor).Some? ==> selectedGroupSkill == "" && selectedSeriesSkill == ""
      ensures old(cursor).None? ==> selectedGroupSkill == old(selectedGroupSkill)
                                    && selectedSeriesSkill == old(selectedSeriesSkill)
      ensures count == old(count) && types == old(types) && columnConfigs == old(columnConfigs)
      ensures isStarted == old(isStarted) && cellData == old(cellData)
      ensures showResetModal == old(showResetModal)
    {
      if cursor.None? {
        return;
      }
      var p := cursor.value;
      if p.row < count - 1 {
        cursor := Some(Pos(p.col, p.row + 1));
      } else if p.col < types - 1 {
        cursor := Some(Pos(p.col + 1, 0));
      } else {
        cursor := None;
      }
      selectedGroupSkill := "";
      selectedSeriesSkill := "";
    }

    /** `moveToPrev`: when the back control is offered, the cursor moves one
        cell back and the selection is refilled from the record there (empty
        for an unvisited or skipped cell); otherwise nothing changes. */
    method MoveToPrev()
      requires Valid()
      modifies this
      ensures Valid()
      ensures !old(CanGoBack()) ==>
                cursor == old(cursor) && selectedGroupSkill == old(selectedGroupSkill)
                && selectedSeriesSkill == old(selectedSeriesSkill)
      ensures old(CanGoBack()) ==>
                cursor == Prev(count, old(cursor).value)
                && (selectedGroupSkill, selectedSeriesSkill) == Prefill(CellAt(cursor.value))
      ensures count == old(count) && types == old(types) && columnConfigs == old(columnConfigs)
      ensures isStarted == old(isStarted) && cellData == old(cellData)
      ensures showResetModal == old(showResetModal)
    {
      if cursor.None? {
        return;
      }
      var p := cursor.value;
      var prevCol: nat, prevRow: nat;
      if p.row > 0 {
        prevCol, prevRow := p.col, p.row - 1;
      } else if p.col > 0 {
        prevCol, prevRow := p.col - 1, count - 1;
      } else {
        return;
      }
      var k := Key(prevCol, prevRow);
      var prevData := if k in cellData then Some(cellData[k]) else None;
      cursor := Some(Pos(prevCol, prevRow));
      selectedGroupSkill := if prevData.Some? then prevData.value.groupSkill.GetOr("") else "";
      selectedSeriesSkill := if prevData.Some? then prevData.value.seriesSkill.GetOr("") else "";
    }

    /** `handleNext`: the pending selection is written at the cursor's cell
        (empty skills as absent properties, no skip flag), no other cell
        changes, and the cursor moves forward; with no cursor nothing changes. */
    method HandleNext()
      requires Valid()
      modifies this
      ensures Valid()
      ensures old(cursor).None? ==>
                cursor == None && cellData == old(cellData) && selectedGroupSkill == old(selectedGroupSkill)
                && selectedSeriesSkill == old(selectedSeriesSkill)
      ensures old(cursor).Some? ==>
                var p := old(cursor).value;
                var d := Recorded(old(selectedGroupSkill), old(selectedSeriesSkill));
                && cellData == old(cellData)[Key(p.col, p.row) := d]
                && CellAt(p) == Some(d)
                && (old(CanProceed()) ==> CellAt(p) == Some(CellData(Some(old(selectedGroupSkill)),
                                                                     Some(old(selectedSeriesSkill)), None)))
                && (forall q :: q != p ==> CellAt(q) == old(CellAt(q)))
                && cursor == Next(count, types, p)
                && selectedGroupSkill == "" && selectedSeriesSkill == ""
      ensures count == old(count) && types == old(types) && columnConfigs == old(columnConfigs)
      ensures isStarted == old(isStarted) && showResetModal == old(showResetModal)
    {
      if cursor.None? {
        return;
      }
      var p := cursor.value;
      cellData := cellData[Key(p.col, p.row) := Recorded(selectedGroupSkill, selectedSeriesSkill)];
      OtherCellsUnchanged(old(cellData), p, Recorded(old(selectedGroupSkill), old(selectedSeriesSkill)));
      MoveToNext();
    }

    /** `handleSkip`: the cursor's cell becomes exactly the skip marker, no
        other cell changes, and the cursor moves forward; with no cursor
        nothing changes. */
    method HandleSkip()
      requires Valid()
      modifies this
      ensures Valid()
      ensures old(cursor).None? ==>
                cursor == None && cellData == old(cellData) && selectedGroupSkill == old(selectedGroupSkill)
                && selectedSeriesSkill == old(selectedSeriesSkill)
      ensures old(cursor).Some? ==>
                var p := old(cursor).value;
                && cellData == old(cellData)[Key(p.col, p.row) := SKIPPED]
                && CellAt(p) == Some(SKIPPED)
                && (forall q :: q != p ==> CellAt(q) == old(CellAt(q)))
                && cursor == Next(count, types, p)
                && selectedGroupSkill == "" && selectedSeriesSkill == ""
      ensures count == old(count) && types == old(types) && columnConfigs == old(columnConfigs)
      ensures isStarted == old(isStarted) && showResetModal == old(showResetModal)
    {
      if cursor.None? {
        return;
      }
      var p := cursor.value;
      cellData := cellData[Key(p.col, p.row) := SKIPPED];
      OtherCellsUnchanged(old(cellData), p, SKIPPED);
      MoveToNext();
    }

    /** Writing the key of cell `p` leaves the record of every other cell as it
        was. */
    static lemma OtherCellsUnchanged(m: map<string, CellData>, p: Pos, d: CellData)
      ensures forall q: Pos :: q != p ==>
                (Key(q.col, q.row) in m[Key(p.col, p.row) := d]) == (Key(q.col, q.row) in m)
                && (Key(q.col, q.row) in m ==> m[Key(p.col, p.row) := d][Key(q.col, q.row)] == m[Key(q.col, q.row)])
    {
      forall q: Pos | q != p
        ensures Key(q.col, q.row) != Key(p.col, p.row)
      {
        if Key(q.col, q.row) == Key(p.col, p.row) {
          KeyInjective(q.col, q.row, p.col, p.row);
        }
      }
    }

    /** The reset button only opens the confirmation dialog. */
    method HandleResetClick()
      requires Valid()
      modifies this
      ensures Valid() && showResetModal
      ensures count == old(count) && types == old(types) && columnConfigs == old(columnConfigs)
      ensures isStarted == old(isStarted) && cursor == old(cursor) && cellData == old(cellData)
      ensures selectedGroupSkill == old(selectedGroupSkill) && selectedSeriesSkill == old(selectedSeriesSkill)
    {
      showResetModal := true;
    }

    /** Cancelling the dialog only closes it. */
    method HandleResetCancel()
      requires Valid()
      modifies this
      ensures Valid() && !showResetModal
      ensures count == old(count) && types == old(types) && columnConfigs == old(columnConfigs)
      ensures isStarted == old(isStarted) && cursor == old(cursor) && cellData == old(cellData)
      ensures selectedGroupSkill == old(selectedGroupSkill) && selectedSeriesSkill == old(selectedSeriesSkill)
    {
      showResetModal := false;
    }

    /** `handleResetConfirm`: the contents (cells, selection, cursor, started
        flag) are cleared and the dialog closed; the dimensions and the column
        configuration, and so every header, are kept. */
    method HandleResetConfirm()
      requires Valid()
      modifies this
      ensures Valid()
      ensures cellData == map[] && forall p :: CellAt(p) == None
      ensures selectedGroupSkill == "" && selectedSeriesSkill == ""
      ensures !isStarted && cursor == None && !showResetModal && !IsComplete()
      ensures count == old(count) && types == old(types) && columnConfigs == old(columnConfigs)
      ensures forall j :: GetHeaderLabel(j) == old(GetHeaderLabel(j))
    {
      cellData := map[];
      selectedGroupSkill := "";
      selectedSeriesSkill := "";
      isStarted := false;
      cursor := None;
      showResetModal := false;
    }
  }
}
