/** Whole sessions driven through the handlers, as a user clicks through the
    form: what the handlers' contracts add up to. */
module Sessions {
  import opened Wrappers
  import opened Grid
  import opened CellKey
  import opened Records
  import opened AppState

  /** Start, then press skip once per cell: count * types presses
      finish the walk, the walk is then complete, and every cell of the grid
      holds the skip marker. */
  method SkipEveryCell(app: App)
    requires app.Valid()
    modifies app
    ensures app.Valid() && app.IsComplete()
    ensures app.count == old(app.count) && app.types == old(app.types)
    ensures app.columnConfigs == old(app.columnConfigs)
    ensures forall p :: InBounds(app.count, app.types, p) ==> app.CellAt(p) == Some(SKIPPED)
  {
    app.HandleStart();
    var n := app.count * app.types;
    var k := 0;
    while k < n
      invariant 0 <= k <= n
      invariant app.Valid() && app.isStarted
      invariant app.count == old(app.count) && app.types == old(app.types)
      invariant app.columnConfigs == old(app.columnConfigs)
      invariant n == app.count * app.types
      invariant app.cursor == Walk(app.count, app.types, k)
      invariant forall p :: InBounds(app.count, app.types, p) && Index(app.count, p) < k ==>
                              app.CellAt(p) == Some(SKIPPED)
      decreases n - k
    {
      ghost var q := app.cursor.value;
      app.HandleSkip();
      forall p | InBounds(app.count, app.types, p) && Index(app.count, p) < k + 1
        ensures app.CellAt(p) == Some(SKIPPED)
      {
        if Index(app.count, p) == k {
          IndexInjective(app.count, app.types, p, q);
        }
      }
      k := k + 1;
    }
    forall p | InBounds(app.count, app.types, p)
      ensures app.CellAt(p) == Some(SKIPPED)
    {
      IndexInRange(app.count, app.types, p);
    }
  }

  /** Proceeding from a cell that has a successor and then stepping back
      returns to that cell with the selection that was just recorded there. */
  method ProceedThenStepBack(app: App)
    requires app.Valid() && app.cursor.Some? && InBounds(app.count, app.types, app.cursor.value)
    requires Next(app.count, app.types, app.cursor.value).Some?
    modifies app
    ensures app.Valid() && app.cursor == old(app.cursor)
    ensures app.selectedGroupSkill == old(app.selectedGroupSkill)
    ensures app.selectedSeriesSkill == old(app.selectedSeriesSkill)
    ensures app.CellAt(app.cursor.value) == Some(Recorded(old(app.selectedGroupSkill), old(app.selectedSeriesSkill)))
  {
    NextThenPrev(app.count, app.types, app.cursor.value);
    app.HandleNext();
    app.MoveToPrev();
  }

  /** The session of two attempts in two columns: record, skip, record,
      record; the walk is then complete with all four cells filled. */
  method TwoByTwoSession() returns (app: App)
    ensures app.Valid() && app.IsComplete()
    ensures app.CellAt(Pos(0, 0)) == Some(CellData(Some("A"), Some("a"), None))
    ensures app.CellAt(Pos(0, 1)) == Some(SKIPPED)
    ensures app.CellAt(Pos(1, 0)) == Some(CellData(Some("B"), Some("b"), None))
    ensures app.CellAt(Pos(1, 1)) == Some(CellData(Some("C"), Some("c"), None))
    ensures app.cellData.Keys == {Key(0, 0), Key(0, 1), Key(1, 0), Key(1, 1)}
  {
    app := new App();
    app.SetCount(2);
    app.SetTypes(2);
    app.HandleStart();
    app.SelectGroupSkill("A");
    app.SelectSeriesSkill("a");
    app.HandleNext();
    assert app.cellData.Keys == {Key(0, 0)};
    ghost var a := app.CellAt(Pos(0, 0));
    assert a == Some(CellData(Some("A"), Some("a"), None));
    assert app.cursor == Some(Pos(0, 1));
    app.HandleSkip();
    assert app.cursor == Some(Pos(1, 0));
    assert app.CellAt(Pos(0, 0)) == a;
    assert app.cellData.Keys == {Key(0, 0), Key(0, 1)};
    ghost var b := app.CellAt(Pos(0, 1));
    assert b == Some(SKIPPED);
    app.SelectGroupSkill("B");
    app.SelectSeriesSkill("b");
    assert app.CellAt(Pos(0, 0)) == a && app.CellAt(Pos(0, 1)) == b;
    app.HandleNext();
    assert app.cursor == Some(Pos(1, 1));
    assert app.CellAt(Pos(0, 0)) == a && app.CellAt(Pos(0, 1)) == b;
    assert app.cellData.Keys == {Key(0, 0), Key(0, 1), Key(1, 0)};
    ghost var c := app.CellAt(Pos(1, 0));
    app.SelectGroupSkill("C");
    app.SelectSeriesSkill("c");
    assert app.CellAt(Pos(0, 0)) == a && app.CellAt(Pos(0, 1)) == b && app.CellAt(Pos(1, 0)) == c;
    app.HandleNext();
    assert app.CellAt(Pos(0, 0)) == a && app.CellAt(Pos(0, 1)) == b && app.CellAt(Pos(1, 0)) == c;
  }
}
