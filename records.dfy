/** The values stored per cell and per column, and the pure rules for
    building them from the pending selection and for merging column edits. */
module Records {
  import opened Wrappers

  /** What one cell holds. A missing entry in the cell map means "not yet
      visited"; each field here is an optional property of the stored object. */
  datatype CellData = CellData(groupSkill: Option<string>, seriesSkill: Option<string>, skipped: Option<bool>)

  /** The optional weapon/attribute labels shown in a column's header. */
  datatype ColumnConfig = ColumnConfig(weapon: Option<string>, attribute: Option<string>)

  /** One property of a partial update object: either not mentioned (`Keep`),
      or mentioned with a value, where `Put(None)` is an explicit `undefined`
      that clears the property when spread over the old object. */
  datatype Patch = Keep | Put(value: Option<string>)

  datatype ConfigUpdate = ConfigUpdate(weapon: Patch, attribute: Patch)

  /** The record written by a skip: exactly `{ skipped: true }`. */
  const SKIPPED: CellData := CellData(None, None, Some(true))

  /** `s || undefined`: an empty selection is stored as an absent property. */
  function OrAbsent(s: string): (o: Option<string>)
    ensures o.Some? <==> s != ""
    ensures o.Some? ==> o.value == s
  {
    if s == "" then None else Some(s)
  }

  /** JavaScript truthiness of an optional string. */
  predicate Truthy(o: Option<string>) {
    o.Some? && o.value != ""
  }

  /** The pending selection restored when stepping back onto a cell:
      `prevData?.groupSkill ?? ""`, and the same for the series skill. */
  function Prefill(d: Option<CellData>): (sel: (string, string))
    ensures d.None? ==> sel == ("", "")
    ensures d.Some? ==> (d.value.groupSkill.Some? ==> sel.0 == d.value.groupSkill.value)
                        && (d.value.groupSkill.None? ==> sel.0 == "")
    ensures d.Some? ==> (d.value.seriesSkill.Some? ==> sel.1 == d.value.seriesSkill.value)
                        && (d.value.seriesSkill.None? ==> sel.1 == "")
  {
    match d
    case None => ("", "")
    case Some(c) => (c.groupSkill.GetOr(""), c.seriesSkill.GetOr(""))
  }

  /** A cell the walk can produce: exactly the skip marker, or an unskipped
      record whose present skills are non-empty. */
  predicate WellFormed(d: CellData) {
    d == SKIPPED || (d.skipped.None? && (d.groupSkill.Some? ==> d.groupSkill.value != "")
                                      && (d.seriesSkill.Some? ==> d.seriesSkill.value != ""))
  }

  /** The record written when the user proceeds with the pending selection. It
      is never a skip, and stepping back onto it restores that selection. */
  function Recorded(group: string, series: string): (d: CellData)
    ensures WellFormed(d) && d != SKIPPED && d.skipped.None?
    ensures Prefill(Some(d)) == (group, series)
    ensures group != "" && series != "" ==> d == CellData(Some(group), Some(series), None)
  {
    CellData(OrAbsent(group), OrAbsent(series), None)
  }

  /** A skipped cell restores an empty selection. */
  lemma PrefillSkipped()
    ensures WellFormed(SKIPPED) && Prefill(Some(SKIPPED)) == ("", "")
  {
  }

  /** `{ ...prev, ...updates }`: every property mentioned in the update wins,
      every other property keeps its old value (or is absent when there was no
      old object). */
  function Merge(prev: Option<ColumnConfig>, u: ConfigUpdate): (c: ColumnConfig)
    ensures u.weapon.Put? ==> c.weapon == u.weapon.value
    ensures u.weapon.Keep? ==> c.weapon == (if prev.Some? then prev.value.weapon else None)
    ensures u.attribute.Put? ==> c.attribute == u.attribute.value
    ensures u.attribute.Keep? ==> c.attribute == (if prev.Some? then prev.value.attribute else None)
  {
    var old' := prev.GetOr(ColumnConfig(None, None));
    ColumnConfig(
      if u.weapon.Put? then u.weapon.value else old'.weapon,
      if u.attribute.Put? then u.attribute.value else old'.attribute)
  }

  /** Applying the same update twice is the same as applying it once. */
  lemma MergeIdempotent(prev: Option<ColumnConfig>, u: ConfigUpdate)
    ensures Merge(Some(Merge(prev, u)), u) == Merge(prev, u)
  {
  }

  /** A weapon-only edit and an attribute-only edit commute. */
  lemma MergeCommutes(prev: Option<ColumnConfig>, w: Option<string>, a: Option<string>)
    ensures Merge(Some(Merge(prev, ConfigUpdate(Put(w), Keep))), ConfigUpdate(Keep, Put(a)))
         == Merge(Some(Merge(prev, ConfigUpdate(Keep, Put(a)))), ConfigUpdate(Put(w), Keep))
  {
  }
}
