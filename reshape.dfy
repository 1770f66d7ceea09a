/** `date_convert`: turn a wide table (one row per entity) into a table with one row per
    date, a leading `Date` column and one column per entity. */
module Reshape {
  import opened Frames

  /** `transpose().reset_index()` with the former column headers renamed to `Date`:
      cell (entity e, date d) moves to (row d, column e). */
  function Transpose(t: WideTable): (f: DateFrame)
    requires t.Valid()
    ensures f.Valid()
    ensures |f.entities| == |t.rows| && |f.rows| == |t.dates|
    ensures forall e :: 0 <= e < |t.rows| ==> f.entities[e] == t.rows[e].key
    ensures forall d :: 0 <= d < |t.dates| ==> f.rows[d].date == t.dates[d]
    ensures forall d, e :: 0 <= d < |t.dates| && 0 <= e < |t.rows| ==>
              f.rows[d].values[e] == t.rows[e].counts[d]
  {
    DateFrame(
      seq(|t.rows|, e requires 0 <= e < |t.rows| => t.rows[e].key),
      seq(|t.dates|, d requires 0 <= d < |t.dates| =>
        DateRow(t.dates[d], seq(|t.rows|, e requires 0 <= e < |t.rows| => t.rows[e].counts[d]))))
  }

  /** The inverse orientation: entity columns back to entity rows. */
  function Untranspose(f: DateFrame): (t: WideTable)
    requires f.Valid()
    ensures t.Valid()
    ensures |t.rows| == |f.entities| && |t.dates| == |f.rows|
  {
    WideTable(
      seq(|f.rows|, d requires 0 <= d < |f.rows| => f.rows[d].date),
      seq(|f.entities|, e requires 0 <= e < |f.entities| =>
        WideRow(f.entities[e], seq(|f.rows|, d requires 0 <= d < |f.rows| => f.rows[d].values[e]))))
  }

  /** Transposing back restores the wide table. */
  lemma UntransposeTranspose(t: WideTable)
    requires t.Valid()
    ensures Untranspose(Transpose(t)) == t
  {
    var u := Untranspose(Transpose(t));
    assert u.dates == t.dates;
    forall e | 0 <= e < |t.rows| ensures u.rows[e] == t.rows[e] {
      assert u.rows[e].counts == t.rows[e].counts;
    }
  }

  /** Transposing a date-oriented table and back restores it. */
  lemma TransposeUntranspose(f: DateFrame)
    requires f.Valid()
    ensures Transpose(Untranspose(f)) == f
  {
    var g := Transpose(Untranspose(f));
    assert g.entities == f.entities;
    forall d | 0 <= d < |f.rows| ensures g.rows[d] == f.rows[d] {
      assert g.rows[d].values == f.rows[d].values;
    }
  }
}
