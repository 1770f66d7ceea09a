/** `pd.melt(df, id_vars=['Date'])`: one long row per (date, entity) cell, entity columns
    stacked one after another, dates in table order within each entity. */
module Melting {
  import opened Frames

  /** The long rows of entity column `e`, one per date. */
  function Column(f: DateFrame, e: nat): (c: seq<LongRow>)
    requires f.Valid() && e < |f.entities|
    ensures |c| == |f.rows|
  {
    seq(|f.rows|, d requires 0 <= d < |f.rows| =>
      LongRow(f.rows[d].date, f.entities[e], f.rows[d].values[e]))
  }

  /** The columns from `e` on, stacked. */
  function MeltFrom(f: DateFrame, e: nat): seq<LongRow>
    requires f.Valid() && e <= |f.entities|
    decreases |f.entities| - e
  {
    if e == |f.entities| then [] else Column(f, e) + MeltFrom(f, e + 1)
  }

  /** One long row per cell of the frame. */
  function Melt(f: DateFrame): (m: seq<LongRow>)
    requires f.Valid()
    ensures |m| == |f.entities| * |f.rows|
  {
    MeltFromLength(f, 0);
    MeltFrom(f, 0)
  }

  lemma {:induction false} MeltFromLength(f: DateFrame, e: nat)
    requires f.Valid() && e <= |f.entities|
    ensures |MeltFrom(f, e)| == (|f.entities| - e) * |f.rows|
    decreases |f.entities| - e
  {
    if e < |f.entities| {
      MeltFromLength(f, e + 1);
      assert (|f.entities| - e) * |f.rows| == |f.rows| + (|f.entities| - (e + 1)) * |f.rows|;
    }
  }

  lemma {:induction false} MeltFromAt(f: DateFrame, e: nat, k: nat, d: nat)
    requires f.Valid() && e + k < |f.entities| && d < |f.rows|
    ensures k * |f.rows| + d < |MeltFrom(f, e)|
    ensures MeltFrom(f, e)[k * |f.rows| + d] ==
            LongRow(f.rows[d].date, f.entities[e + k], f.rows[d].values[e + k])
    decreases k
  {
    var n := |f.rows|;
    MeltFromLength(f, e);
    MeltFromLength(f, e + 1);
    if k > 0 {
      MeltFromAt(f, e + 1, k - 1, d);
      assert k * n + d == n + ((k - 1) * n + d);
    }
  }

  /** Cell (date d, entity e) is melted row `e * n + d`, where n is the number of dates. */
  lemma MeltAt(f: DateFrame, e: nat, d: nat)
    requires f.Valid() && e < |f.entities| && d < |f.rows|
    ensures |Melt(f)| == |f.entities| * |f.rows|
    ensures e * |f.rows| + d < |Melt(f)|
    ensures Melt(f)[e * |f.rows| + d] == LongRow(f.rows[d].date, f.entities[e], f.rows[d].values[e])
  {
    MeltFromLength(f, 0);
    MeltFromAt(f, 0, e, d);
  }

  /** Every melted row is one cell: row i holds the cell of date i % n and entity i / n. */
  lemma MeltIndex(f: DateFrame, i: nat)
    requires f.Valid() && i < |Melt(f)|
    ensures |f.rows| > 0 && i / |f.rows| < |f.entities|
    ensures Melt(f)[i] == LongRow(f.rows[i % |f.rows|].date, f.entities[i / |f.rows|],
                                  f.rows[i % |f.rows|].values[i / |f.rows|])
  {
    var n := |f.rows|;
    MeltFromLength(f, 0);
    assert n > 0;
    var e, d := i / n, i % n;
    assert i == e * n + d;
    assert e < |f.entities|;
    MeltAt(f, e, d);
  }

  /** Pivots a long table of `m` entity blocks of `n` dates each back to a date-oriented table. */
  function Unmelt(long: seq<LongRow>, n: nat, m: nat): (f: DateFrame)
    requires 0 < n && 0 < m && |long| == m * n
    ensures f.Valid() && |f.rows| == n && |f.entities| == m
  {
    DateFrame(
      seq(m, e requires 0 <= e < m => long[Position(e, 0, n, m)].entity),
      seq(n, d requires 0 <= d < n =>
        DateRow(long[Position(0, d, n, m)].date,
                seq(m, e requires 0 <= e < m => long[Position(e, d, n, m)].value))))
  }

  /** Where cell (entity e, date d) sits in a long table of m blocks of n rows. */
  function Position(e: nat, d: nat, n: nat, m: nat): (p: nat)
    requires e < m && d < n
    ensures p < m * n
    ensures p == e * n + d
  {
    assert e * n + d < (e + 1) * n <= m * n;
    e * n + d
  }

  /** Melting then un-melting recovers the date-oriented table. */
  lemma UnmeltMelt(f: DateFrame)
    requires f.Valid() && 0 < |f.rows| && 0 < |f.entities|
    ensures |Melt(f)| == |f.entities| * |f.rows|
    ensures Unmelt(Melt(f), |f.rows|, |f.entities|) == f
  {
    var n, m := |f.rows|, |f.entities|;
    MeltAt(f, 0, 0);
    var g := Unmelt(Melt(f), n, m);
    forall e | 0 <= e < m ensures g.entities[e] == f.entities[e] {
      MeltAt(f, e, 0);
    }
    forall d | 0 <= d < n ensures g.rows[d] == f.rows[d] {
      MeltAt(f, 0, d);
      forall e | 0 <= e < m ensures g.rows[d].values[e] == f.rows[d].values[e] {
        MeltAt(f, e, d);
      }
    }
  }

  // ----- date order within each entity -----

  /** The rows of each entity appear in strictly ascending date order. */
  predicate GroupsAscending(rs: seq<LongRow>) {
    forall j, i :: 0 <= j < i < |rs| && rs[j].entity == rs[i].entity ==> rs[j].date < rs[i].date
  }

  predicate DatesAscending(f: DateFrame) {
    forall d1, d2 :: 0 <= d1 < d2 < |f.rows| ==> f.rows[d1].date < f.rows[d2].date
  }

  predicate DistinctEntities(f: DateFrame) {
    forall e1, e2 :: 0 <= e1 < e2 < |f.entities| ==> f.entities[e1] != f.entities[e2]
  }

  lemma {:induction false} MeltFromEntities(f: DateFrame, e: nat, i: nat)
    requires f.Valid() && e <= |f.entities| && i < |MeltFrom(f, e)|
    ensures exists e' :: e <= e' < |f.entities| && MeltFrom(f, e)[i].entity == f.entities[e']
    decreases |f.entities| - e
  {
    if i >= |f.rows| {
      MeltFromEntities(f, e + 1, i - |f.rows|);
    }
  }

  lemma {:induction false} MeltFromAscending(f: DateFrame, e: nat)
    requires f.Valid() && e <= |f.entities| && DatesAscending(f) && DistinctEntities(f)
    ensures GroupsAscending(MeltFrom(f, e))
    decreases |f.entities| - e
  {
    if e < |f.entities| {
      var c, rest := Column(f, e), MeltFrom(f, e + 1);
      MeltFromAscending(f, e + 1);
      forall j, i | 0 <= j < |c| && 0 <= i < |rest| ensures c[j].entity != rest[i].entity {
        MeltFromEntities(f, e + 1, i);
      }
      ConcatAscending(c, rest);
    }
  }

  lemma ConcatAscending(a: seq<LongRow>, b: seq<LongRow>)
    requires GroupsAscending(a) && GroupsAscending(b)
    requires forall j, i :: 0 <= j < |a| && 0 <= i < |b| ==> a[j].entity != b[i].entity
    ensures GroupsAscending(a + b)
  {
    var s := a + b;
    forall j, i | 0 <= j < i < |s| && s[j].entity == s[i].entity ensures s[j].date < s[i].date {
      if i < |a| {
        assert s[j] == a[j] && s[i] == a[i];
      } else if j >= |a| {
        assert s[j] == b[j - |a|] && s[i] == b[i - |a|];
      } else {
        assert false;
      }
    }
  }

  /** With ascending dates and distinct entity columns, each entity's melted rows ascend in date. */
  lemma MeltGroupsAscending(f: DateFrame)
    requires f.Valid() && DatesAscending(f) && DistinctEntities(f)
    ensures GroupsAscending(Melt(f))
  {
    MeltFromAscending(f, 0);
  }
}
