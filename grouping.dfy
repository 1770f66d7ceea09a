/** `groupby([key]).sum()` on a wide table: one row per distinct key, date columns summed. */
module Grouping {
  import opened Frames
  import opened KeyOrder

  /** Every row has exactly `w` counts. */
  predicate Width(rows: seq<WideRow>, w: nat) {
    forall r :: 0 <= r < |rows| ==> |rows[r].counts| == w
  }

  /** The key column. */
  function Keys(rows: seq<WideRow>): seq<string> {
    seq(|rows|, i requires 0 <= i < |rows| => rows[i].key)
  }

  /** Date column `j` summed over the rows whose key is `k`. */
  function KeySum(rows: seq<WideRow>, k: string, j: nat): int
    requires forall r :: 0 <= r < |rows| ==> j < |rows[r].counts|
    decreases |rows|
  {
    if rows == [] then 0
    else (if rows[0].key == k then rows[0].counts[j] else 0) + KeySum(rows[1..], k, j)
  }

  /** Date column `j` summed over all rows. */
  function ColumnTotal(rows: seq<WideRow>, j: nat): int
    requires forall r :: 0 <= r < |rows| ==> j < |rows[r].counts|
    decreases |rows|
  {
    if rows == [] then 0 else rows[0].counts[j] + ColumnTotal(rows[1..], j)
  }

  /** The output row of group `k`. */
  function GroupRow(rows: seq<WideRow>, k: string, w: nat): WideRow
    requires Width(rows, w)
  {
    WideRow(k, seq(w, j requires 0 <= j < w => KeySum(rows, k, j)))
  }

  function GroupRows(ks: seq<string>, rows: seq<WideRow>, w: nat): (r: seq<WideRow>)
    requires Width(rows, w)
    ensures |r| == |ks|
    ensures forall i :: 0 <= i < |ks| ==> r[i] == GroupRow(rows, ks[i], w)
    decreases |ks|
  {
    if ks == [] then [] else [GroupRow(rows, ks[0], w)] + GroupRows(ks[1..], rows, w)
  }

  /** `groupby([key]).sum()`: the groups in ascending key order, each date column summed
      over the group's rows. */
  function Aggregate(t: WideTable): (a: WideTable)
    requires t.Valid()
    ensures a.Valid() && a.dates == t.dates
    ensures StrictlySorted(Keys(a.rows))
    ensures forall k :: k in Keys(a.rows) <==> k in Keys(t.rows)
    ensures forall i, j :: 0 <= i < |a.rows| && 0 <= j < |a.dates| ==>
              a.rows[i].counts[j] == KeySum(t.rows, a.rows[i].key, j)
  {
    var ks := SortedKeys(Keys(t.rows));
    var rows := GroupRows(ks, t.rows, |t.dates|);
    assert Keys(rows) == ks;
    WideTable(t.dates, rows)
  }

  // ----- column totals -----

  /** Column `j` summed group by group over the keys `ks`. */
  function SumOverKeys(ks: seq<string>, rows: seq<WideRow>, j: nat): int
    requires forall r :: 0 <= r < |rows| ==> j < |rows[r].counts|
    decreases |ks|
  {
    if ks == [] then 0 else KeySum(rows, ks[0], j) + SumOverKeys(ks[1..], rows, j)
  }

  lemma {:induction false} GroupRowsTotal(ks: seq<string>, rows: seq<WideRow>, w: nat, j: nat)
    requires Width(rows, w) && j < w
    ensures ColumnTotal(GroupRows(ks, rows, w), j) == SumOverKeys(ks, rows, j)
    decreases |ks|
  {
    if ks != [] {
      var g := GroupRows(ks, rows, w);
      assert g[1..] == GroupRows(ks[1..], rows, w);
      GroupRowsTotal(ks[1..], rows, w, j);
    }
  }

  /** Peeling the first row off the table takes its count out of exactly one group. */
  lemma {:induction false} SumOverKeysFirstRow(ks: seq<string>, rows: seq<WideRow>, j: nat)
    requires StrictlySorted(ks) && rows != []
    requires forall r :: 0 <= r < |rows| ==> j < |rows[r].counts|
    ensures SumOverKeys(ks, rows, j)
         == SumOverKeys(ks, rows[1..], j) + (if rows[0].key in ks then rows[0].counts[j] else 0)
    decreases |ks|
  {
    if ks != [] {
      assert StrictlySorted(ks[1..]);
      SumOverKeysFirstRow(ks[1..], rows, j);
      if rows[0].key == ks[0] {
        forall i | 0 <= i < |ks[1..]| ensures ks[1..][i] != ks[0] {
          SortedDistinct(ks, 0, i + 1);
        }
      }
      assert ks == [ks[0]] + ks[1..];
    }
  }

  lemma {:induction false} SumOverCoveringKeys(ks: seq<string>, rows: seq<WideRow>, j: nat)
    requires StrictlySorted(ks)
    requires forall r :: 0 <= r < |rows| ==> j < |rows[r].counts| && rows[r].key in ks
    ensures SumOverKeys(ks, rows, j) == ColumnTotal(rows, j)
    decreases |rows|
  {
    if rows == [] {
      SumOverNoRows(ks, j);
    } else {
      SumOverKeysFirstRow(ks, rows, j);
      SumOverCoveringKeys(ks, rows[1..], j);
    }
  }

  lemma {:induction false} SumOverNoRows(ks: seq<string>, j: nat)
    ensures SumOverKeys(ks, [], j) == 0
    decreases |ks|
  {
    if ks != [] { SumOverNoRows(ks[1..], j); }
  }

  /** Aggregation preserves every column total. */
  lemma AggregateTotals(t: WideTable, j: nat)
    requires t.Valid() && j < |t.dates|
    ensures ColumnTotal(Aggregate(t).rows, j) == ColumnTotal(t.rows, j)
  {
    var ks := SortedKeys(Keys(t.rows));
    GroupRowsTotal(ks, t.rows, |t.dates|, j);
    forall r | 0 <= r < |t.rows| ensures t.rows[r].key in ks {
      assert Keys(t.rows)[r] == t.rows[r].key;
    }
    SumOverCoveringKeys(ks, t.rows, j);
  }

  // ----- groups of one row -----

  /** A key carried by a single row sums to that row's counts. */
  lemma {:induction false} KeySumSingle(rows: seq<WideRow>, i: nat, j: nat)
    requires i < |rows|
    requires forall r :: 0 <= r < |rows| ==> j < |rows[r].counts|
    requires forall r :: 0 <= r < |rows| && r != i ==> rows[r].key != rows[i].key
    ensures KeySum(rows, rows[i].key, j) == rows[i].counts[j]
    decreases |rows|
  {
    if i == 0 {
      KeySumAbsent(rows[1..], rows[i].key, j);
    } else {
      KeySumSingle(rows[1..], i - 1, j);
    }
  }

  lemma {:induction false} KeySumAbsent(rows: seq<WideRow>, k: string, j: nat)
    requires forall r :: 0 <= r < |rows| ==> j < |rows[r].counts| && rows[r].key != k
    ensures KeySum(rows, k, j) == 0
    decreases |rows|
  {
    if rows != [] { KeySumAbsent(rows[1..], k, j); }
  }

  /** A row whose key no other row shares passes through aggregation unchanged. */
  lemma AggregateSingleRow(t: WideTable, i: nat)
    requires t.Valid() && i < |t.rows|
    requires forall r :: 0 <= r < |t.rows| && r != i ==> t.rows[r].key != t.rows[i].key
    ensures exists g :: 0 <= g < |Aggregate(t).rows| && Aggregate(t).rows[g] == t.rows[i]
  {
    var a := Aggregate(t);
    assert Keys(t.rows)[i] == t.rows[i].key;
    assert t.rows[i].key in Keys(a.rows);
    var g :| 0 <= g < |a.rows| && Keys(a.rows)[g] == t.rows[i].key;
    forall j | 0 <= j < |t.dates| ensures a.rows[g].counts[j] == t.rows[i].counts[j] {
      KeySumSingle(t.rows, i, j);
    }
  }

  /** Aggregating an aggregated table changes nothing. */
  lemma AggregateIdempotent(t: WideTable)
    requires t.Valid()
    ensures Aggregate(Aggregate(t)) == Aggregate(t)
  {
    var a := Aggregate(t);
    var ks := Keys(a.rows);
    SortedKeysOfSorted(ks);
    var b := Aggregate(a);
    forall g | 0 <= g < |a.rows| ensures b.rows[g] == a.rows[g] {
      forall j | 0 <= j < |a.dates| ensures b.rows[g].counts[j] == a.rows[g].counts[j] {
        forall r | 0 <= r < |a.rows| && r != g ensures a.rows[r].key != a.rows[g].key {
          assert ks[r] == a.rows[r].key && ks[g] == a.rows[g].key;
          SortedDistinct(ks, r, g);
        }
        KeySumSingle(a.rows, g, j);
      }
    }
  }
}
