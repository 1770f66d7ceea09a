/** One entity whose cumulative deaths are 1, 2, 5, 9, 10, 12, 15, 20, 25, 30 on days 1..10. */
module Scenario {
  import opened Wrappers
  import opened Frames
  import opened Melting
  import opened Metrics
  import opened MetricLaws

  predicate ExampleCounts(vals: seq<int>) {
    |vals| == 10 && vals[0] == 1 && vals[1] == 2 && vals[2] == 5 && vals[3] == 9 && vals[4] == 10 &&
    vals[5] == 12 && vals[6] == 15 && vals[7] == 20 && vals[8] == 25 && vals[9] == 30
  }

  predicate IsExample(f: DateFrame, vals: seq<int>) {
    ExampleCounts(vals) && f.entities == ["A"] && |f.rows| == 10 &&
    forall d :: 0 <= d < 10 ==> f.rows[d] == DateRow(d + 1, [vals[d]])
  }

  /** The retained rows of the example: the last six days. */
  function ExampleRetained(vals: seq<int>): seq<LongRow>
    requires |vals| == 10
  {
    seq(6, i requires 0 <= i < 6 => LongRow(i + 5, "A", vals[i + 4]))
  }

  lemma MeltedExample(f: DateFrame, vals: seq<int>)
    requires IsExample(f, vals)
    ensures f.Valid()
    ensures |Melt(f)| == 10 && forall i :: 0 <= i < 10 ==> Melt(f)[i] == LongRow(i + 1, "A", vals[i])
  {
    assert |Melt(f)| == 10 by { MeltAt(f, 0, 0); }
    forall i | 0 <= i < 10 ensures Melt(f)[i] == LongRow(i + 1, "A", vals[i]) {
      MeltAt(f, 0, i);
    }
  }

  lemma RetainedExample(m: seq<LongRow>, vals: seq<int>)
    requires ExampleCounts(vals)
    requires |m| == 10 && forall i :: 0 <= i < 10 ==> m[i] == LongRow(i + 1, "A", vals[i])
    ensures Retain(m) == ExampleRetained(vals)
  {
    var head, tail := m[..4], m[4..];
    assert m == head + tail;
    RetainAppend(head, tail);
    forall i | 0 <= i < 4 ensures head[i].value < Threshold {
      assert head[i] == m[i];
      assert i == 0 || i == 1 || i == 2 || i == 3;
    }
    RetainEmpty(head);
    forall i | 0 <= i < 6 ensures tail[i] == ExampleRetained(vals)[i] {
      assert tail[i] == m[i + 4];
    }
    assert tail == ExampleRetained(vals);
    forall i | 0 <= i < 6 ensures tail[i].value >= Threshold {
      assert i == 0 || i == 1 || i == 2 || i == 3 || i == 4 || i == 5;
    }
    RetainAll(tail);
  }

  /** The filter keeps the last six days. */
  lemma ExampleRows(f: DateFrame, vals: seq<int>)
    requires IsExample(f, vals)
    ensures f.Valid() && Retain(Melt(f)) == ExampleRetained(vals)
  {
    MeltedExample(f, vals);
    RetainedExample(Melt(f), vals);
  }

  /** On the retained rows: `Days` counts 0..5 and `daily_change` is the day-by-day
      difference. */
  lemma RetainedColumns(rs: seq<LongRow>, vals: seq<int>, i: nat)
    requires ExampleCounts(vals) && rs == ExampleRetained(vals) && i < 6
    ensures AllRetained(rs) && GroupsAscending(rs)
    ensures TidyTable(rs)[i].days == i
    ensures TidyTable(rs)[i].dailyChange == if i == 0 then 0 else vals[i + 4] - vals[i + 3]
    ensures TidyTable(rs)[i].dailyRollAvg == TidyTable(rs)[i].dailyChange
  {
    forall q | 0 <= q < 6 ensures rs[q].value >= Threshold {
      assert q == 0 || q == 1 || q == 2 || q == 3 || q == 4 || q == 5;
    }
    assert GroupStart(rs, i) == 0;
    DaysFromGroupStart(rs, i);
    if i == 0 {
      FirstRowZero(rs, i);
    } else {
      assert LastBelow(rs, "A", i) == Some(i - 1);
      LaterRowChange(rs, i);
    }
    SmallGroupRollIsChange(rs, i);
  }

  /** The tidy table of the retained rows: `Days` 0..5, `daily_change` 0, 2, 3, 5, 5, 5 and
      `daily_roll_avg` equal to `daily_change` throughout. */
  lemma ExampleTable(rs: seq<LongRow>, vals: seq<int>)
    requires ExampleCounts(vals) && rs == ExampleRetained(vals)
    ensures AllRetained(rs) && |TidyTable(rs)| == 6
    ensures forall i :: 0 <= i < 6 ==> TidyTable(rs)[i].days == i
    ensures forall i :: 0 <= i < 6 ==> TidyTable(rs)[i].dailyChange == [0, 2, 3, 5, 5, 5][i]
    ensures forall i :: 0 <= i < 6 ==> TidyTable(rs)[i].dailyRollAvg == TidyTable(rs)[i].dailyChange
  {
    RetainedColumns(rs, vals, 0);
    forall i | 0 <= i < 6
      ensures TidyTable(rs)[i].days == i
      ensures TidyTable(rs)[i].dailyChange == [0, 2, 3, 5, 5, 5][i]
      ensures TidyTable(rs)[i].dailyRollAvg == TidyTable(rs)[i].dailyChange
    {
      RetainedColumns(rs, vals, i);
      ExampleChange(vals, i);
    }
  }

  lemma ExampleChange(vals: seq<int>, i: nat)
    requires ExampleCounts(vals) && i < 6
    ensures (if i == 0 then 0 else vals[i + 4] - vals[i + 3]) == [0, 2, 3, 5, 5, 5][i]
  {
    if i == 0 {
    } else if i == 1 {
    } else if i == 2 {
    } else if i == 3 {
    } else if i == 4 {
    } else {
      assert i == 5;
    }
  }

  /** `tidy_death_data` on the example: the table of the six retained days. */
  lemma ExampleTidy(f: DateFrame, vals: seq<int>)
    requires IsExample(f, vals)
    ensures f.Valid() && TidySpec(f).Ok? && |TidySpec(f).value| == 6
    ensures forall i :: 0 <= i < 6 ==> TidySpec(f).value[i].days == i
    ensures forall i :: 0 <= i < 6 ==> TidySpec(f).value[i].dailyChange == [0, 2, 3, 5, 5, 5][i]
    ensures forall i :: 0 <= i < 6 ==> TidySpec(f).value[i].dailyRollAvg == TidySpec(f).value[i].dailyChange
  {
    ExampleRows(f, vals);
    var rs := ExampleRetained(vals);
    ExampleTable(rs, vals);
    assert TidySpec(f) == Ok(TidyTable(rs));
  }
}
