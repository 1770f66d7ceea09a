/** `tidy_death_data` as the source runs it: melt, drop the rows under the threshold in
    place, then fill the derived columns one at a time and back-fill their missing cells. */
module Tidy {
  import opened Wrappers
  import opened Frames
  import opened Melting
  import opened Metrics

  /** Drops, in place, the rows under the threshold; the survivors end up in a[..n] in their
      original order. */
  method RetainInPlace(a: array<LongRow>) returns (n: nat)
    modifies a
    ensures n <= a.Length
    ensures a[..n] == Retain(old(a[..]))
  {
    ghost var s := a[..];
    n := 0;
    var i := 0;
    while i < a.Length
      invariant n <= i <= a.Length
      invariant a[..n] == Retain(s[..i])
      invariant a[i..] == s[i..]
    {
      assert s[..i + 1][..i] == s[..i];
      assert Retain(s[..i + 1]) == Retain(s[..i]) + (if s[i].value >= Threshold then [s[i]] else []);
      assert a[i] == s[i];
      if a[i].value >= Threshold {
        a[n] := a[i];
        n := n + 1;
      }
      i := i + 1;
    }
    assert s[..a.Length] == s;
  }

  /** The index of row i's group start, found by a forward scan. */
  method GroupStartOf(rs: seq<LongRow>, i: nat) returns (j: nat)
    requires i < |rs|
    ensures j == GroupStart(rs, i)
  {
    var e := rs[i].entity;
    j := 0;
    while rs[j].entity != e
      invariant j <= i
      invariant FirstFrom(rs, e, 0) == FirstFrom(rs, e, j)
      decreases i - j
    {
      j := j + 1;
    }
  }

  /** The `Days` column. */
  method FillDays(rs: seq<LongRow>, days: array<int>)
    requires days.Length == |rs|
    modifies days
    ensures days[..] == DaysColumn(rs)
  {
    for i := 0 to |rs|
      invariant forall q :: 0 <= q < i ==> days[q] == DaysAt(rs, q)
    {
      var j := GroupStartOf(rs, i);
      days[i] := rs[i].date - rs[j].date;
    }
    assert days[..] == DaysColumn(rs);
  }

  /** Row i's predecessor in (entity, Days) order, found by one scan of the table. */
  method PredecessorOf(rs: seq<LongRow>, i: nat) returns (p: Option<nat>)
    requires i < |rs|
    ensures p == Pred(rs, i)
  {
    p := None;
    for k := 0 to |rs|
      invariant p == PredScan(rs, i, k)
    {
      if SortsBefore(rs, k, i) && (p.None? || rs[p.value].date <= rs[k].date) {
        p := Some(k);
      }
    }
  }

  /** The `daily_change` and `daily_pct_change` columns, still missing where a row has no
      predecessor in (entity, Days) order. */
  method FillChanges(rs: seq<LongRow>, changes: array<Option<int>>, pcts: array<Option<real>>)
    requires AllRetained(rs)
    requires changes.Length == |rs| && pcts.Length == |rs|
    modifies changes, pcts
    ensures changes[..] == ChangeColumn(rs) && pcts[..] == PctColumn(rs)
  {
    for i := 0 to |rs|
      invariant forall q :: 0 <= q < i ==> changes[q] == Change(rs, q) && pcts[q] == PctChange(rs, q)
    {
      var p := PredecessorOf(rs, i);
      match p {
        case None =>
          changes[i] := None;
          pcts[i] := None;
        case Some(j) =>
          changes[i] := Some(rs[i].value - rs[j].value);
          pcts[i] := Some(((rs[i].value as real) / (rs[j].value as real) - 1.0) * 100.0);
      }
    }
    assert changes[..] == ChangeColumn(rs);
    assert pcts[..] == PctColumn(rs);
  }

  /** Row i's rolling window, collected by a backward scan over its group. */
  method WindowOf(rs: seq<LongRow>, i: nat) returns (w: seq<nat>)
    requires i < |rs|
    ensures w == Window(rs, i)
  {
    var e := rs[i].entity;
    w := [];
    var k: nat := i + 1;
    var need: nat := WindowSize;
    while need > 0 && k > 0
      invariant k <= i + 1
      invariant Window(rs, i) == WindowIdx(rs, e, k, need) + w
      decreases k
    {
      if rs[k - 1].entity == e {
        w := [k - 1] + w;
        need := need - 1;
      }
      k := k - 1;
    }
  }

  /** The `daily_roll_avg` and `daily_pctchange_roll_avg` columns, computed from the
      difference columns before their fill. */
  method FillRolls(rs: seq<LongRow>, changes: seq<Option<int>>, pcts: seq<Option<real>>,
                   rolls: array<Option<int>>, pctRolls: array<Option<real>>)
    requires rolls.Length == |rs| && pctRolls.Length == |rs|
    modifies rolls, pctRolls
    ensures rolls[..] == RollColumn(rs, changes) && pctRolls[..] == PctRollColumn(rs, pcts)
  {
    for i := 0 to |rs|
      invariant forall q :: 0 <= q < i ==>
                  rolls[q] == RollOf(changes, Window(rs, q)) && pctRolls[q] == PctRollOf(pcts, Window(rs, q))
    {
      var w := WindowOf(rs, i);
      rolls[i] := RollOf(changes, w);
      pctRolls[i] := PctRollOf(pcts, w);
    }
    assert rolls[..] == RollColumn(rs, changes);
    assert pctRolls[..] == PctRollColumn(rs, pcts);
  }

  /** `fillna` in place: a missing difference becomes 0, a missing rolling mean becomes the
      same row's difference after its own fill. */
  method Backfill(changes: array<Option<int>>, pcts: array<Option<real>>,
                  rolls: array<Option<int>>, pctRolls: array<Option<real>>)
    requires pcts.Length == rolls.Length == pctRolls.Length == changes.Length
    requires rolls != changes && pctRolls != pcts
    modifies changes, pcts, rolls, pctRolls
    ensures forall i :: 0 <= i < changes.Length ==>
              changes[i] == Some(old(changes[i]).GetOr(0)) &&
              pcts[i] == Some(old(pcts[i]).GetOr(0.0)) &&
              rolls[i] == Some(old(rolls[i]).GetOr(old(changes[i]).GetOr(0))) &&
              pctRolls[i] == Some(old(pctRolls[i]).GetOr(old(pcts[i]).GetOr(0.0)))
  {
    for i := 0 to changes.Length
      invariant forall q :: 0 <= q < i ==>
                  changes[q] == Some(old(changes[q]).GetOr(0)) &&
                  pcts[q] == Some(old(pcts[q]).GetOr(0.0)) &&
                  rolls[q] == Some(old(rolls[q]).GetOr(old(changes[q]).GetOr(0))) &&
                  pctRolls[q] == Some(old(pctRolls[q]).GetOr(old(pcts[q]).GetOr(0.0)))
      invariant forall q :: i <= q < changes.Length ==>
                  changes[q] == old(changes[q]) && pcts[q] == old(pcts[q]) &&
                  rolls[q] == old(rolls[q]) && pctRolls[q] == old(pctRolls[q])
    {
      changes[i] := Some(changes[i].GetOr(0));
      pcts[i] := Some(pcts[i].GetOr(0.0));
      rolls[i] := Some(rolls[i].GetOr(changes[i].value));
      pctRolls[i] := Some(pctRolls[i].GetOr(pcts[i].value));
    }
  }

  /** The tidy rows from the filled columns. */
  method Assemble(rs: seq<LongRow>, days: seq<int>, changes: seq<Option<int>>, pcts: seq<Option<real>>,
                  rolls: seq<Option<int>>, pctRolls: seq<Option<real>>) returns (out: seq<TidyRecord>)
    requires |days| == |changes| == |pcts| == |rolls| == |pctRolls| == |rs|
    requires forall i :: 0 <= i < |rs| ==>
               changes[i].Some? && pcts[i].Some? && rolls[i].Some? && pctRolls[i].Some?
    ensures |out| == |rs|
    ensures forall i :: 0 <= i < |rs| ==>
              out[i] == TidyRecord(rs[i].date, rs[i].entity, rs[i].value, days[i], changes[i].value,
                                   pcts[i].value, rolls[i].value, pctRolls[i].value)
  {
    out := [];
    for i := 0 to |rs|
      invariant |out| == i
      invariant forall q :: 0 <= q < i ==>
                  out[q] == TidyRecord(rs[q].date, rs[q].entity, rs[q].value, days[q], changes[q].value,
                                       pcts[q].value, rolls[q].value, pctRolls[q].value)
    {
      out := out + [TidyRecord(rs[i].date, rs[i].entity, rs[i].value, days[i], changes[i].value,
                               pcts[i].value, rolls[i].value, pctRolls[i].value)];
    }
  }

  /** The records the filled columns give: each difference defaults to 0, each rolling
      mean to its row's filled difference. */
  function FilledRecords(rs: seq<LongRow>, days: seq<int>, changes: seq<Option<int>>, pcts: seq<Option<real>>,
                         rolls: seq<Option<int>>, pctRolls: seq<Option<real>>): (t: seq<TidyRecord>)
    requires |days| == |changes| == |pcts| == |rolls| == |pctRolls| == |rs|
    ensures |t| == |rs|
  {
    seq(|rs|, i requires 0 <= i < |rs| =>
      TidyRecord(rs[i].date, rs[i].entity, rs[i].value, days[i], changes[i].GetOr(0), pcts[i].GetOr(0.0),
                 rolls[i].GetOr(changes[i].GetOr(0)), pctRolls[i].GetOr(pcts[i].GetOr(0.0))))
  }

  /** The `fillna` calls and the finished frame: back-fill the four columns, then read the rows off. */
  method FillAndAssemble(rs: seq<LongRow>, days: seq<int>, changes: array<Option<int>>, pcts: array<Option<real>>,
                         rolls: array<Option<int>>, pctRolls: array<Option<real>>) returns (out: seq<TidyRecord>)
    requires |days| == |rs| && changes.Length == |rs|
    requires pcts.Length == rolls.Length == pctRolls.Length == changes.Length
    requires rolls != changes && pctRolls != pcts
    modifies changes, pcts, rolls, pctRolls
    ensures out == FilledRecords(rs, days, old(changes[..]), old(pcts[..]), old(rolls[..]), old(pctRolls[..]))
  {
    Backfill(changes, pcts, rolls, pctRolls);
    out := Assemble(rs, days, changes[..], pcts[..], rolls[..], pctRolls[..]);
  }

  /** `Days`, `diff`, `pct_change` and the two `rolling` means: the derived columns, one array
      each, before the fill. */
  method FillColumns(rs: seq<LongRow>)
    returns (days: array<int>, changes: array<Option<int>>, pcts: array<Option<real>>,
             rolls: array<Option<int>>, pctRolls: array<Option<real>>)
    requires AllRetained(rs)
    ensures fresh(days) && fresh(changes) && fresh(pcts) && fresh(rolls) && fresh(pctRolls)
    ensures rolls != changes && pctRolls != pcts
    ensures days[..] == DaysColumn(rs)
    ensures changes[..] == ChangeColumn(rs) && pcts[..] == PctColumn(rs)
    ensures rolls[..] == RollColumn(rs, ChangeColumn(rs)) && pctRolls[..] == PctRollColumn(rs, PctColumn(rs))
  {
    days := new int[|rs|];
    FillDays(rs, days);
    changes := new Option<int>[|rs|];
    pcts := new Option<real>[|rs|];
    FillChanges(rs, changes, pcts);
    rolls := new Option<int>[|rs|];
    pctRolls := new Option<real>[|rs|];
    FillRolls(rs, changes[..], pcts[..], rolls, pctRolls);
  }

  /** `Days` through `fillna` on the retained rows: add the derived columns one at a time, then fill. */
  method DeriveColumns(rs: seq<LongRow>) returns (out: seq<TidyRecord>)
    requires AllRetained(rs)
    ensures out == TidyTable(rs)
  {
    var days, changes, pcts, rolls, pctRolls := FillColumns(rs);
    out := FillAndAssemble(rs, days[..], changes, pcts, rolls, pctRolls);
    ColumnsMakeTable(rs);
  }

  /** `tidy_death_data(df, group)`: the tidy table, or `EmptyInput` when no row reaches the
      threshold. */
  method TidyDeathData(f: DateFrame) returns (r: Result<seq<TidyRecord>, Error>)
    requires f.Valid()
    ensures r == TidySpec(f)
  {
    var melted := Melt(f);
    var a := new LongRow[|melted|](i requires 0 <= i < |melted| => melted[i]);
    assert a[..] == melted;
    var n := RetainInPlace(a);
    if n == 0 {
      return Err(EmptyInput);
    }
    var rs := a[..n];
    var out := DeriveColumns(rs);
    r := Ok(out);
  }

  /** Filling the derived columns as the `fillna` calls do gives the tidy table. */
  lemma ColumnsMakeTable(rs: seq<LongRow>)
    requires AllRetained(rs)
    ensures FilledRecords(rs, DaysColumn(rs), ChangeColumn(rs), PctColumn(rs),
                          RollColumn(rs, ChangeColumn(rs)), PctRollColumn(rs, PctColumn(rs))) == TidyTable(rs)
  {
    var changes, pcts := ChangeColumn(rs), PctColumn(rs);
    var t := FilledRecords(rs, DaysColumn(rs), changes, pcts, RollColumn(rs, changes), PctRollColumn(rs, pcts));
    forall i | 0 <= i < |rs| ensures t[i] == TidyTable(rs)[i] {
      assert TidyTable(rs)[i] == RecordOf(rs, changes, pcts, i);
    }
  }
}
