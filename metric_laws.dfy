/** What the derived columns of `tidy_death_data` mean: the threshold filter keeps exactly
    the rows at or above the threshold in their order, `Days` counts from the group's first
    row, `daily_change` is the difference from the previous row of the entity and
    telescopes, and the rolling mean behaves as the fill order makes it behave. */
module MetricLaws {
  import opened Wrappers
  import opened Frames
  import opened Melting
  import opened Metrics

  // ----- the threshold filter -----

  /** A melted row survives the filter exactly when it reaches the threshold. */
  lemma {:induction false} RetainMember(s: seq<LongRow>, x: LongRow)
    ensures x in Retain(s) <==> x in s && x.value >= Threshold
    decreases |s|
  {
    if s != [] {
      var init, last := s[..|s| - 1], s[|s| - 1];
      assert s == init + [last];
      RetainMember(init, x);
    }
  }

  /** Filtering a concatenation filters each part and keeps them in order: the filter never
      reorders the rows it keeps. */
  lemma {:induction false} RetainAppend(s: seq<LongRow>, t: seq<LongRow>)
    ensures Retain(s + t) == Retain(s) + Retain(t)
    decreases |t|
  {
    if t == [] {
      assert s + t == s;
    } else {
      var init, last := t[..|t| - 1], t[|t| - 1];
      assert (s + t)[..|s + t| - 1] == s + init;
      RetainAppend(s, init);
    }
  }

  /** A table whose rows all reach the threshold is left unchanged. */
  lemma {:induction false} RetainAll(s: seq<LongRow>)
    requires AllRetained(s)
    ensures Retain(s) == s
    decreases |s|
  {
    if s != [] {
      var init := s[..|s| - 1];
      RetainAll(init);
      assert Retain(s) == init + [s[|s| - 1]];
      assert init + [s[|s| - 1]] == s;
    }
  }

  /** The filter keeps nothing exactly when no row reaches the threshold. */
  lemma RetainEmpty(s: seq<LongRow>)
    ensures Retain(s) == [] <==> forall i :: 0 <= i < |s| ==> s[i].value < Threshold
  {
    if Retain(s) == [] {
      forall i | 0 <= i < |s| ensures s[i].value < Threshold {
        RetainMember(s, s[i]);
      }
    } else {
      var x := Retain(s)[0];
      RetainMember(s, x);
    }
  }

  /** Filtering keeps the rows of each entity in ascending date order. */
  lemma {:induction false} RetainAscending(s: seq<LongRow>)
    requires GroupsAscending(s)
    ensures GroupsAscending(Retain(s))
    decreases |s|
  {
    if s != [] {
      var init, last := s[..|s| - 1], s[|s| - 1];
      RetainAscending(init);
      var a := Retain(init);
      if last.value >= Threshold {
        var r := a + [last];
        forall j, i | 0 <= j < i < |r| && r[j].entity == r[i].entity ensures r[j].date < r[i].date {
          if i == |a| {
            assert r[j] == a[j];
            RetainMember(init, r[j]);
            var q :| 0 <= q < |init| && init[q] == r[j];
            assert s[q] == r[j] && s[|s| - 1] == r[i];
          } else {
            assert r[j] == a[j] && r[i] == a[i];
          }
        }
      }
    }
  }

  /** `tidy_death_data` fails exactly when no cell of the table reaches the threshold. */
  lemma TidyEmptyIff(f: DateFrame)
    requires f.Valid()
    ensures TidySpec(f).Err? <==>
            forall d, e :: 0 <= d < |f.rows| && 0 <= e < |f.entities| ==> f.rows[d].values[e] < Threshold
  {
    var s := Melt(f);
    RetainEmpty(s);
    if Retain(s) == [] {
      forall d, e | 0 <= d < |f.rows| && 0 <= e < |f.entities| ensures f.rows[d].values[e] < Threshold {
        MeltAt(f, e, d);
      }
    } else {
      var i :| 0 <= i < |s| && s[i].value >= Threshold;
      MeltIndex(f, i);
    }
  }

  /** Every tidy row is the retained melted row at the same position with the derived columns
      added: nothing is re-sorted. */
  lemma TidyKeepsRows(f: DateFrame)
    requires f.Valid() && TidySpec(f).Ok?
    ensures |TidySpec(f).value| == |Retain(Melt(f))|
    ensures forall i :: 0 <= i < |TidySpec(f).value| ==>
              var r := TidySpec(f).value[i];
              LongRow(r.date, r.entity, r.value) == Retain(Melt(f))[i]
  {
  }

  /** A table aggregated and transposed from dates in ascending order melts and filters to
      groups whose dates ascend, which the lemmas below assume. */
  lemma MeltedAscending(f: DateFrame)
    requires f.Valid() && DatesAscending(f) && DistinctEntities(f)
    ensures GroupsAscending(Retain(Melt(f)))
  {
    MeltGroupsAscending(f);
    RetainAscending(Melt(f));
  }

  // ----- the previous row of the same entity -----

  /** The last row of entity e among rows 0..k-1, if any: the reference definition of the
      row `diff` compares with. */
  function LastBelow(rs: seq<LongRow>, e: string, k: nat): (p: Option<nat>)
    requires k <= |rs|
    ensures p.Some? ==> p.value < k && rs[p.value].entity == e &&
                        forall q :: p.value < q < k ==> rs[q].entity != e
    ensures p.None? <==> forall q :: 0 <= q < k ==> rs[q].entity != e
    decreases k
  {
    if k == 0 then None
    else if rs[k - 1].entity == e then Some(k - 1)
    else LastBelow(rs, e, k - 1)
  }

  /** With dates ascending in each group, sorting by (entity, Days) puts row j before row i
      exactly when j is an earlier row of the same entity. */
  lemma SortsBeforeAscending(rs: seq<LongRow>, j: nat, i: nat)
    requires GroupsAscending(rs) && j < |rs| && i < |rs|
    ensures SortsBefore(rs, j, i) <==> j < i && rs[j].entity == rs[i].entity
  {
    if rs[j].entity == rs[i].entity && i < j {
      assert rs[i].date < rs[j].date;
    }
  }

  /** With dates ascending in each group, `diff`'s predecessor is the previous row of the
      same entity, and there is none exactly at the group's first row. */
  lemma PredIsPrevious(rs: seq<LongRow>, i: nat)
    requires GroupsAscending(rs) && i < |rs|
    ensures Pred(rs, i) == LastBelow(rs, rs[i].entity, i)
    ensures Pred(rs, i).None? <==> i == GroupStart(rs, i)
  {
    var e := rs[i].entity;
    var p, l := Pred(rs, i), LastBelow(rs, e, i);
    forall j | 0 <= j < |rs| ensures SortsBefore(rs, j, i) <==> j < i && rs[j].entity == e {
      SortsBeforeAscending(rs, j, i);
    }
    if l.Some? {
      assert SortsBefore(rs, l.value, i);
      assert p.Some?;
    }
    var g := GroupStart(rs, i);
    if g < i {
      assert SortsBefore(rs, g, i);
    }
  }

  // ----- the tidy rows -----

  /** Row i of the tidy table of rs: its `Days` is its date minus the date of its group's
      first row. */
  lemma DaysFromGroupStart(rs: seq<LongRow>, i: nat)
    requires AllRetained(rs) && i < |rs|
    ensures TidyTable(rs)[i].days == rs[i].date - rs[GroupStart(rs, i)].date
    ensures TidyTable(rs)[GroupStart(rs, i)].days == 0
  {
    var g := GroupStart(rs, i);
    assert TidyTable(rs)[i] == RecordOf(rs, ChangeColumn(rs), PctColumn(rs), i);
    assert TidyTable(rs)[g] == RecordOf(rs, ChangeColumn(rs), PctColumn(rs), g);
  }

  /** With dates ascending, `Days` is non-negative and strictly increasing within a group. */
  lemma DaysIncrease(rs: seq<LongRow>, j: nat, i: nat)
    requires AllRetained(rs) && GroupsAscending(rs)
    requires j < i < |rs| && rs[j].entity == rs[i].entity
    ensures 0 <= TidyTable(rs)[j].days < TidyTable(rs)[i].days
  {
    DaysFromGroupStart(rs, i);
    DaysFromGroupStart(rs, j);
    var g := GroupStart(rs, i);
    assert GroupStart(rs, j) == g;
    if g < j {
      assert rs[g].date < rs[j].date;
    }
  }

  /** The first row of each group, after the fill: `Days`, both differences and both rolling
      means are zero. */
  lemma FirstRowZero(rs: seq<LongRow>, i: nat)
    requires AllRetained(rs) && GroupsAscending(rs) && i < |rs| && i == GroupStart(rs, i)
    ensures TidyTable(rs)[i].days == 0
    ensures TidyTable(rs)[i].dailyChange == 0 && TidyTable(rs)[i].dailyPctChange == 0.0
    ensures TidyTable(rs)[i].dailyRollAvg == 0 && TidyTable(rs)[i].dailyPctChangeRollAvg == 0.0
  {
    PredIsPrevious(rs, i);
    DaysFromGroupStart(rs, i);
    var changes, pcts := ChangeColumn(rs), PctColumn(rs);
    assert TidyTable(rs)[i] == RecordOf(rs, changes, pcts, i);
  }

  /** Every later row of a group, after the fill: `daily_change` is its value minus the
      previous row's value, and `daily_pct_change` is the percentage change from it. */
  lemma LaterRowChange(rs: seq<LongRow>, i: nat)
    requires AllRetained(rs) && GroupsAscending(rs) && i < |rs| && i != GroupStart(rs, i)
    ensures LastBelow(rs, rs[i].entity, i).Some?
    ensures var p := LastBelow(rs, rs[i].entity, i).value;
            TidyTable(rs)[i].dailyChange == rs[i].value - rs[p].value &&
            TidyTable(rs)[i].dailyPctChange == ((rs[i].value as real) / (rs[p].value as real) - 1.0) * 100.0
  {
    PredIsPrevious(rs, i);
    assert TidyTable(rs)[i] == RecordOf(rs, ChangeColumn(rs), PctColumn(rs), i);
  }

  // ----- telescoping -----

  /** The sum of `daily_change` over the rows of entity e among rows 0..k-1. */
  function ChangeSum(t: seq<TidyRecord>, e: string, k: nat): int
    requires k <= |t|
    decreases k
  {
    if k == 0 then 0
    else ChangeSum(t, e, k - 1) + (if t[k - 1].entity == e then t[k - 1].dailyChange else 0)
  }

  lemma {:induction false} ChangeSumSkip(t: seq<TidyRecord>, e: string, j: nat, k: nat)
    requires j <= k <= |t|
    requires forall q :: j <= q < k ==> t[q].entity != e
    ensures ChangeSum(t, e, k) == ChangeSum(t, e, j)
    decreases k
  {
    if j < k {
      ChangeSumSkip(t, e, j, k - 1);
    }
  }

  /** The tidy table keeps each retained row's entity. */
  lemma TableEntities(rs: seq<LongRow>)
    requires AllRetained(rs)
    ensures forall q :: 0 <= q < |rs| ==> TidyTable(rs)[q].entity == rs[q].entity
  {
    forall q | 0 <= q < |rs| ensures TidyTable(rs)[q].entity == rs[q].entity {
      assert TidyTable(rs)[q] == RecordOf(rs, ChangeColumn(rs), PctColumn(rs), q);
    }
  }

  /** The changes of an entity up to and including row i add up to the row's value minus
      the value of the entity's first retained row. */
  lemma {:induction false} ChangesTelescope(rs: seq<LongRow>, i: nat)
    requires AllRetained(rs) && GroupsAscending(rs) && i < |rs|
    ensures ChangeSum(TidyTable(rs), rs[i].entity, i + 1) == rs[i].value - rs[GroupStart(rs, i)].value
    decreases i
  {
    var t, e := TidyTable(rs), rs[i].entity;
    TableEntities(rs);
    var l := LastBelow(rs, e, i);
    if l.None? {
      PredIsPrevious(rs, i);
      FirstRowZero(rs, i);
      ChangeSumSkip(t, e, 0, i);
    } else {
      var p := l.value;
      LaterRowChange(rs, i);
      PredIsPrevious(rs, i);
      ChangeSumSkip(t, e, p + 1, i);
      ChangesTelescope(rs, p);
      assert GroupStart(rs, p) == GroupStart(rs, i);
    }
  }

  /** Over the whole table, an entity's changes add up to its last value minus its first
      retained value. */
  lemma ChangesTotal(rs: seq<LongRow>, i: nat)
    requires AllRetained(rs) && GroupsAscending(rs) && i < |rs|
    requires forall q :: i < q < |rs| ==> rs[q].entity != rs[i].entity
    ensures ChangeSum(TidyTable(rs), rs[i].entity, |rs|) == rs[i].value - rs[GroupStart(rs, i)].value
  {
    var t := TidyTable(rs);
    forall q | i + 1 <= q < |rs| ensures t[q].entity != rs[i].entity {
      assert t[q] == RecordOf(rs, ChangeColumn(rs), PctColumn(rs), q);
    }
    ChangeSumSkip(t, rs[i].entity, i + 1, |rs|);
    ChangesTelescope(rs, i);
  }

  // ----- the rolling means -----

  /** The indices of the rows of entity e among rows 0..k-1, in table order: the group as
      `groupby` hands it to `rolling`. */
  function GroupIdx(rs: seq<LongRow>, e: string, k: nat): (g: seq<nat>)
    requires k <= |rs|
    ensures |g| <= k
    decreases k
  {
    if k == 0 then []
    else GroupIdx(rs, e, k - 1) + (if rs[k - 1].entity == e then [k - 1] else [])
  }

  /** Row i's position in its group, counting from 0. */
  function GroupPosition(rs: seq<LongRow>, i: nat): nat
    requires i < |rs|
  {
    |GroupIdx(rs, rs[i].entity, i)|
  }

  lemma {:induction false} GroupIdxFacts(rs: seq<LongRow>, e: string, k: nat)
    requires k <= |rs|
    ensures forall t :: 0 <= t < |GroupIdx(rs, e, k)| ==>
              GroupIdx(rs, e, k)[t] < k && rs[GroupIdx(rs, e, k)[t]].entity == e
    ensures forall a, b :: 0 <= a < b < |GroupIdx(rs, e, k)| ==> GroupIdx(rs, e, k)[a] < GroupIdx(rs, e, k)[b]
    ensures forall q :: 0 <= q < k && rs[q].entity == e ==> q in GroupIdx(rs, e, k)
    decreases k
  {
    if k > 0 {
      GroupIdxFacts(rs, e, k - 1);
    }
  }

  /** A non-empty group starts at the entity's first row. */
  lemma GroupIdxStart(rs: seq<LongRow>, i: nat, k: nat)
    requires i < k <= |rs|
    ensures |GroupIdx(rs, rs[i].entity, k)| > 0 && GroupIdx(rs, rs[i].entity, k)[0] == GroupStart(rs, i)
  {
    var e := rs[i].entity;
    var g := GroupIdx(rs, e, k);
    GroupIdxFacts(rs, e, k);
    assert i in g;
    var s := GroupStart(rs, i);
    assert s in g;
    var t :| 0 <= t < |g| && g[t] == s;
  }

  lemma {:induction false} GroupIdxGrows(rs: seq<LongRow>, e: string, j: nat, k: nat)
    requires j <= k <= |rs|
    ensures |GroupIdx(rs, e, j)| <= |GroupIdx(rs, e, k)|
    decreases k
  {
    if j < k {
      GroupIdxGrows(rs, e, j, k - 1);
    }
  }

  /** The rolling window of `need` samples is the last `need` rows of the group so far, or
      all of them when there are fewer. */
  lemma {:induction false} WindowIsTail(rs: seq<LongRow>, e: string, k: nat, need: nat)
    requires k <= |rs|
    ensures var g := GroupIdx(rs, e, k);
            WindowIdx(rs, e, k, need) == g[|g| - (if need < |g| then need else |g|)..]
    decreases k
  {
    var g := GroupIdx(rs, e, k);
    if k == 0 || need == 0 {
    } else {
      var g' := GroupIdx(rs, e, k - 1);
      if rs[k - 1].entity == e {
        WindowIsTail(rs, e, k - 1, need - 1);
        var start := |g'| - (if need - 1 < |g'| then need - 1 else |g'|);
        assert g[start..] == g'[start..] + [k - 1];
      } else {
        WindowIsTail(rs, e, k - 1, need);
      }
    }
  }

  /** The window of row i, as group indices: the last min(7, position + 1) rows of its group
      up to and including it. */
  lemma WindowOfRow(rs: seq<LongRow>, i: nat)
    requires i < |rs|
    ensures var g := GroupIdx(rs, rs[i].entity, i + 1);
            |g| == GroupPosition(rs, i) + 1 && g[|g| - 1] == i &&
            Window(rs, i) == g[|g| - (if WindowSize < |g| then WindowSize else |g|)..]
  {
    WindowIsTail(rs, rs[i].entity, i + 1, WindowSize);
  }

  /** Sum of the filled `daily_change` of the rows at w. */
  function RecordChangeSum(t: seq<TidyRecord>, w: seq<nat>): int
    requires forall k :: 0 <= k < |w| ==> w[k] < |t|
    decreases |w|
  {
    if w == [] then 0 else t[w[0]].dailyChange + RecordChangeSum(t, w[1..])
  }

  lemma {:induction false} SumOfFilled(col: seq<Option<int>>, t: seq<TidyRecord>, w: seq<nat>)
    requires AllDefined(col, w) && |col| == |t|
    requires forall k :: 0 <= k < |w| ==> col[w[k]] == Some(t[w[k]].dailyChange)
    ensures SumInts(col, w) == RecordChangeSum(t, w)
    decreases |w|
  {
    if w != [] {
      SumOfFilled(col, t, w[1..]);
    }
  }

  /** At group positions 0..6 no mean exists yet, because the first row's change is missing
      when `rolling` runs: the rolling means fall back to the row's own differences. */
  lemma EarlyRollIsChange(rs: seq<LongRow>, i: nat)
    requires AllRetained(rs) && GroupsAscending(rs) && i < |rs| && GroupPosition(rs, i) < WindowSize
    ensures TidyTable(rs)[i].dailyRollAvg == TidyTable(rs)[i].dailyChange
    ensures TidyTable(rs)[i].dailyPctChangeRollAvg == TidyTable(rs)[i].dailyPctChange
  {
    var changes, pcts := ChangeColumn(rs), PctColumn(rs);
    assert TidyTable(rs)[i] == RecordOf(rs, changes, pcts, i);
    var w := Window(rs, i);
    WindowOfRow(rs, i);
    if |w| == WindowSize {
      var g := GroupIdx(rs, rs[i].entity, i + 1);
      GroupIdxStart(rs, i, i + 1);
      var s := GroupStart(rs, i);
      assert w[0] == s;
      PredIsPrevious(rs, s);
      assert changes[s].None? && pcts[s].None?;
    }
  }

  /** From group position 7 on, `daily_roll_avg` is the rounded mean of the filled
      `daily_change` at the group's positions k-6..k. */
  lemma LateRollIsMean(rs: seq<LongRow>, i: nat)
    requires AllRetained(rs) && GroupsAscending(rs) && i < |rs| && GroupPosition(rs, i) >= WindowSize
    ensures var g := GroupIdx(rs, rs[i].entity, i + 1);
            |g| > WindowSize && Window(rs, i) == g[|g| - WindowSize..] &&
            TidyTable(rs)[i].dailyRollAvg == RoundMean7(RecordChangeSum(TidyTable(rs), g[|g| - WindowSize..]))
  {
    var t, changes := TidyTable(rs), ChangeColumn(rs);
    LateWindow(rs, i);
    var w := Window(rs, i);
    forall k | 0 <= k < |w| ensures w[k] < |changes| && changes[w[k]] == Some(t[w[k]].dailyChange) {
      LaterChangeDefined(rs, i, w[k]);
    }
    SumOfFilled(changes, t, w);
    assert t[i] == RecordOf(rs, changes, PctColumn(rs), i);
  }

  /** From group position 7 on, the window is the last seven rows of the group, none of them
      the group's first row. */
  lemma LateWindow(rs: seq<LongRow>, i: nat)
    requires i < |rs| && GroupPosition(rs, i) >= WindowSize
    ensures var g := GroupIdx(rs, rs[i].entity, i + 1);
            |g| > WindowSize && Window(rs, i) == g[|g| - WindowSize..]
    ensures forall k :: 0 <= k < |Window(rs, i)| ==>
              Window(rs, i)[k] < |rs| && rs[Window(rs, i)[k]].entity == rs[i].entity &&
              GroupStart(rs, i) < Window(rs, i)[k]
  {
    var e := rs[i].entity;
    var g := GroupIdx(rs, e, i + 1);
    WindowOfRow(rs, i);
    GroupIdxFacts(rs, e, i + 1);
    GroupIdxStart(rs, i, i + 1);
    var w := Window(rs, i);
    forall k | 0 <= k < |w| ensures w[k] < |rs| && rs[w[k]].entity == e && GroupStart(rs, i) < w[k] {
      assert w[k] == g[|g| - WindowSize + k];
    }
  }

  /** A row of i's group after its first row has a `daily_change` before the fill, and the
      fill keeps it. */
  lemma LaterChangeDefined(rs: seq<LongRow>, i: nat, q: nat)
    requires AllRetained(rs) && GroupsAscending(rs) && i < |rs| && q < |rs|
    requires rs[q].entity == rs[i].entity && GroupStart(rs, i) < q
    ensures ChangeColumn(rs)[q] == Some(TidyTable(rs)[q].dailyChange)
  {
    assert GroupStart(rs, q) == GroupStart(rs, i);
    PredIsPrevious(rs, q);
    assert TidyTable(rs)[q] == RecordOf(rs, ChangeColumn(rs), PctColumn(rs), q);
  }

  /** An entity with at most seven retained rows has `daily_roll_avg == daily_change` on
      every row. */
  lemma SmallGroupRollIsChange(rs: seq<LongRow>, i: nat)
    requires AllRetained(rs) && GroupsAscending(rs) && i < |rs|
    requires |GroupIdx(rs, rs[i].entity, |rs|)| <= WindowSize
    ensures TidyTable(rs)[i].dailyRollAvg == TidyTable(rs)[i].dailyChange
  {
    GroupIdxGrows(rs, rs[i].entity, i + 1, |rs|);
    EarlyRollIsChange(rs, i);
  }
}
