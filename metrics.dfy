/** The columns `tidy_death_data` derives, defined row by row on the retained long table. */
module Metrics {
  import opened Wrappers
  import opened Frames
  import opened Melting

  /** Rows below this many cumulative deaths are dropped. */
  const Threshold: int := 10
  /** Number of samples in each rolling mean. */
  const WindowSize: nat := 7

  // ----- threshold filter -----

  /** The melted rows that reach the threshold, in their original order. */
  function Retain(s: seq<LongRow>): (r: seq<LongRow>)
    ensures |r| <= |s|
    ensures AllRetained(r)
    decreases |s|
  {
    if s == [] then []
    else Retain(s[..|s| - 1]) + (if s[|s| - 1].value >= Threshold then [s[|s| - 1]] else [])
  }

  /** Every row of the table reaches the threshold. */
  predicate AllRetained(rs: seq<LongRow>) {
    forall i :: 0 <= i < |rs| ==> rs[i].value >= Threshold
  }

  // ----- Days -----

  /** The first index at or after `j` whose row belongs to `e`, or |rs| if there is none. */
  function FirstFrom(rs: seq<LongRow>, e: string, j: nat): (r: nat)
    requires j <= |rs|
    ensures j <= r <= |rs|
    ensures r < |rs| ==> rs[r].entity == e
    ensures forall k :: j <= k < r ==> rs[k].entity != e
    decreases |rs| - j
  {
    if j == |rs| then j
    else if rs[j].entity == e then j
    else FirstFrom(rs, e, j + 1)
  }

  /** The first row of row i's entity group in table order (`x.iloc[0]` of the group). */
  function GroupStart(rs: seq<LongRow>, i: nat): (r: nat)
    requires i < |rs|
    ensures r <= i && rs[r].entity == rs[i].entity
    ensures forall k :: 0 <= k < r ==> rs[k].entity != rs[i].entity
  {
    FirstFrom(rs, rs[i].entity, 0)
  }

  /** `Days`: the row's date minus the date of its group's first row. */
  function DaysAt(rs: seq<LongRow>, i: nat): (d: int)
    requires i < |rs|
    ensures GroupStart(rs, i) == i ==> d == 0
  {
    rs[i].date - rs[GroupStart(rs, i)].date
  }

  function DaysColumn(rs: seq<LongRow>): (c: seq<int>)
    ensures |c| == |rs|
  {
    seq(|rs|, i requires 0 <= i < |rs| => DaysAt(rs, i))
  }

  // ----- daily_change and daily_pct_change -----

  /** Row j comes before row i in the stable sort by (entity, Days): the same entity and an
      earlier date, or the same date and earlier in the table. Within one entity, Days
      order is date order. */
  predicate SortsBefore(rs: seq<LongRow>, j: nat, i: nat)
    requires j < |rs| && i < |rs|
  {
    rs[j].entity == rs[i].entity &&
    (rs[j].date < rs[i].date || (rs[j].date == rs[i].date && j < i))
  }

  /** Among rows 0..k-1, the last one sorting before row i: its predecessor in sort order. */
  function PredScan(rs: seq<LongRow>, i: nat, k: nat): (p: Option<nat>)
    requires i < |rs| && k <= |rs|
    ensures p.Some? ==> p.value < k && SortsBefore(rs, p.value, i)
    ensures p.None? <==> forall j :: 0 <= j < k ==> !SortsBefore(rs, j, i)
    ensures p.Some? ==> forall j :: 0 <= j < k && SortsBefore(rs, j, i) ==>
              j == p.value || SortsBefore(rs, j, p.value)
    decreases k
  {
    if k == 0 then None
    else
      var p := PredScan(rs, i, k - 1);
      if SortsBefore(rs, k - 1, i) && (p.None? || rs[p.value].date <= rs[k - 1].date) then Some(k - 1)
      else p
  }

  /** The row that `diff` and `pct_change` compare row i with, if any. */
  function Pred(rs: seq<LongRow>, i: nat): (p: Option<nat>)
    requires i < |rs|
    ensures p.Some? ==> p.value < |rs| && SortsBefore(rs, p.value, i)
    ensures p.None? <==> forall j :: 0 <= j < |rs| ==> !SortsBefore(rs, j, i)
    ensures p.Some? ==> forall j :: 0 <= j < |rs| && SortsBefore(rs, j, i) ==>
              j == p.value || SortsBefore(rs, j, p.value)
  {
    PredScan(rs, i, |rs|)
  }

  /** `daily_change` before the fill: the first difference in sort order. */
  function Change(rs: seq<LongRow>, i: nat): (c: Option<int>)
    requires i < |rs|
    ensures c.None? <==> forall j :: 0 <= j < |rs| ==> !SortsBefore(rs, j, i)
    ensures c.Some? ==> rs[Pred(rs, i).value].value + c.value == rs[i].value
  {
    match Pred(rs, i)
    case None => None
    case Some(p) => Some(rs[i].value - rs[p].value)
  }

  /** `daily_pct_change` before the fill: `pct_change() * 100` in sort order. */
  function PctChange(rs: seq<LongRow>, i: nat): (c: Option<real>)
    requires i < |rs| && AllRetained(rs)
    ensures c.None? <==> forall j :: 0 <= j < |rs| ==> !SortsBefore(rs, j, i)
    ensures c.Some? ==>
              (rs[Pred(rs, i).value].value as real) * (100.0 + c.value) == 100.0 * (rs[i].value as real)
  {
    match Pred(rs, i)
    case None => None
    case Some(p) => Some(((rs[i].value as real) / (rs[p].value as real) - 1.0) * 100.0)
  }

  function ChangeColumn(rs: seq<LongRow>): (c: seq<Option<int>>)
    ensures |c| == |rs|
  {
    seq(|rs|, i requires 0 <= i < |rs| => Change(rs, i))
  }

  function PctColumn(rs: seq<LongRow>): (c: seq<Option<real>>)
    requires AllRetained(rs)
    ensures |c| == |rs|
  {
    seq(|rs|, i requires 0 <= i < |rs| => PctChange(rs, i))
  }

  // ----- rolling means -----

  /** The indices of the last `need` rows of entity `e` among rows 0..k-1, in table order:
      the rolling window over the group as `groupby(...).rolling` sees it. */
  function WindowIdx(rs: seq<LongRow>, e: string, k: nat, need: nat): (w: seq<nat>)
    requires k <= |rs|
    ensures |w| <= need
    ensures forall t :: 0 <= t < |w| ==> w[t] < k && rs[w[t]].entity == e
    decreases k
  {
    if need == 0 || k == 0 then []
    else if rs[k - 1].entity == e then WindowIdx(rs, e, k - 1, need - 1) + [k - 1]
    else WindowIdx(rs, e, k - 1, need)
  }

  /** `round(s / 7)` for an integer sum `s`: the integer within one half of s / 7. A mean of
      seven integers is never exactly halfway, so the rounding mode does not matter. */
  function RoundMean7(s: int): (r: int)
    ensures 14 * r - 7 < 2 * s < 14 * r + 7
  {
    var r := (2 * s + 7) / 14;
    var m := (2 * s + 7) % 14;
    assert 2 * s + 7 == 14 * r + m && 0 <= m < 14;
    assert m == 2 * (s - 7 * r + 3) + 1;
    r
  }

  /** `round` on a real: the nearest integer, a tie going to the even one. */
  function RoundHalfEven(x: real): (r: int)
    ensures r as real - 0.5 <= x <= r as real + 0.5
    ensures (x == r as real - 0.5 || x == r as real + 0.5) ==> r % 2 == 0
  {
    var f := x.Floor;
    var d := x - f as real;
    if d < 0.5 then f
    else if d > 0.5 then f + 1
    else if f % 2 == 0 then f
    else f + 1
  }

  /** Every window position holds a value. */
  predicate AllDefined<T>(col: seq<Option<T>>, w: seq<nat>) {
    forall t :: 0 <= t < |w| ==> w[t] < |col| && col[w[t]].Some?
  }

  function SumInts(col: seq<Option<int>>, w: seq<nat>): int
    requires AllDefined(col, w)
    decreases |w|
  {
    if w == [] then 0 else col[w[0]].value + SumInts(col, w[1..])
  }

  function SumReals(col: seq<Option<real>>, w: seq<nat>): real
    requires AllDefined(col, w)
    decreases |w|
  {
    if w == [] then 0.0 else col[w[0]].value + SumReals(col, w[1..])
  }

  /** `rolling(7).mean().round()` of an integer column at one window: missing unless the
      window has seven samples, all present. */
  function RollOf(col: seq<Option<int>>, w: seq<nat>): (r: Option<int>)
    ensures r.Some? <==> |w| == WindowSize && AllDefined(col, w)
    ensures r.Some? ==> 14 * r.value - 7 < 2 * SumInts(col, w) < 14 * r.value + 7
  {
    if |w| == WindowSize && AllDefined(col, w) then Some(RoundMean7(SumInts(col, w))) else None
  }

  /** The same for the percentage column. */
  function PctRollOf(col: seq<Option<real>>, w: seq<nat>): (r: Option<real>)
    ensures r.Some? <==> |w| == WindowSize && AllDefined(col, w)
    ensures r.Some? ==>
              r.value - 0.5 <= SumReals(col, w) / (WindowSize as real) <= r.value + 0.5 &&
              r.value == r.value.Floor as real
  {
    if |w| == WindowSize && AllDefined(col, w)
    then Some(RoundHalfEven(SumReals(col, w) / (WindowSize as real)) as real)
    else None
  }

  /** Row i's window: the last seven rows of its group up to and including it. */
  function Window(rs: seq<LongRow>, i: nat): (w: seq<nat>)
    requires i < |rs|
    ensures 0 < |w| <= WindowSize && w[|w| - 1] == i
    ensures forall t :: 0 <= t < |w| ==> w[t] <= i && rs[w[t]].entity == rs[i].entity
  {
    WindowIdx(rs, rs[i].entity, i + 1, WindowSize)
  }

  function RollColumn(rs: seq<LongRow>, changes: seq<Option<int>>): (c: seq<Option<int>>)
    ensures |c| == |rs|
  {
    seq(|rs|, i requires 0 <= i < |rs| => RollOf(changes, Window(rs, i)))
  }

  function PctRollColumn(rs: seq<LongRow>, pcts: seq<Option<real>>): (c: seq<Option<real>>)
    ensures |c| == |rs|
  {
    seq(|rs|, i requires 0 <= i < |rs| => PctRollOf(pcts, Window(rs, i)))
  }

  // ----- the fill and the tidy table -----

  /** Row i of the tidy table, given the two difference columns before the fill. */
  function RecordOf(rs: seq<LongRow>, changes: seq<Option<int>>, pcts: seq<Option<real>>, i: nat): (r: TidyRecord)
    requires i < |rs| && |changes| == |rs| && |pcts| == |rs|
    ensures r.date == rs[i].date && r.entity == rs[i].entity && r.value == rs[i].value
    ensures r.dailyChange == (if changes[i].Some? then changes[i].value else 0)
    ensures r.dailyPctChange == (if pcts[i].Some? then pcts[i].value else 0.0)
  {
    var change := changes[i].GetOr(0);
    var pct := pcts[i].GetOr(0.0);
    TidyRecord(rs[i].date, rs[i].entity, rs[i].value, DaysAt(rs, i),
               change, pct,
               RollOf(changes, Window(rs, i)).GetOr(change),
               PctRollOf(pcts, Window(rs, i)).GetOr(pct))
  }

  /** The tidy table of the retained rows, in their order. */
  function TidyTable(rs: seq<LongRow>): (t: seq<TidyRecord>)
    requires AllRetained(rs)
    ensures |t| == |rs|
  {
    var changes := ChangeColumn(rs);
    var pcts := PctColumn(rs);
    seq(|rs|, i requires 0 <= i < |rs| => RecordOf(rs, changes, pcts, i))
  }

  /** `tidy_death_data`: melt, keep the rows at or above the threshold, derive the columns. */
  function TidySpec(f: DateFrame): (r: Result<seq<TidyRecord>, Error>)
    requires f.Valid()
    ensures r.Err? <==> Retain(Melt(f)) == []
    ensures r.Err? ==> r.error == EmptyInput
    ensures r.Ok? ==> |r.value| == |Retain(Melt(f))|
  {
    var rs := Retain(Melt(f));
    if |rs| == 0 then Err(EmptyInput) else Ok(TidyTable(rs))
  }
}
