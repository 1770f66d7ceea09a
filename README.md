# COVID-19 death dashboard: the tidy-metrics pipeline in Dafny

The dashboard in `covid_app.py` works on the Johns Hopkins time-series tables of cumulative COVID-19 deaths. It turns them into a long table of per-entity daily metrics to plot. This project models that pipeline and proves what each stage computes.

The pipeline has four stages.

1. **Loaders** (`load_global_death_data`, `load_us_death_data`):
   - drop the metadata columns in place;
   - group the rows by country or by state, summing every date column.

   This is modelled as the `RawFrame` class with an in-place `DropColumns` (module `Loading`). It is followed by `Aggregate` (module `Grouping`). `groupby` lists its keys in sorted order (module `KeyOrder`) and drops rows with a missing key. It sums empty count cells as 0.
2. **`date_convert`**: transposes the table, with the former date headers becoming the `Date` column (module `Reshape`).
3. **`tidy_death_data`**, first half:
   - melts the table into one `(Date, entity, value)` row per cell (module `Melting`);
   - drops in place every row below 10 deaths.
4. **`tidy_death_data`**, second half: adds five columns, each defined row by row in module `Metrics`:
   - `Days`;
   - `daily_change` and `daily_pct_change`, which are `diff` and `pct_change` in (entity, `Days`) sort order;
   - the two rolling means, which are `rolling(7).mean().round()` over each entity group;
   - the in-place `fillna` of those columns.

   Module `Tidy` carries this out as the source does, step by step. It filters the row array in place, fills one array per derived column in loops, then back-fills the arrays in place. `Tidy.TidyDeathData` is proved equal to the function `Metrics.TidySpec`. The meaning of the columns is proved in `MetricLaws`, and `Pipeline` links aggregation to the date order the metric lemmas assume. `Scenario` works through one entity with ten days of counts.

Modelling choices:
- **Dates** are integer day numbers. The `Date` header is assumed to be parsed already.
- **Counts** are unbounded integers.
- **Percentage changes** are exact reals.
- **Rolling mean of counts**: `round(s / 7)` of an integer sum is `(2s + 7) / 14`. A mean of seven integers is never exactly halfway between two integers, so the rounding mode does not matter.
- **Rolling mean of percentages** uses round-half-even on the exact real mean.
- **Fill order**: the `rolling` at `covid_app.py:49` runs before the fill at lines 54-57 (the `daily_roll_avg` fill is line 56). So, when the dates ascend within each entity, as they do for every table the page builds (`Pipeline.AggregatedAscending`), a group's first row has no `daily_change` when the rolling mean is taken, and the mean stays missing for group positions 0 to 6. Those rows fall back to their own filled `daily_change`. The model keeps this order, and `MetricLaws.EarlyRollIsChange` states it.

Three consequences of the code that the model keeps:
- **Rolling-mean fallback.** Because of the fill order above, when the dates ascend within each entity, as they do for every table the page builds (`Pipeline.AggregatedAscending`), seven positions (0 to 6) fall back, so every group of at most seven rows has `daily_roll_avg == daily_change` on every row; see `MetricLaws.SmallGroupRollIsChange`.
- **`Days` anchor.** `Days` subtracts the date of the group's first row in table order (`x.iloc[0]`, line 43). That is the group's minimum retained date when the dates ascend within the group; otherwise it need not be.
- **Predecessor of a row.** The predecessor used by `diff` is taken in the stable (entity, `Days`) sort, exactly as the code sorts. With ascending dates it is the previous row of the same entity (`MetricLaws.PredIsPrevious`).

## Model

| member | source | states |
|---|---|---|
| KeyOrder.SortedKeys | covid_app.py:18 | the key list `groupby` produces is strictly sorted and holds exactly the input's keys |
| KeyOrder.Insert | covid_app.py:18 | inserting a key into a strictly sorted key list keeps it strictly sorted and adds exactly that key |
| Grouping.Aggregate | covid_app.py:18 | `groupby(key).sum()`: keys strictly sorted, exactly the input's keys, dates unchanged, each cell the sum of that date column over the rows with that key |
| Grouping.AggregateTotals | covid_app.py:18 | aggregation preserves every date column's total |
| Grouping.AggregateSingleRow | covid_app.py:27 | a row whose key no other row shares appears unchanged in the aggregate |
| Grouping.AggregateIdempotent | covid_app.py:18 | aggregating an aggregated table changes nothing |
| Loading.KeptColumns | covid_app.py:16 | the columns kept by the drop are exactly those not named, in their original order |
| Loading.RawFrame.DropColumns | covid_app.py:16 | in-place `drop(axis=1)`: succeeds exactly when every name is a column; then columns and every row are projected onto the kept columns; otherwise nothing changes |
| Loading.KeyColumn | covid_app.py:18 | the position of the first column headed by the group key, or the width when the key is absent |
| Loading.OtherColumns | covid_app.py:18 | the columns summed are all columns except the key, each exactly once, in column order |
| Loading.CountOf | covid_app.py:18 | `sum` reads a count cell as its count and an empty cell as 0; any other cell cannot be summed |
| Loading.KeyedRows | covid_app.py:18 | the rows with a key become wide rows with one count per date column, never more rows than the input; its meaning is carried by `KeyedRowsMember` and `KeyedRowsSum` |
| Loading.KeyedRowsMember | covid_app.py:18 | a wide row is produced exactly when some raw row with a named key reads as it: rows with an empty key, and only those, are dropped |
| Loading.KeyedRowsSum | covid_app.py:18 | summing the wide rows of a key gives the sum of that column's cells over the raw rows with that key, empty cells adding 0 |
| Loading.ToWide | covid_app.py:18 | reading the dropped frame succeeds exactly when the key exists, every other column is a date and every date cell, in rows with or without a key, is a count or empty; then the dates are the headers of the other columns in order and the rows are `KeyedRows` of the frame |
| Loading.EmptyKeyRowChecked | covid_app.py:18 | in any frame, a date cell that is neither a count nor empty makes reading fail, even when it sits in a row whose key is empty |
| Loading.GroupedCell | covid_app.py:18 | each cell of the aggregated table is the sum of that date column over the raw rows that carry the group's name, empty cells adding 0 |
| Loading.Loaded | covid_app.py:12-19 | a loader's result is a valid table with strictly sorted keys, and it is a schema error when a metadata column is missing |
| Loading.LoadDeathData | covid_app.py:15-18 | dropping in place, grouping and summing give exactly `Loaded` of the frame as read; the frame is left with the metadata columns dropped, or unchanged when one is missing |
| Loading.LoadGlobalDeathData | covid_app.py:12-19 | the global loader drops `Province/State`, `Lat`, `Long` and groups by `Country/Region`; the frame is left with those columns dropped, or unchanged when one is missing |
| Loading.LoadUsDeathData | covid_app.py:21-28 | the US loader drops its eleven metadata columns and groups by `Province_State`; the frame is left with those columns dropped, or unchanged when one is missing |
| Reshape.Transpose | covid_app.py:31-38 | `date_convert` moves cell (entity e, date d) to row d, column e, and the old headers become the `Date` column |
| Reshape.Untranspose | covid_app.py:33 | the inverse of the transpose: a valid wide table with one row per entity and one date per row of the frame; the round trips below give its meaning |
| Reshape.UntransposeTranspose | covid_app.py:33 | transposing back restores the wide table |
| Reshape.TransposeUntranspose | covid_app.py:33 | transposing twice restores the date-by-entity table |
| Melting.Melt | covid_app.py:41 | one long row per cell of the table; `MeltAt`, `MeltIndex` and `UnmeltMelt` say which row carries which cell |
| Melting.MeltAt | covid_app.py:41 | melting gives one row per (date, entity) cell; the row at entity e, date d carries that cell; entities are stacked in column order |
| Melting.MeltIndex | covid_app.py:41 | melted row i is the cell of date i mod n and entity i div n |
| Melting.UnmeltMelt | covid_app.py:41 | the melted rows determine the table: un-melting restores it |
| Melting.MeltGroupsAscending | covid_app.py:41 | with ascending dates and distinct entities, each entity's melted rows come in ascending date order |
| Metrics.Retain | covid_app.py:42 | the threshold filter keeps rows whose value is at least 10, never more rows than it was given |
| Metrics.FirstFrom | covid_app.py:43 | finds the first row of an entity at or after a position |
| Metrics.GroupStart | covid_app.py:43 | the group's first row in table order (`x.iloc[0]`) belongs to the same entity, and no earlier row does |
| Metrics.DaysAt | covid_app.py:43 | a group's first row has `Days == 0`; `MetricLaws.DaysFromGroupStart` and `DaysIncrease` give the rest |
| Metrics.PredScan | covid_app.py:45 | the predecessor in the stable (entity, `Days`) sort is a row sorting before the given one, and the last such row; none exactly when no row sorts before it |
| Metrics.Pred | covid_app.py:45 | the row `diff` compares with: one sorting before the row and the last such in the sort, none exactly when no row sorts before it; `MetricLaws.PredIsPrevious` identifies it with ascending dates |
| Metrics.Change | covid_app.py:45 | `diff` is missing exactly when no row sorts before the row; otherwise the predecessor's value plus the change is the row's value |
| Metrics.PctChange | covid_app.py:47 | `pct_change() * 100` is missing exactly when no row sorts before the row; otherwise the predecessor's value grown by that percentage is the row's value |
| Metrics.Window | covid_app.py:49 | a row's rolling window holds at most seven rows of its entity, none after it, and ends at the row itself; `MetricLaws.WindowIsTail` and `WindowOfRow` say which rows |
| Metrics.RollOf | covid_app.py:49 | `rolling(7).mean().round()` is present exactly when the window has seven present samples, and is then within one half of their mean |
| Metrics.PctRollOf | covid_app.py:51 | the percentage rolling mean is present exactly when the window has seven present samples, and is then a whole number within one half of their mean |
| Metrics.RecordOf | covid_app.py:54-57 | a tidy record keeps the row's date, entity and value; `fillna(0)` turns a missing difference into 0 and keeps a present one; the rolling-mean fallback is stated by `MetricLaws.EarlyRollIsChange` and `LateRollIsMean` |
| Metrics.WindowIdx | covid_app.py:49 | a rolling window holds at most the requested number of rows of the entity, all before the bound |
| Metrics.RoundMean7 | covid_app.py:49 | the rounded mean of seven integers is within one half of the exact mean |
| Metrics.RoundHalfEven | covid_app.py:51 | `round` on a real: the nearest integer, ties going to the even one |
| Metrics.TidyTable | covid_app.py:43-57 | the tidy table has one record per retained row |
| Metrics.TidySpec | covid_app.py:40-58 | `tidy_death_data` fails with `EmptyInput` exactly when no melted row reaches the threshold, and otherwise has one record per retained row |
| Tidy.RetainInPlace | covid_app.py:42 | the in-place drop leaves exactly the filtered rows, in order, at the front of the array |
| Tidy.GroupStartOf | covid_app.py:43 | the forward scan finds the group's first row |
| Tidy.FillDays | covid_app.py:43 | the `Days` array holds each row's days since its group's first row |
| Tidy.PredecessorOf | covid_app.py:45 | the scan finds the sort-order predecessor |
| Tidy.FillChanges | covid_app.py:45-47 | the `daily_change` and `daily_pct_change` arrays hold the differences in sort order, missing where a row has no predecessor |
| Tidy.WindowOf | covid_app.py:49 | the backward scan collects the row's rolling window |
| Tidy.FillRolls | covid_app.py:49-51 | the rolling-mean arrays hold the rounded seven-sample means of the unfilled difference columns |
| Tidy.Backfill | covid_app.py:54-57 | in-place `fillna`: a missing difference becomes 0, a missing rolling mean becomes the same row's filled difference, present values are kept |
| Tidy.Assemble | covid_app.py:58 | the finished rows carry the retained row and the five filled columns, position by position |
| Tidy.FillAndAssemble | covid_app.py:54-58 | back-filling and reading off the rows gives the filled records of the unfilled columns |
| Tidy.FillColumns | covid_app.py:43-51 | the five derived arrays hold the columns defined in `Metrics` |
| Tidy.DeriveColumns | covid_app.py:43-57 | the derived and filled table is the tidy table of the retained rows |
| Tidy.TidyDeathData | covid_app.py:40-58 | the step-by-step `tidy_death_data` returns exactly `TidySpec`: the tidy table, or `EmptyInput` when nothing reaches the threshold |
| Tidy.ColumnsMakeTable | covid_app.py:54-57 | filling the derived columns as the source does yields the tidy table |
| MetricLaws.RetainMember | covid_app.py:42 | a melted row survives exactly when its value is at least 10 |
| MetricLaws.RetainAppend | covid_app.py:42 | filtering a concatenation filters each part in order: survivors keep their relative order |
| MetricLaws.RetainAll | covid_app.py:42 | a table whose rows all reach the threshold passes unchanged |
| MetricLaws.RetainEmpty | covid_app.py:42 | nothing survives exactly when every row is below 10 |
| MetricLaws.RetainAscending | covid_app.py:42 | filtering keeps each entity's dates ascending |
| MetricLaws.TidyEmptyIff | covid_app.py:42 | the pipeline yields `EmptyInput` exactly when no cell of the table reaches 10 |
| MetricLaws.TidyKeepsRows | covid_app.py:43-58 | the tidy table is the filtered melted rows, position by position, with columns added, not re-sorted |
| MetricLaws.MeltedAscending | covid_app.py:41-42 | melting and filtering a table with ascending dates and distinct entities keeps each entity's dates ascending |
| MetricLaws.LastBelow | covid_app.py:45 | reference definition of the previous row of an entity: the last one below a position, or none exactly when there is none |
| MetricLaws.SortsBeforeAscending | covid_app.py:45 | with ascending dates, a row sorts before another of the same entity exactly when it comes earlier in the table |
| MetricLaws.PredIsPrevious | covid_app.py:45 | with ascending dates, the predecessor is the previous row of the same entity, and there is none exactly at the group's first row |
| MetricLaws.DaysFromGroupStart | covid_app.py:43 | `Days` is the row's date minus the date of the group's first row, which itself has `Days == 0` |
| MetricLaws.DaysIncrease | covid_app.py:43 | with ascending dates, `Days` is non-negative and strictly increasing within an entity |
| MetricLaws.FirstRowZero | covid_app.py:54-57 | after the fill, a group's first row has `Days`, both differences and both rolling means equal to 0 |
| MetricLaws.LaterRowChange | covid_app.py:45-47 | every later row has `daily_change == value - previous value` and the percentage change from the previous value |
| MetricLaws.TableEntities | covid_app.py:43-57 | the tidy table keeps each retained row's entity |
| MetricLaws.ChangeSumSkip | covid_app.py:45 | rows of other entities add nothing to an entity's change sum |
| MetricLaws.ChangesTelescope | covid_app.py:45 | an entity's changes up to a row add up to that row's value minus the entity's first retained value |
| MetricLaws.ChangesTotal | covid_app.py:45 | over the whole table, an entity's changes add up to its last value minus its first retained value |
| MetricLaws.GroupIdxFacts | covid_app.py:49 | the group's indices are the entity's rows below the bound, in increasing order, all of them |
| MetricLaws.GroupIdxStart | covid_app.py:43 | a group's first index is its first row |
| MetricLaws.GroupIdxGrows | covid_app.py:49 | a group only grows as the bound moves on |
| MetricLaws.WindowIsTail | covid_app.py:49 | the rolling window is the last seven rows of the group so far, or all of them when fewer |
| MetricLaws.WindowOfRow | covid_app.py:49 | a row's window ends at the row and covers min(7, position + 1) group rows |
| MetricLaws.SumOfFilled | covid_app.py:49 | the sum over a window of defined changes is the sum of the filled `daily_change` values |
| MetricLaws.EarlyRollIsChange | covid_app.py:49-57 | at group positions 0 to 6, both rolling means equal the row's own filled differences |
| MetricLaws.LateWindow | covid_app.py:49 | from position 7 on, the window is the last seven group rows and excludes the group's first row |
| MetricLaws.LaterChangeDefined | covid_app.py:45 | every group row after the first has a `daily_change` before the fill, and the fill keeps it |
| MetricLaws.LateRollIsMean | covid_app.py:49 | from position 7 on, `daily_roll_avg` is the rounded mean of the filled `daily_change` at positions k-6..k |
| MetricLaws.SmallGroupRollIsChange | covid_app.py:56 | an entity with at most seven retained rows has `daily_roll_avg == daily_change` on every row |
| Pipeline.AggregatedAscending | covid_app.py:18 | aggregating, transposing, melting and filtering a table with ascending dates leaves each entity's dates ascending, so the metric lemmas apply |
| Scenario.MeltedExample | covid_app.py:41 | the example melts to ten rows of entity A, one per day |
| Scenario.RetainedExample | covid_app.py:42 | the example's melted rows filter to the last six days |
| Scenario.ExampleRows | covid_app.py:41-42 | melting and filtering the example keep days 5 to 10 |
| Scenario.RetainedColumns | covid_app.py:43-56 | on the example, `Days` counts 0 to 5, `daily_change` is the day-to-day difference and `daily_roll_avg` equals it |
| Scenario.ExampleChange | covid_app.py:45 | the example's day-to-day differences are 0, 2, 3, 5, 5, 5 |
| Scenario.ExampleTable | covid_app.py:43-57 | the example's tidy table has `Days` 0 to 5, `daily_change` 0, 2, 3, 5, 5, 5 and `daily_roll_avg == daily_change` |
| Scenario.ExampleTidy | covid_app.py:40-58 | `tidy_death_data` on the example gives six rows with those columns |

## Left out

- The network reads (`pd.read_csv` over HTTP with `error_bad_lines`) and the `@st.cache` decorator are left out. They are I/O and a library cache. The loaders start from a `RawFrame` already read.
- `pd.to_datetime` on the `Date` column is left out because it is a library call. Dates are integer day numbers from the start.
- `Loading.ToWide`: returns `SchemaError` for a frame that pandas would still group and sum, in three cases: a decimal cell in a date column, which pandas reads as a float column and sums; a numeric key cell, which pandas groups by like any other key; and a text cell in a date column, in any row including one whose key is empty, or a column other than the key that is not a date, which pandas may drop quietly or concatenate depending on its version. Counts are integers here, and keys are names.
- `Tidy.TidyDeathData`: an empty table after the filter is reported as `EmptyInput`. The source would go on with an empty frame, and what the library then returns depends on its version.
- `Metrics.PctChange`: the percentage columns are computed in exact real arithmetic, not in IEEE doubles, so their rounding errors are not modelled.
- `Metrics.PctRollOf`: rounds the exact mean half-to-even. It does not model the rounding of a binary floating-point mean.
- The day, percentage and rolling-mean lemmas take "dates ascend within each entity" as a hypothesis. `Pipeline.AggregatedAscending` shows that it holds whenever the source table's date columns ascend. The model itself follows the code for any order.
- The Streamlit widgets, the Plotly figures (`global_plot_create`, `us_plot_create`), the page dispatch and the County Map branch are left out: they are user interface and chart rendering.
