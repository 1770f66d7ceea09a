/** The tables that flow through the dashboard's data pipeline. */
module Frames {

  /** The ways a pipeline stage can fail. */
  datatype Error =
    | SchemaError   // a column to drop or group by is absent, or a cell is not of the expected kind
    | EmptyInput    // no melted row reaches the death threshold

  /** A column header of a freshly read table: a metadata column name, or a date column
      (its header already parsed to a day number). */
  datatype Label = Name(name: string) | Date(day: int)

  /** A cell of a freshly read table. */
  datatype Cell =
    | Text(text: string)      // a name such as a country or a state
    | Count(count: int)       // an integer such as a cumulative death count or a code
    | Decimal(decimal: real)  // a coordinate
    | Missing                 // an empty cell (NaN)

  /** One entity of a wide table with its cumulative count on each date column. */
  datatype WideRow = WideRow(key: string, counts: seq<int>)

  /** A wide table: one row per entity, one column per date. */
  datatype WideTable = WideTable(dates: seq<int>, rows: seq<WideRow>) {
    predicate Valid() {
      forall r :: 0 <= r < |rows| ==> |rows[r].counts| == |dates|
    }
  }

  /** One row of the date-oriented table: the `Date` cell and one cell per entity column. */
  datatype DateRow = DateRow(date: int, values: seq<int>)

  /** The table `date_convert` returns: a leading `Date` column and one column per entity. */
  datatype DateFrame = DateFrame(entities: seq<string>, rows: seq<DateRow>) {
    predicate Valid() {
      forall d :: 0 <= d < |rows| ==> |rows[d].values| == |entities|
    }
  }

  /** One row of the melted (long) table: `Date`, the entity column, `value`. */
  datatype LongRow = LongRow(date: int, entity: string, value: int)

  /** One row of the tidy table: a retained long row with its derived columns after backfill. */
  datatype TidyRecord = TidyRecord(
    date: int,
    entity: string,
    value: int,
    days: int,                      // `Days`
    dailyChange: int,               // `daily_change`
    dailyPctChange: real,           // `daily_pct_change`
    dailyRollAvg: int,              // `daily_roll_avg`
    dailyPctChangeRollAvg: real)    // `daily_pctchange_roll_avg`
}
