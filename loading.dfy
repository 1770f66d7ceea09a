/** The two loaders: drop the metadata columns of a freshly read table in place, then
    collapse the rows that share an entity key by summing their date columns. */
module Loading {
  import opened Wrappers
  import opened Frames
  import opened KeyOrder
  import opened Grouping

  /** Every row has one cell per column. */
  predicate Rectangular(rows: seq<seq<Cell>>, width: nat) {
    forall r :: 0 <= r < |rows| ==> |rows[r]| == width
  }

  /** A column whose header is one of the names to drop. */
  predicate Dropped(l: Label, names: seq<string>) {
    l.Name? && l.name in names
  }

  /** `drop` raises when a name to drop is not a column header. */
  predicate AllPresent(columns: seq<Label>, names: seq<string>) {
    forall n :: n in names ==> Name(n) in columns
  }

  /** The indices of the columns that survive the drop, in their original order. */
  function KeptColumns(columns: seq<Label>, names: seq<string>): (idx: seq<nat>)
    ensures forall t :: 0 <= t < |idx| ==> idx[t] < |columns| && !Dropped(columns[idx[t]], names)
    ensures forall t, u :: 0 <= t < u < |idx| ==> idx[t] < idx[u]
    ensures forall c :: 0 <= c < |columns| && !Dropped(columns[c], names) ==> c in idx
    decreases |columns|
  {
    if columns == [] then []
    else
      var last := |columns| - 1;
      var rest := KeptColumns(columns[..last], names);
      if Dropped(columns[last], names) then rest else rest + [last]
  }

  /** The cells of `xs` at the positions `idx`. */
  function Project<T>(xs: seq<T>, idx: seq<nat>): (r: seq<T>)
    requires forall t :: 0 <= t < |idx| ==> idx[t] < |xs|
    ensures |r| == |idx|
  {
    seq(|idx|, t requires 0 <= t < |idx| => xs[idx[t]])
  }

  /** A table as it comes back from the network read. */
  class RawFrame {
    var columns: seq<Label>
    var rows: seq<seq<Cell>>

    ghost predicate Valid()
      reads this
    {
      Rectangular(rows, |columns|)
    }

    constructor (columns: seq<Label>, rows: seq<seq<Cell>>)
      requires Rectangular(rows, |columns|)
      ensures Valid() && this.columns == columns && this.rows == rows
    {
      this.columns := columns;
      this.rows := rows;
    }

    /** `drop(names, axis=1, inplace=True)`: fails, changing nothing, if a name is not a
        column; otherwise removes every column carrying one of the names. */
    method DropColumns(names: seq<string>) returns (ok: bool)
      requires Valid()
      modifies this
      ensures Valid()
      ensures ok <==> AllPresent(old(columns), names)
      ensures ok ==> columns == Project(old(columns), KeptColumns(old(columns), names))
      ensures ok ==> |rows| == |old(rows)| &&
                     forall r :: 0 <= r < |rows| ==>
                       rows[r] == Project(old(rows)[r], KeptColumns(old(columns), names))
      ensures !ok ==> columns == old(columns) && rows == old(rows)
    {
      ok := forall n :: n in names ==> Name(n) in columns;
      if !ok {
        return;
      }
      var keep: seq<nat> := [];
      var c := 0;
      while c < |columns|
        invariant c <= |columns|
        invariant keep == KeptColumns(columns[..c], names)
      {
        assert columns[..c + 1][..c] == columns[..c];
        if !Dropped(columns[c], names) {
          keep := keep + [c];
        }
        c := c + 1;
      }
      assert columns[..c] == columns;
      var r := 0;
      while r < |rows|
        invariant columns == old(columns)
        invariant r <= |rows| == |old(rows)|
        invariant forall q :: 0 <= q < r ==> rows[q] == Project(old(rows)[q], keep)
        invariant forall q :: r <= q < |rows| ==> rows[q] == old(rows)[q]
      {
        rows := rows[r := Project(rows[r], keep)];
        r := r + 1;
      }
      columns := Project(columns, keep);
    }
  }

  /** Index of the first column headed `key`, or the number of columns. */
  function KeyColumn(columns: seq<Label>, key: string): (k: nat)
    ensures k <= |columns|
    ensures k < |columns| ==> columns[k] == Name(key)
    ensures forall c :: 0 <= c < k ==> columns[c] != Name(key)
    decreases |columns|
  {
    if columns == [] then 0
    else if columns[0] == Name(key) then 0
    else 1 + KeyColumn(columns[1..], key)
  }

  /** The positions of all columns except `k`, in order: what `sum` adds up. */
  function OtherColumns(n: nat, k: nat): (idx: seq<nat>)
    requires k < n
    ensures |idx| == n - 1
    ensures forall t :: 0 <= t < |idx| ==> idx[t] < n && idx[t] != k
    ensures forall c :: 0 <= c < n && c != k ==> c in idx
    ensures forall t, u :: 0 <= t < u < |idx| ==> idx[t] < idx[u]
  {
    var idx := seq(n - 1, t requires 0 <= t < n - 1 => if t < k then t else t + 1);
    assert forall c :: 0 <= c < n && c != k ==> c in idx by {
      forall c | 0 <= c < n && c != k ensures c in idx {
        var t := if c < k then c else c - 1;
        assert idx[t] == c;
      }
    }
    idx
  }

  /** A cell's contribution to a column sum: `sum` skips empty cells. */
  function CountOf(c: Cell): (n: Option<int>)
    ensures n.Some? <==> c.Count? || c.Missing?
    ensures c.Count? ==> n == Some(c.count)
    ensures c.Missing? ==> n == Some(0)
  {
    match c
    case Count(n) => Some(n)
    case Missing => Some(0)
    case _ => None
  }

  /** A row can be grouped: its key is empty (and the row is dropped) or a name, and its
      remaining cells are all counts or empty. A text cell makes the whole date column
      non-numeric, so it matters even in a row that is dropped. */
  predicate RowReadable(row: seq<Cell>, k: nat, others: seq<nat>)
    requires k < |row| && forall t :: 0 <= t < |others| ==> others[t] < |row|
  {
    (row[k].Missing? || row[k].Text?) &&
    forall t :: 0 <= t < |others| ==> CountOf(row[others[t]]).Some?
  }

  /** The wide row of a raw row whose key cell holds a name. */
  function RowOf(row: seq<Cell>, k: nat, others: seq<nat>): WideRow
    requires k < |row| && (forall t :: 0 <= t < |others| ==> others[t] < |row|)
    requires row[k].Text? && RowReadable(row, k, others)
  {
    WideRow(row[k].text, seq(|others|, t requires 0 <= t < |others| => CountOf(row[others[t]]).value))
  }

  /** Every raw row can be read with key column k and count columns `others`. */
  predicate AllReadable(rows: seq<seq<Cell>>, k: nat, others: seq<nat>) {
    forall i :: 0 <= i < |rows| ==>
      k < |rows[i]| && (forall t :: 0 <= t < |others| ==> others[t] < |rows[i]|) &&
      RowReadable(rows[i], k, others)
  }

  /** The rows with a key, as wide rows; `groupby` drops rows whose key is empty. */
  function KeyedRows(rows: seq<seq<Cell>>, k: nat, others: seq<nat>): (r: seq<WideRow>)
    requires AllReadable(rows, k, others)
    ensures Width(r, |others|) && |r| <= |rows|
    decreases |rows|
  {
    if rows == [] then []
    else
      var rest := KeyedRows(rows[1..], k, others);
      var row := rows[0];
      assert RowReadable(row, k, others);
      if row[k].Missing? then rest else [RowOf(row, k, others)] + rest
  }

  /** A wide row comes out of `KeyedRows` exactly when it is read from a raw row whose key
      cell holds a name: rows with an empty key, and only those, are dropped. */
  lemma {:induction false} KeyedRowsMember(rows: seq<seq<Cell>>, k: nat, others: seq<nat>, x: WideRow)
    requires AllReadable(rows, k, others)
    ensures x in KeyedRows(rows, k, others) <==>
            exists i :: 0 <= i < |rows| && rows[i][k].Text? && x == RowOf(rows[i], k, others)
    decreases |rows|
  {
    if rows != [] {
      var tail := rows[1..];
      assert AllReadable(tail, k, others) by {
        forall i | 0 <= i < |tail| ensures RowReadable(tail[i], k, others) {
          assert tail[i] == rows[i + 1];
        }
      }
      KeyedRowsMember(tail, k, others, x);
      assert RowReadable(rows[0], k, others);
      if x in KeyedRows(rows, k, others) && x !in KeyedRows(tail, k, others) {
        assert rows[0][k].Text? && x == RowOf(rows[0], k, others);
      }
      if exists i :: 0 <= i < |rows| && rows[i][k].Text? && x == RowOf(rows[i], k, others) {
        var i :| 0 <= i < |rows| && rows[i][k].Text? && x == RowOf(rows[i], k, others);
        if i > 0 {
          assert tail[i - 1] == rows[i];
        }
      }
    }
  }

  /** Count column t summed over the raw rows whose key cell is the name `key`, an empty
      cell adding 0: what `groupby(key).sum()` puts in that group's cell. */
  function RawSum(rows: seq<seq<Cell>>, k: nat, others: seq<nat>, key: string, t: nat): int
    requires AllReadable(rows, k, others) && t < |others|
    decreases |rows|
  {
    if rows == [] then 0
    else
      assert RowReadable(rows[0], k, others);
      var tail := rows[1..];
      assert AllReadable(tail, k, others) by {
        forall i | 0 <= i < |tail| ensures RowReadable(tail[i], k, others) {
          assert tail[i] == rows[i + 1];
        }
      }
      (if rows[0][k] == Text(key) then CountOf(rows[0][others[t]]).value else 0) + RawSum(tail, k, others, key, t)
  }

  /** Summing the wide rows of a key gives the raw cells' sum over the rows with that key. */
  lemma {:induction false} KeyedRowsSum(rows: seq<seq<Cell>>, k: nat, others: seq<nat>, key: string, t: nat)
    requires AllReadable(rows, k, others) && t < |others|
    ensures KeySum(KeyedRows(rows, k, others), key, t) == RawSum(rows, k, others, key, t)
    decreases |rows|
  {
    if rows != [] {
      var tail := rows[1..];
      assert AllReadable(tail, k, others) by {
        forall i | 0 <= i < |tail| ensures RowReadable(tail[i], k, others) {
          assert tail[i] == rows[i + 1];
        }
      }
      KeyedRowsSum(tail, k, others, key, t);
      assert RowReadable(rows[0], k, others);
      var w := KeyedRows(rows, k, others);
      if rows[0][k].Text? {
        assert w[1..] == KeyedRows(tail, k, others);
      }
    }
  }

  /** The key column and the date columns of a table whose metadata columns are gone. */
  predicate Groupable(columns: seq<Label>, rows: seq<seq<Cell>>, key: string)
    requires Rectangular(rows, |columns|)
  {
    var k := KeyColumn(columns, key);
    k < |columns| &&
    var others := OtherColumns(|columns|, k);
    (forall t :: 0 <= t < |others| ==> columns[others[t]].Date?) &&
    (forall i :: 0 <= i < |rows| ==> RowReadable(rows[i], k, others))
  }

  /** Reads a frame made of a key column and date columns as a wide table: the date
      headers in column order, and one wide row per row with a key. */
  function ToWide(columns: seq<Label>, rows: seq<seq<Cell>>, key: string): (r: Result<WideTable, Error>)
    requires Rectangular(rows, |columns|)
    ensures r.Ok? <==> Groupable(columns, rows, key)
    ensures r.Ok? ==> r.value.Valid() && |r.value.dates| == |columns| - 1
    ensures r.Ok? ==>
              var k := KeyColumn(columns, key);
              var others := OtherColumns(|columns|, k);
              AllReadable(rows, k, others) &&
              (forall t :: 0 <= t < |others| ==> r.value.dates[t] == columns[others[t]].day) &&
              r.value.rows == KeyedRows(rows, k, others)
  {
    if !Groupable(columns, rows, key) then Err(SchemaError)
    else
      var k := KeyColumn(columns, key);
      var others := OtherColumns(|columns|, k);
      var wide := KeyedRows(rows, k, others);
      var dates := seq(|others|, t requires 0 <= t < |others| => columns[others[t]].day);
      Ok(WideTable(dates, wide))
  }

  /** A cell that is neither a count nor empty in a date column makes reading fail, even
      when it sits in a row whose key is empty. */
  lemma EmptyKeyRowChecked(columns: seq<Label>, rows: seq<seq<Cell>>, key: string, i: nat, t: nat)
    requires Rectangular(rows, |columns|) && i < |rows|
    requires KeyColumn(columns, key) < |columns| && t < |columns| - 1
    requires rows[i][KeyColumn(columns, key)].Missing?
    requires CountOf(rows[i][OtherColumns(|columns|, KeyColumn(columns, key))[t]]).None?
    ensures ToWide(columns, rows, key) == Err(SchemaError)
  {
    var k := KeyColumn(columns, key);
    var others := OtherColumns(|columns|, k);
    assert !RowReadable(rows[i], k, others);
  }

  /** Reading and aggregating a frame: each cell of group g is the sum, over the raw rows
      whose key cell is g's name, of that date column, empty cells adding 0. */
  lemma GroupedCell(columns: seq<Label>, rows: seq<seq<Cell>>, key: string, g: nat, t: nat)
    requires Rectangular(rows, |columns|) && ToWide(columns, rows, key).Ok?
    requires g < |Aggregate(ToWide(columns, rows, key).value).rows| && t < |columns| - 1
    ensures var a := Aggregate(ToWide(columns, rows, key).value);
            var k := KeyColumn(columns, key);
            a.rows[g].counts[t] == RawSum(rows, k, OtherColumns(|columns|, k), a.rows[g].key, t)
  {
    var w := ToWide(columns, rows, key).value;
    var k := KeyColumn(columns, key);
    KeyedRowsSum(rows, k, OtherColumns(|columns|, k), Aggregate(w).rows[g].key, t);
  }

  /** What a loader returns for a table read from its source. */
  function Loaded(columns: seq<Label>, rows: seq<seq<Cell>>, metadata: seq<string>, key: string): (r: Result<WideTable, Error>)
    requires Rectangular(rows, |columns|)
    ensures r.Ok? ==> r.value.Valid() && StrictlySorted(Keys(r.value.rows))
    ensures !AllPresent(columns, metadata) ==> r == Err(SchemaError)
  {
    if !AllPresent(columns, metadata) then Err(SchemaError)
    else
      var keep := KeptColumns(columns, metadata);
      var kept := seq(|rows|, q requires 0 <= q < |rows| => Project(rows[q], keep));
      match ToWide(Project(columns, keep), kept, key)
      case Err(e) => Err(e)
      case Ok(w) => Ok(Aggregate(w))
  }

  /** Drops `metadata` in place, then groups by `key` and sums. The frame is left with the
      metadata columns dropped, or unchanged when one of them is missing. */
  method LoadDeathData(frame: RawFrame, metadata: seq<string>, key: string) returns (r: Result<WideTable, Error>)
    requires frame.Valid()
    modifies frame
    ensures frame.Valid()
    ensures AllPresent(old(frame.columns), metadata) ==>
              frame.columns == Project(old(frame.columns), KeptColumns(old(frame.columns), metadata)) &&
              |frame.rows| == |old(frame.rows)| &&
              forall q :: 0 <= q < |frame.rows| ==>
                frame.rows[q] == Project(old(frame.rows)[q], KeptColumns(old(frame.columns), metadata))
    ensures !AllPresent(old(frame.columns), metadata) ==>
              frame.columns == old(frame.columns) && frame.rows == old(frame.rows)
    ensures r == Loaded(old(frame.columns), old(frame.rows), metadata, key)
  {
    ghost var columns, rows := frame.columns, frame.rows;
    var ok := frame.DropColumns(metadata);
    if !ok {
      return Err(SchemaError);
    }
    ghost var keep := KeptColumns(columns, metadata);
    assert frame.rows == seq(|rows|, q requires 0 <= q < |rows| => Project(rows[q], keep));
    var w := ToWide(frame.columns, frame.rows, key);
    match w {
      case Err(e) => r := Err(e);
      case Ok(t) => r := Ok(Aggregate(t));
    }
  }

  const GlobalMetadata: seq<string> := ["Province/State", "Lat", "Long"]
  const GlobalKey: string := "Country/Region"
  const UsMetadata: seq<string> :=
    ["Country_Region", "UID", "iso2", "iso3", "code3", "Combined_Key", "FIPS", "Admin2", "Lat", "Long_", "Population"]
  const UsKey: string := "Province_State"

  /** `load_global_death_data` after its network read: one row per country. */
  method LoadGlobalDeathData(frame: RawFrame) returns (r: Result<WideTable, Error>)
    requires frame.Valid()
    modifies frame
    ensures frame.Valid()
    ensures AllPresent(old(frame.columns), GlobalMetadata) ==>
              frame.columns == Project(old(frame.columns), KeptColumns(old(frame.columns), GlobalMetadata)) &&
              |frame.rows| == |old(frame.rows)| &&
              forall q :: 0 <= q < |frame.rows| ==>
                frame.rows[q] == Project(old(frame.rows)[q], KeptColumns(old(frame.columns), GlobalMetadata))
    ensures !AllPresent(old(frame.columns), GlobalMetadata) ==>
              frame.columns == old(frame.columns) && frame.rows == old(frame.rows)
    ensures r == Loaded(old(frame.columns), old(frame.rows), GlobalMetadata, GlobalKey)
  {
    r := LoadDeathData(frame, GlobalMetadata, GlobalKey);
  }

  /** `load_us_death_data` after its network read: one row per state. */
  method LoadUsDeathData(frame: RawFrame) returns (r: Result<WideTable, Error>)
    requires frame.Valid()
    modifies frame
    ensures frame.Valid()
    ensures AllPresent(old(frame.columns), UsMetadata) ==>
              frame.columns == Project(old(frame.columns), KeptColumns(old(frame.columns), UsMetadata)) &&
              |frame.rows| == |old(frame.rows)| &&
              forall q :: 0 <= q < |frame.rows| ==>
                frame.rows[q] == Project(old(frame.rows)[q], KeptColumns(old(frame.columns), UsMetadata))
    ensures !AllPresent(old(frame.columns), UsMetadata) ==>
              frame.columns == old(frame.columns) && frame.rows == old(frame.rows)
    ensures r == Loaded(old(frame.columns), old(frame.rows), UsMetadata, UsKey)
  {
    r := LoadDeathData(frame, UsMetadata, UsKey);
  }
}
