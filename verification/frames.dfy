/** Cells, rows and tables: the values the pipeline's DataFrames hold. */
module Frames {
  import opened Wrappers
  import opened Strings

  /** One cell of a table. `Null` is pandas' missing value (None, NaN, NaT);
      `Num` a number after `pd.to_numeric`; `Stamp` a UTC timestamp in whole
      seconds after `pd.to_datetime`; `Str` any text. */
  datatype Cell = Null | Str(s: string) | Num(n: int) | Stamp(secs: int)

  /** `str(x)` for a non-null cell. Timestamps are rendered as their seconds. */
  function ToStr(c: Cell): (r: string)
    ensures c.Str? ==> r == c.s
  {
    match c
    case Null => "nan"
    case Str(s) => s
    case Num(n) => DecimalString(n)
    case Stamp(t) => DecimalString(t)
  }

  /** A row maps column names to cells. */
  type Row = map<string, Cell>

  /** `row[c]`, a missing column reading as null. */
  function Get(row: Row, c: string): Cell {
    if c in row then row[c] else Null
  }

  predicate Distinct<T(==)>(s: seq<T>) {
    forall i, j :: 0 <= i < j < |s| ==> s[i] != s[j]
  }

  /** A DataFrame: its column names in order and its rows. */
  datatype Table = Table(columns: seq<string>, rows: seq<Row>)

  /** Column names are unique and every row has exactly the table's columns. */
  predicate WellFormed(t: Table) {
    && Distinct(t.columns)
    && forall i :: 0 <= i < |t.rows| ==> t.rows[i].Keys == set c | c in t.columns
  }

  /** `names[k] := cells[k]` for every k, in order. */
  function Assign(row: Row, names: seq<string>, cells: seq<Cell>): (r: Row)
    requires |names| == |cells|
    ensures r.Keys == row.Keys + set c | c in names
    ensures forall c :: c !in names ==> Get(r, c) == Get(row, c)
    ensures Distinct(names) ==> forall k :: 0 <= k < |names| ==> Get(r, names[k]) == cells[k]
    decreases |names|
  {
    if names == [] then row
    else
      var r := Assign(row[names[0] := cells[0]], names[1..], cells[1..]);
      assert forall k :: 1 <= k < |names| ==> names[k] == names[1..][k - 1] && cells[k] == cells[1..][k - 1];
      assert Distinct(names) ==> Distinct(names[1..]) && names[0] !in names[1..];
      r
  }

  /** The text parsers that `pd.to_numeric` and `pd.to_datetime` apply to a
      string cell; `None` is a value they cannot parse (errors="coerce"). */
  datatype Parsers = Parsers(numeric: string -> Option<int>, datetime: string -> Option<int>)

  /** `pd.to_numeric(x, errors="coerce")`: a number or null. */
  function ToNumeric(c: Cell, p: Parsers): (r: Cell)
    ensures r.Null? || r.Num?
    ensures c.Num? ==> r == c
    ensures c.Null? ==> r.Null?
  {
    match c
    case Null => Null
    case Num(n) => c
    case Str(s) => (match p.numeric(s) case Some(n) => Num(n) case None => Null)
    case Stamp(_) => Null
  }

  /** `pd.to_datetime(x, errors="coerce", utc=True)`: a timestamp or null. An
      integer is read as nanoseconds since the epoch. */
  function ToDatetime(c: Cell, p: Parsers): (r: Cell)
    ensures r.Null? || r.Stamp?
    ensures c.Stamp? ==> r == c
    ensures c.Null? ==> r.Null?
  {
    match c
    case Null => Null
    case Stamp(_) => c
    case Num(n) => Stamp(n / 1_000_000_000)
    case Str(s) => (match p.datetime(s) case Some(t) => Stamp(t) case None => Null)
  }
}
