/**
  The fixed schema of the uploaded table (app.py:16-25) and the shape of an
  already parsed table: an ordered sequence of rows, each mapping a column
  name to a cell that either holds text or is missing (pandas' NaN).
*/
module Schema {

  /** A cell as read from the file: its text, or the "no value" marker. */
  datatype Cell = Present(text: string) | Missing

  /** One row: column name to cell. */
  type Row = map<string, Cell>

  /** A parsed table: its column names and its rows, in order. */
  datatype Table = Table(headers: set<string>, rows: seq<Row>)

  const Horsepower: string := "Horsepower"
  const Weight: string := "Weight"
  const Origin: string := "Origin"

  /** `expected_tableTitles` (app.py:16). */
  const ExpectedHeaders: seq<string> := [Horsepower, Weight, Origin]

  /** `origin_AllowedValues` (app.py:17). */
  const AllowedOrigins: seq<string> := ["US", "Europe", "Japan"]

  /** The two target types a column is coerced to. */
  datatype ColumnType = Float | Str

  /** `expected_tableTitles_Datatypes`, in the dictionary's iteration order (app.py:18-22). */
  const ExpectedTypes: seq<(string, ColumnType)> := [(Horsepower, Float), (Weight, Float), (Origin, Str)]

  /** Axis titles and chart title (app.py:24-25, app.py:83). */
  const TitleY: string := ExpectedHeaders[0]
  const TitleX: string := ExpectedHeaders[1]

  /** Why a table was refused. */
  datatype Reason =
    | NotATable
    | MissingHeader
      /** A column that could not be coerced, with the (row index, original cell) pairs pandas reports. */
    | BadCells(column: string, cells: seq<(nat, Cell)>)
      /** A column holding values outside its whitelist: the distinct offending values. */
    | BadCategories(column: string, values: seq<string>)

  /** Every row has exactly the table's columns (a pandas frame is rectangular). */
  predicate RowsHave(rows: seq<Row>, headers: set<string>) {
    forall i :: 0 <= i < |rows| ==> rows[i].Keys == headers
  }

  /** A table as `pd.read_csv` produces it. */
  predicate WellFormed(t: Table) {
    RowsHave(t.rows, t.headers)
  }

  /** `all(name in table.columns for name in expected_tableTitles)` (app.py:40). */
  predicate HasHeaders(headers: set<string>) {
    forall name :: name in ExpectedHeaders ==> name in headers
  }

  predicate HasColumn(rows: seq<Row>, key: string) {
    forall i :: 0 <= i < |rows| ==> key in rows[i]
  }

  /** `table[key]`: the column's cells in row order. */
  function Column(rows: seq<Row>, key: string): (col: seq<Cell>)
    requires HasColumn(rows, key)
    ensures |col| == |rows|
    ensures forall i :: 0 <= i < |rows| ==> col[i] == rows[i][key]
  {
    seq(|rows|, i requires 0 <= i < |rows| => rows[i][key])
  }

  /** `table[key] = col`: the column replaced, every other column kept. */
  function SetColumn(rows: seq<Row>, key: string, col: seq<Cell>): (r: seq<Row>)
    requires |col| == |rows|
    ensures |r| == |rows|
    ensures forall i :: 0 <= i < |rows| ==> r[i] == rows[i][key := col[i]]
  {
    seq(|rows|, i requires 0 <= i < |rows| => rows[i][key := col[i]])
  }
}
