/**
  `csvToDataFrame` (app.py:64-71) from an already parsed table: drop the
  first data row, renumber the rest, validate, and hand back either the
  table or the failure.
*/
module Pipeline {
  import opened Schema
  import opened Coercion
  import opened Validation
  import opened ValidationFacts

  /** The tagged result that replaces "a frame, or a `(False, msg)` tuple". */
  datatype Loaded = Valid(table: Table) | Invalid(reason: Reason)

  /** A table as `pd.read_csv` returns it, with at least one data row for `drop(0)`. */
  predicate Parsed(t: Table) {
    WellFormed(t) && |t.rows| >= 1
  }

  /** `drop(0).reset_index(drop=True)` (app.py:66): row i of the result is row i + 1 of the input. */
  function DropFirstRow(rows: seq<Row>): (r: seq<Row>)
    requires |rows| >= 1
    ensures |r| == |rows| - 1
    ensures forall i :: 0 <= i < |r| ==> r[i] == rows[i + 1]
  {
    rows[1..]
  }

  /** app.py:68-71: the table if validation passed, otherwise the reason it did not. */
  function Dispatch(headers: set<string>, c: Checked): (r: Loaded)
    ensures r.Valid? <==> c.verdict == Pass
    ensures r.Valid? ==> r.table == Table(headers, c.rows)
    ensures r.Invalid? ==> r.reason == c.verdict.reason
  {
    match c.verdict
    case Pass => Valid(Table(headers, c.rows))
    case Fail(reason) => Invalid(reason)
  }

  /** The value `csvToDataFrame` returns for the parsed file `t`. */
  function Load(t: Table, isNumber: string -> bool): (r: Loaded)
    requires Parsed(t)
  {
    Dispatch(t.headers, Validate(t.headers, DropFirstRow(t.rows), isNumber))
  }

  /**
    `csvToDataFrame`: the rows after the drop go into a fresh frame, which
    `ValidateTable` coerces in place; the frame is returned only if it passed.
  */
  method CsvToDataFrame(t: Table, isNumber: string -> bool) returns (r: Loaded)
    requires Parsed(t)
    ensures r == Load(t, isNumber)
    ensures r.Valid? ==> r.table.headers == t.headers && |r.table.rows| == |t.rows| - 1
    ensures r != Invalid(NotATable)
  {
    var rows := DropFirstRow(t.rows);
    var frame := new Row[|rows|](i requires 0 <= i < |rows| => rows[i]);
    assert frame[..] == rows;
    var verdict := ValidateTable(t.headers, frame, isNumber);
    if verdict == Pass {
      r := Valid(Table(t.headers, frame[..]));
    } else {
      r := Invalid(verdict.reason);
    }
    NeverNotATable(t, isNumber);
  }

  /** A parsed file is always a frame, so "not recognised as a table" never comes out of the pipeline. */
  lemma NeverNotATable(t: Table, isNumber: string -> bool)
    requires Parsed(t)
    ensures Load(t, isNumber) != Invalid(NotATable)
  {
    var rows := DropFirstRow(t.rows);
    assert RowsHave(rows, t.headers);
    if HasHeaders(t.headers) {
      ValidateSteps(t.headers, rows, isNumber);
    }
  }

  /**
    The pipeline accepts a file exactly when its headers are present and
    every row after the first conforms; the accepted table has one row less,
    and row i holds the coerced cells of input row i + 1.
  */
  lemma {:induction false} LoadValidIff(t: Table, isNumber: string -> bool)
    requires Parsed(t)
    ensures var rows := DropFirstRow(t.rows);
      Load(t, isNumber).Valid? <==>
        HasHeaders(t.headers) && HasColumn(rows, Horsepower) && HasColumn(rows, Weight) && HasColumn(rows, Origin) &&
        Conforms(rows, isNumber)
    ensures Load(t, isNumber).Valid? ==>
      var out := Load(t, isNumber).table;
      out.headers == t.headers && |out.rows| == |t.rows| - 1 && WellFormed(out) &&
      forall i, k :: 0 <= i < |out.rows| && k in t.headers ==>
        out.rows[i][k] == if k in CoercedColumns then Normalize(t.rows[i + 1][k]) else t.rows[i + 1][k]
  {
    var rows := DropFirstRow(t.rows);
    assert RowsHave(rows, t.headers);
    PassIff(t.headers, rows, isNumber);
    if Load(t, isNumber).Valid? {
      AcceptsConforming(t.headers, rows, isNumber);
    }
  }

  /** The first data row is never looked at: whatever it holds, the outcome is the same. */
  lemma FirstRowIgnored(t: Table, row: Row, isNumber: string -> bool)
    requires Parsed(t) && row.Keys == t.headers
    ensures Parsed(Table(t.headers, t.rows[0 := row]))
    ensures Load(Table(t.headers, t.rows[0 := row]), isNumber) == Load(t, isNumber)
  {
    assert DropFirstRow(t.rows[0 := row]) == DropFirstRow(t.rows);
  }
}
