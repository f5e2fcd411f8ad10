/**
  `validateTable` (app.py:36-59): the reference definition `Validate` on
  row sequences, and the method `ValidateTable` that coerces the columns of
  a row array in place, column by column, stopping at the first failure.
*/
module Validation {
  import opened Schema
  import opened Coercion

  /** The untyped `True` / `(False, msg)` result, as a tagged value. */
  datatype Verdict = Pass | Fail(reason: Reason)

  /** A verdict with the rows as the validator leaves them (it coerces in place). */
  datatype Checked = Checked(verdict: Verdict, rows: seq<Row>)

  /**
    One pass of the loop body of app.py:44-55 for column `key`: coerce the
    column (on failure report the offending original cells and leave the
    rows alone), write it back, and for `Origin` check the whitelist.
  */
  function CheckColumn(key: string, ty: ColumnType, rows: seq<Row>, isNumber: string -> bool): (c: Checked)
    requires HasColumn(rows, key)
    ensures |c.rows| == |rows|
    ensures forall i :: 0 <= i < |rows| ==> c.rows[i].Keys == rows[i].Keys
  {
    var col := Column(rows, key);
    match CoerceColumn(col, ty, isNumber)
    case None => Checked(Fail(BadCells(key, Offenders(col, isNumber))), rows)
    case Some(coerced) =>
      var rows' := SetColumn(rows, key, coerced);
      var bad := if key == Origin then Unallowed(coerced) else [];
      if bad != [] then Checked(Fail(BadCategories(key, bad)), rows')
      else Checked(Pass, rows')
  }

  /** The loop of app.py:43-57 over the remaining entries `cols` of the type dictionary. */
  function CheckColumns(cols: seq<(string, ColumnType)>, rows: seq<Row>, isNumber: string -> bool): (c: Checked)
    requires forall k :: 0 <= k < |cols| ==> HasColumn(rows, cols[k].0)
    ensures |c.rows| == |rows|
    ensures forall i :: 0 <= i < |rows| ==> c.rows[i].Keys == rows[i].Keys
    decreases |cols|
  {
    if cols == [] then Checked(Pass, rows)
    else
      var c := CheckColumn(cols[0].0, cols[0].1, rows, isNumber);
      if c.verdict.Fail? then c
      else
        assert forall k :: 0 <= k < |cols| - 1 ==> HasColumn(c.rows, cols[1..][k].0) by {
          forall k | 0 <= k < |cols| - 1 ensures HasColumn(c.rows, cols[1..][k].0) {
            assert HasColumn(rows, cols[k + 1].0);
          }
        }
        CheckColumns(cols[1..], c.rows, isNumber)
  }

  /** `validateTable` on a table that is a frame: the header check, then the column loop. */
  function Validate(headers: set<string>, rows: seq<Row>, isNumber: string -> bool): (c: Checked)
    requires RowsHave(rows, headers)
    ensures |c.rows| == |rows| && RowsHave(c.rows, headers)
  {
    if !HasHeaders(headers) then Checked(Fail(MissingHeader), rows)
    else
      assert forall k :: 0 <= k < |ExpectedTypes| ==> HasColumn(rows, ExpectedTypes[k].0) by {
        forall k | 0 <= k < |ExpectedTypes| ensures HasColumn(rows, ExpectedTypes[k].0) {
          assert ExpectedTypes[k].0 in ExpectedHeaders;
        }
      }
      CheckColumns(ExpectedTypes, rows, isNumber)
  }

  /** The rows with the cells of the columns in `keys` trimmed and all other cells as they were. */
  function NormalizeColumns(rows: seq<Row>, keys: set<string>): (r: seq<Row>)
    ensures |r| == |rows|
    ensures forall i :: 0 <= i < |rows| ==> r[i].Keys == rows[i].Keys
    ensures forall i, k :: 0 <= i < |rows| && k in rows[i] ==>
      r[i][k] == if k in keys then Normalize(rows[i][k]) else rows[i][k]
  {
    seq(|rows|, i requires 0 <= i < |rows| =>
      map k | k in rows[i] :: if k in keys then Normalize(rows[i][k]) else rows[i][k])
  }

  /**
    In place: `rows[i][key] := col[i]` for every row, as the column
    assignment `table[key] = ...` of app.py:47 does.
  */
  method WriteColumn(rows: array<Row>, key: string, col: seq<Cell>)
    requires |col| == rows.Length
    modifies rows
    ensures rows[..] == SetColumn(old(rows[..]), key, col)
  {
    var i := 0;
    while i < rows.Length
      invariant 0 <= i <= rows.Length
      invariant forall j :: 0 <= j < i ==> rows[j] == old(rows[j])[key := col[j]]
      invariant forall j :: i <= j < rows.Length ==> rows[j] == old(rows[j])
    {
      rows[i] := rows[i][key := col[i]];
      i := i + 1;
    }
  }

  /**
    `validateTable(table)` (app.py:36-59). `rows == null` stands for an
    argument that is not a data frame. On success the expected columns of
    `rows` hold their coerced cells; on a failure the columns checked before
    the failing one are already coerced, as in the source.
  */
  method ValidateTable(headers: set<string>, rows: array?<Row>, isNumber: string -> bool) returns (v: Verdict)
    requires rows != null ==> RowsHave(rows[..], headers)
    modifies rows
    ensures rows == null ==> v == Fail(NotATable)
    ensures rows != null ==> Checked(v, rows[..]) == Validate(headers, old(rows[..]), isNumber)
  {
    if rows == null {
      return Fail(NotATable);
    }
    if !HasHeaders(headers) {
      return Fail(MissingHeader);
    }
    var k := 0;
    while k < |ExpectedTypes|
      invariant 0 <= k <= |ExpectedTypes|
      invariant RowsHave(rows[..], headers)
      invariant forall j :: k <= j < |ExpectedTypes| ==> HasColumn(rows[..], ExpectedTypes[j].0)
      invariant CheckColumns(ExpectedTypes[k..], rows[..], isNumber) == Validate(headers, old(rows[..]), isNumber)
    {
      var key := ExpectedTypes[k].0;
      var ty := ExpectedTypes[k].1;
      // The source's branch for a dictionary key absent from the columns
      // (app.py:56-57) cannot be taken: the header check guarantees the key.
      assert key in headers;
      var col := Column(rows[..], key);
      var coerced := CoerceColumn(col, ty, isNumber);
      if coerced.None? {
        return Fail(BadCells(key, Offenders(col, isNumber)));
      }
      WriteColumn(rows, key, coerced.value);
      if key == Origin {
        var bad := Unallowed(coerced.value);
        if bad != [] {
          return Fail(BadCategories(key, bad));
        }
      }
      assert ExpectedTypes[k..][1..] == ExpectedTypes[k + 1..];
      k := k + 1;
    }
    return Pass;
  }
}
