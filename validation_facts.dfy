/**
  What `validateTable` promises, stated on the original rows: the header
  check comes first, columns are checked in the order Horsepower, Weight,
  Origin and the first failing one is reported, missing cells never fail,
  and an accepted table holds only coerced cells.
*/
module ValidationFacts {
  import opened Text
  import opened Schema
  import opened Coercion
  import opened Validation

  /** Every cell of numeric column `key` is missing or a number once trimmed. */
  predicate NumericColumnOk(rows: seq<Row>, key: string, isNumber: string -> bool)
    requires HasColumn(rows, key)
  {
    forall i :: 0 <= i < |rows| ==> Coerces(rows[i][key], Float, isNumber)
  }

  /** A present `Origin` cell is whitelisted once trimmed. */
  predicate OriginCellOk(c: Cell) {
    c.Missing? || Trim(c.text) in AllowedOrigins
  }

  predicate OriginColumnOk(rows: seq<Row>)
    requires HasColumn(rows, Origin)
  {
    forall i :: 0 <= i < |rows| ==> OriginCellOk(rows[i][Origin])
  }

  /** The table satisfies the schema of app.py:16-22 (missing cells allowed everywhere). */
  predicate Conforms(rows: seq<Row>, isNumber: string -> bool)
    requires HasColumn(rows, Horsepower) && HasColumn(rows, Weight) && HasColumn(rows, Origin)
  {
    NumericColumnOk(rows, Horsepower, isNumber) && NumericColumnOk(rows, Weight, isNumber) && OriginColumnOk(rows)
  }

  /** The three columns the loop coerces. */
  const CoercedColumns: set<string> := {Horsepower, Weight, Origin}

  lemma HeadersGiveColumns(rows: seq<Row>, headers: set<string>)
    requires RowsHave(rows, headers) && HasHeaders(headers)
    ensures HasColumn(rows, Horsepower) && HasColumn(rows, Weight) && HasColumn(rows, Origin)
  {
    assert Horsepower in ExpectedHeaders && Weight in ExpectedHeaders && Origin in ExpectedHeaders;
  }

  lemma NormalizeNothing(rows: seq<Row>)
    ensures NormalizeColumns(rows, {}) == rows
  {
    var r := NormalizeColumns(rows, {});
    forall i | 0 <= i < |rows| ensures r[i] == rows[i] {
      assert r[i].Keys == rows[i].Keys;
    }
  }

  /** Coercing a column writes exactly the trimmed cells into it. */
  lemma SetNormalized(rows: seq<Row>, done: set<string>, key: string, coerced: seq<Cell>)
    requires HasColumn(rows, key) && key !in done
    requires |coerced| == |rows|
    requires forall i :: 0 <= i < |rows| ==> coerced[i] == Normalize(rows[i][key])
    ensures Column(NormalizeColumns(rows, done), key) == Column(rows, key)
    ensures SetColumn(NormalizeColumns(rows, done), key, coerced) == NormalizeColumns(rows, done + {key})
  {
    var base := NormalizeColumns(rows, done);
    var lhs := SetColumn(base, key, coerced);
    var rhs := NormalizeColumns(rows, done + {key});
    forall i | 0 <= i < |rows| ensures lhs[i] == rhs[i] {
      assert lhs[i].Keys == rhs[i].Keys;
    }
  }

  /** One numeric column, checked after the columns in `done` were coerced. */
  lemma CheckNumericColumn(rows: seq<Row>, done: set<string>, key: string, isNumber: string -> bool)
    requires HasColumn(rows, key) && key !in done && key != Origin
    ensures var base := NormalizeColumns(rows, done);
      CheckColumn(key, Float, base, isNumber) ==
        if NumericColumnOk(rows, key, isNumber) then Checked(Pass, NormalizeColumns(rows, done + {key}))
        else Checked(Fail(BadCells(key, Offenders(Column(rows, key), isNumber))), base)
  {
    var base := NormalizeColumns(rows, done);
    var col := Column(rows, key);
    var coerced := seq(|rows|, i requires 0 <= i < |rows| => Normalize(rows[i][key]));
    SetNormalized(rows, done, key, coerced);
    var r := CoerceColumn(col, Float, isNumber);
    if NumericColumnOk(rows, key, isNumber) {
      assert r.Some?;
      assert r.value == coerced;
    } else {
      assert r.None?;
    }
  }

  /** The `Origin` column, checked after the columns in `done` were coerced. */
  lemma CheckOriginColumn(rows: seq<Row>, done: set<string>, isNumber: string -> bool)
    requires HasColumn(rows, Origin) && Origin !in done
    ensures var after := NormalizeColumns(rows, done + {Origin});
      var c := CheckColumn(Origin, Str, NormalizeColumns(rows, done), isNumber);
      c.rows == after && (c.verdict == Pass <==> OriginColumnOk(rows)) &&
      (c.verdict != Pass ==> c.verdict == Fail(BadCategories(Origin, Unallowed(Column(after, Origin)))))
  {
    var after := NormalizeColumns(rows, done + {Origin});
    var coerced := seq(|rows|, i requires 0 <= i < |rows| => Normalize(rows[i][Origin]));
    SetNormalized(rows, done, Origin, coerced);
    var r := CoerceColumn(Column(rows, Origin), Str, isNumber);
    assert r.Some? && r.value == coerced;
    assert Column(after, Origin) == coerced;
    UnallowedEmptyIff(rows, coerced);
  }

  /** The whitelist check finds nothing exactly when every present `Origin` value is allowed. */
  lemma UnallowedEmptyIff(rows: seq<Row>, coerced: seq<Cell>)
    requires HasColumn(rows, Origin) && |coerced| == |rows|
    requires forall i :: 0 <= i < |rows| ==> coerced[i] == Normalize(rows[i][Origin])
    ensures Unallowed(coerced) == [] <==> OriginColumnOk(rows)
  {
    var bad := Unallowed(coerced);
    assert bad != [] ==> bad[0] in bad;
    if !OriginColumnOk(rows) {
      var i :| 0 <= i < |rows| && !OriginCellOk(rows[i][Origin]);
      assert coerced[i] == Present(Trim(rows[i][Origin].text));
      assert Trim(rows[i][Origin].text) in bad;
    }
  }

  /** The column loop over the three entries of the type dictionary, unrolled. */
  lemma ValidateSteps(headers: set<string>, rows: seq<Row>, isNumber: string -> bool)
    requires RowsHave(rows, headers) && HasHeaders(headers)
    ensures HasColumn(rows, Horsepower) && HasColumn(rows, Weight) && HasColumn(rows, Origin)
    ensures var c1 := CheckColumn(Horsepower, Float, rows, isNumber);
      var c2 := CheckColumn(Weight, Float, c1.rows, isNumber);
      var c3 := CheckColumn(Origin, Str, c2.rows, isNumber);
      Validate(headers, rows, isNumber) ==
        if c1.verdict.Fail? then c1 else if c2.verdict.Fail? then c2 else c3
  {
    HeadersGiveColumns(rows, headers);
    var c1 := CheckColumn(Horsepower, Float, rows, isNumber);
    assert ExpectedTypes[1..] == [(Weight, Float), (Origin, Str)];
    assert Validate(headers, rows, isNumber) ==
      if c1.verdict.Fail? then c1 else CheckColumns(ExpectedTypes[1..], c1.rows, isNumber);
    if c1.verdict.Pass? {
      WeightThenOrigin(c1.rows, isNumber);
    }
  }

  /** The last two steps of the column loop. */
  lemma WeightThenOrigin(rows: seq<Row>, isNumber: string -> bool)
    requires HasColumn(rows, Weight) && HasColumn(rows, Origin)
    ensures var c2 := CheckColumn(Weight, Float, rows, isNumber);
      HasColumn(c2.rows, Origin) &&
      CheckColumns([(Weight, Float), (Origin, Str)], rows, isNumber) ==
        if c2.verdict.Fail? then c2 else CheckColumn(Origin, Str, c2.rows, isNumber)
  {
    var t := [(Weight, Float), (Origin, Str)];
    assert t[1..] == [(Origin, Str)];
    var c2 := CheckColumn(Weight, Float, rows, isNumber);
    if c2.verdict.Pass? {
      OriginStep(c2.rows, isNumber);
    }
  }

  /** The last step of the column loop. */
  lemma OriginStep(rows: seq<Row>, isNumber: string -> bool)
    requires HasColumn(rows, Origin)
    ensures CheckColumns([(Origin, Str)], rows, isNumber) == CheckColumn(Origin, Str, rows, isNumber)
  {
    assert [(Origin, Str)][1..] == [];
  }

  /** `Validate` once the header check has passed, written out column by column. */
  lemma {:induction false} ValidateUnfolded(headers: set<string>, rows: seq<Row>, isNumber: string -> bool)
    requires RowsHave(rows, headers) && HasHeaders(headers)
    ensures HasColumn(rows, Horsepower) && HasColumn(rows, Weight) && HasColumn(rows, Origin)
    ensures var c := Validate(headers, rows, isNumber);
      var after := NormalizeColumns(rows, CoercedColumns);
      if !NumericColumnOk(rows, Horsepower, isNumber) then
        c == Checked(Fail(BadCells(Horsepower, Offenders(Column(rows, Horsepower), isNumber))), rows)
      else if !NumericColumnOk(rows, Weight, isNumber) then
        c == Checked(Fail(BadCells(Weight, Offenders(Column(rows, Weight), isNumber))), NormalizeColumns(rows, {Horsepower}))
      else if !OriginColumnOk(rows) then
        c == Checked(Fail(BadCategories(Origin, Unallowed(Column(after, Origin)))), after)
      else
        c == Checked(Pass, after)
  {
    ValidateSteps(headers, rows, isNumber);
    NormalizeNothing(rows);
    CheckNumericColumn(rows, {}, Horsepower, isNumber);
    if NumericColumnOk(rows, Horsepower, isNumber) {
      assert {} + {Horsepower} == {Horsepower};
      CheckNumericColumn(rows, {Horsepower}, Weight, isNumber);
      if NumericColumnOk(rows, Weight, isNumber) {
        assert {Horsepower} + {Weight} == {Horsepower, Weight};
        assert {Horsepower, Weight} + {Origin} == CoercedColumns;
        CheckOriginColumn(rows, {Horsepower, Weight}, isNumber);
      }
    }
  }

  /** The cells reported for a numeric column, in terms of the rows. */
  lemma OffendersOfColumn(rows: seq<Row>, key: string, isNumber: string -> bool, i: nat)
    requires HasColumn(rows, key) && i < |rows| && !Coerces(rows[i][key], Float, isNumber)
    ensures var cells := Offenders(Column(rows, key), isNumber);
      (i, rows[i][key]) in cells &&
      forall p :: p in cells <==> p.0 < |rows| && p.1 == rows[p.0][key] && !ParsesAsNumber(p.1, isNumber)
  {
  }

  /** A table lacking a required header is refused before any column is touched (app.py:40-41). */
  lemma RejectsMissingHeader(headers: set<string>, rows: seq<Row>, isNumber: string -> bool)
    requires RowsHave(rows, headers) && !HasHeaders(headers)
    ensures Validate(headers, rows, isNumber) == Checked(Fail(MissingHeader), rows)
  {
  }

  /**
    A `Horsepower` cell that is present and not a number fails on the first
    column: the report lists every non-number cell of the original column,
    missing ones included, and no column has been coerced.
  */
  lemma ReportsHorsepowerFirst(headers: set<string>, rows: seq<Row>, isNumber: string -> bool, i: nat)
    requires RowsHave(rows, headers) && HasHeaders(headers)
    requires i < |rows| && Horsepower in rows[i] && !Coerces(rows[i][Horsepower], Float, isNumber)
    ensures var c := Validate(headers, rows, isNumber);
      c.rows == rows && c.verdict.Fail? && c.verdict.reason.BadCells? &&
      c.verdict.reason.column == Horsepower &&
      (i, rows[i][Horsepower]) in c.verdict.reason.cells &&
      forall p :: p in c.verdict.reason.cells <==>
        p.0 < |rows| && p.1 == rows[p.0][Horsepower] && !ParsesAsNumber(p.1, isNumber)
  {
    ValidateUnfolded(headers, rows, isNumber);
    OffendersOfColumn(rows, Horsepower, isNumber, i);
  }

  /**
    With `Horsepower` acceptable, a present non-number `Weight` cell fails on
    the second column; by then only `Horsepower` has been coerced.
  */
  lemma ReportsWeightSecond(headers: set<string>, rows: seq<Row>, isNumber: string -> bool, i: nat)
    requires RowsHave(rows, headers) && HasHeaders(headers)
    requires HasColumn(rows, Horsepower) && NumericColumnOk(rows, Horsepower, isNumber)
    requires i < |rows| && Weight in rows[i] && !Coerces(rows[i][Weight], Float, isNumber)
    ensures var c := Validate(headers, rows, isNumber);
      c.rows == NormalizeColumns(rows, {Horsepower}) && c.verdict.Fail? && c.verdict.reason.BadCells? &&
      c.verdict.reason.column == Weight &&
      (i, rows[i][Weight]) in c.verdict.reason.cells &&
      forall p :: p in c.verdict.reason.cells <==>
        p.0 < |rows| && p.1 == rows[p.0][Weight] && !ParsesAsNumber(p.1, isNumber)
  {
    ValidateUnfolded(headers, rows, isNumber);
    OffendersOfColumn(rows, Weight, isNumber, i);
  }

  /**
    With both numeric columns acceptable, a present `Origin` value outside
    the whitelist fails on the third column with the distinct offending
    (trimmed) values; missing `Origin` cells are never reported.
  */
  lemma ReportsOriginLast(headers: set<string>, rows: seq<Row>, isNumber: string -> bool, i: nat)
    requires RowsHave(rows, headers) && HasHeaders(headers)
    requires HasColumn(rows, Horsepower) && NumericColumnOk(rows, Horsepower, isNumber)
    requires HasColumn(rows, Weight) && NumericColumnOk(rows, Weight, isNumber)
    requires i < |rows| && Origin in rows[i] && !OriginCellOk(rows[i][Origin])
    ensures var c := Validate(headers, rows, isNumber);
      c.rows == NormalizeColumns(rows, CoercedColumns) && c.verdict.Fail? && c.verdict.reason.BadCategories? &&
      c.verdict.reason.column == Origin &&
      Trim(rows[i][Origin].text) in c.verdict.reason.values &&
      Distinct(c.verdict.reason.values) &&
      forall v :: v in c.verdict.reason.values <==>
        exists j :: 0 <= j < |rows| && rows[j][Origin].Present? && Trim(rows[j][Origin].text) == v && v !in AllowedOrigins
  {
    ValidateUnfolded(headers, rows, isNumber);
    var after := NormalizeColumns(rows, CoercedColumns);
    var col := Column(after, Origin);
    assert forall j :: 0 <= j < |rows| ==> col[j] == Normalize(rows[j][Origin]);
    assert col[i] == Present(Trim(rows[i][Origin].text));
    forall v ensures v in Unallowed(col) <==>
      exists j :: 0 <= j < |rows| && rows[j][Origin].Present? && Trim(rows[j][Origin].text) == v && v !in AllowedOrigins
    {
      if v in Unallowed(col) {
        var j :| 0 <= j < |col| && col[j] == Present(v) && v !in AllowedOrigins;
        assert rows[j][Origin].Present? && Trim(rows[j][Origin].text) == v;
      }
      if exists j :: 0 <= j < |rows| && rows[j][Origin].Present? && Trim(rows[j][Origin].text) == v && v !in AllowedOrigins {
        var j :| 0 <= j < |rows| && rows[j][Origin].Present? && Trim(rows[j][Origin].text) == v && v !in AllowedOrigins;
        assert col[j] == Present(v);
      }
    }
  }

  /** The outcome when only the whitelist check fails: every expected column is coerced by then. */
  lemma OriginFailureOutcome(headers: set<string>, rows: seq<Row>, isNumber: string -> bool)
    requires RowsHave(rows, headers) && HasHeaders(headers)
    requires HasColumn(rows, Horsepower) && NumericColumnOk(rows, Horsepower, isNumber)
    requires HasColumn(rows, Weight) && NumericColumnOk(rows, Weight, isNumber)
    requires HasColumn(rows, Origin) && !OriginColumnOk(rows)
    ensures var after := NormalizeColumns(rows, CoercedColumns);
      Validate(headers, rows, isNumber) == Checked(Fail(BadCategories(Origin, Unallowed(Column(after, Origin)))), after)
  {
    ValidateUnfolded(headers, rows, isNumber);
  }

  /** A conforming table is accepted, all three columns coerced. */
  lemma AcceptsConforming(headers: set<string>, rows: seq<Row>, isNumber: string -> bool)
    requires RowsHave(rows, headers) && HasHeaders(headers)
    requires HasColumn(rows, Horsepower) && HasColumn(rows, Weight) && HasColumn(rows, Origin)
    requires Conforms(rows, isNumber)
    ensures Validate(headers, rows, isNumber) == Checked(Pass, NormalizeColumns(rows, CoercedColumns))
  {
    ValidateUnfolded(headers, rows, isNumber);
  }

  /** Validation passes exactly when the headers are present and the cells conform. */
  lemma PassIff(headers: set<string>, rows: seq<Row>, isNumber: string -> bool)
    requires RowsHave(rows, headers)
    ensures Validate(headers, rows, isNumber).verdict == Pass <==>
      HasHeaders(headers) && HasColumn(rows, Horsepower) && HasColumn(rows, Weight) && HasColumn(rows, Origin) &&
      Conforms(rows, isNumber)
  {
    if HasHeaders(headers) {
      ValidateUnfolded(headers, rows, isNumber);
    }
  }

  /**
    What an accepted table looks like (the invariant a successful
    validation establishes): numeric cells are missing or trimmed numbers,
    `Origin` cells are missing or whitelisted, other columns are untouched.
  */
  lemma AcceptedRowsCoerced(headers: set<string>, rows: seq<Row>, isNumber: string -> bool)
    requires RowsHave(rows, headers)
    requires Validate(headers, rows, isNumber).verdict == Pass
    ensures var out := Validate(headers, rows, isNumber).rows;
      HasHeaders(headers) && RowsHave(out, headers) &&
      forall i, k :: 0 <= i < |out| && k in out[i] ==>
        var c := out[i][k];
        (k in [Horsepower, Weight] ==> c.Missing? || (Trim(c.text) == c.text && isNumber(c.text))) &&
        (k == Origin ==> c.Missing? || c.text in AllowedOrigins) &&
        (k !in CoercedColumns ==> c == rows[i][k])
  {
    assert HasHeaders(headers);
    ValidateUnfolded(headers, rows, isNumber);
    NormalizedConforming(rows, isNumber);
  }

  lemma NormalizedConforming(rows: seq<Row>, isNumber: string -> bool)
    requires HasColumn(rows, Horsepower) && HasColumn(rows, Weight) && HasColumn(rows, Origin)
    requires Conforms(rows, isNumber)
    ensures var out := NormalizeColumns(rows, CoercedColumns);
      forall i, k :: 0 <= i < |out| && k in out[i] ==>
        var c := out[i][k];
        (k in [Horsepower, Weight] ==> c.Missing? || (Trim(c.text) == c.text && isNumber(c.text))) &&
        (k == Origin ==> c.Missing? || c.text in AllowedOrigins) &&
        (k !in CoercedColumns ==> c == rows[i][k])
  {
    var out: seq<Row> := NormalizeColumns(rows, CoercedColumns);
    forall i: nat, k: string | 0 <= i < |out| && k in out[i] && k in CoercedColumns && rows[i][k].Present?
      ensures Trim(out[i][k].text) == out[i][k].text
    {
      TrimIdempotent(rows[i][k].text);
    }
  }

  /** Blanking a cell never makes an accepted table fail: missing values are not errors. */
  lemma MissingCellHarmless(headers: set<string>, rows: seq<Row>, isNumber: string -> bool, i: nat, key: string)
    requires RowsHave(rows, headers) && i < |rows| && key in headers
    requires Validate(headers, rows, isNumber).verdict == Pass
    ensures RowsHave(rows[i := rows[i][key := Missing]], headers)
    ensures Validate(headers, rows[i := rows[i][key := Missing]], isNumber).verdict == Pass
  {
    var rows' := rows[i := rows[i][key := Missing]];
    assert rows'[i].Keys == headers;
    assert RowsHave(rows', headers);
    PassIff(headers, rows, isNumber);
    HeadersGiveColumns(rows', headers);
    forall j | 0 <= j < |rows'|
      ensures Coerces(rows'[j][Horsepower], Float, isNumber) && Coerces(rows'[j][Weight], Float, isNumber)
      ensures OriginCellOk(rows'[j][Origin])
    {
      if j != i {
        assert rows'[j] == rows[j];
      }
    }
    assert Conforms(rows', isNumber);
    PassIff(headers, rows', isNumber);
  }
}
