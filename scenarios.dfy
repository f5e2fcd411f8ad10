/** The worked examples of the upload format, on concrete tables. */
module Scenarios {
  import opened Text
  import opened Schema
  import opened Coercion
  import opened Validation
  import opened ValidationFacts
  import opened Pipeline

  const Headers: set<string> := {Horsepower, Weight, Origin}

  /**
    The type row that the worked examples below place after the header
    (`DOUBLE;DOUBLE;CAT`). Its text cells make pandas read every column as
    text, which is what lets `.str.strip()` at app.py:47 run at all; it is
    then dropped as the first data row.
  */
  const TypeRow: Row := CarRow(Present("DOUBLE"), Present("DOUBLE"), Present("CAT"))

  function CarRow(hp: Cell, weight: Cell, origin: Cell): (r: Row)
    ensures r.Keys == Headers
    ensures r[Horsepower] == hp && r[Weight] == weight && r[Origin] == origin
  {
    map[Horsepower := hp, Weight := weight, Origin := origin]
  }

  lemma NoSpaces(s: string)
    requires forall i :: 0 <= i < |s| ==> !IsSpace(s[i])
    ensures Trim(s) == s
  {
    assert LeadingSpaces(s) == 0;
    assert TrailingSpaces(s) == 0;
  }

  lemma HeadersPresent()
    ensures HasHeaders(Headers)
  {
    assert forall name :: name in ExpectedHeaders ==> name in Headers;
  }

  /** A cell that the coercion leaves as it is. */
  predicate Trimmed(c: Cell) {
    c.Missing? || Trim(c.text) == c.text
  }

  lemma TrimmedFixed(c: Cell)
    requires Trimmed(c)
    ensures Normalize(c) == c
  {
  }

  lemma CellsFixed(row: Row)
    requires row.Keys == Headers
    requires Trimmed(row[Horsepower]) && Trimmed(row[Weight]) && Trimmed(row[Origin])
    ensures forall k :: k in row ==> Normalize(row[k]) == row[k]
  {
    forall k | k in row ensures Normalize(row[k]) == row[k] {
      assert k == Horsepower || k == Weight || k == Origin;
      TrimmedFixed(row[k]);
    }
  }

  lemma RowFixed(row: Row)
    requires forall k :: k in row ==> Normalize(row[k]) == row[k]
    ensures NormalizeColumns([row], CoercedColumns) == [row]
  {
    var out := NormalizeColumns([row], CoercedColumns);
    assert out[0].Keys == row.Keys;
    assert out[0] == row;
  }

  /** A file of two data rows whose second row is already trimmed: only the second row is kept and checked. */
  lemma TwoRowFile(first: Row, row: Row, isNumber: string -> bool)
    requires first.Keys == Headers && row.Keys == Headers
    requires Trimmed(row[Horsepower]) && Trimmed(row[Weight]) && Trimmed(row[Origin])
    ensures Parsed(Table(Headers, [first, row]))
    ensures NormalizeColumns([row], CoercedColumns) == [row]
    ensures HasHeaders(Headers) && HasColumn([row], Horsepower) && HasColumn([row], Weight) && HasColumn([row], Origin)
    ensures Load(Table(Headers, [first, row]), isNumber) == Dispatch(Headers, Validate(Headers, [row], isNumber))
  {
    HeadersPresent();
    HeadersGiveColumns([row], Headers);
    CellsFixed(row);
    RowFixed(row);
    assert DropFirstRow([first, row]) == [row];
  }

  /** A two-row file whose second row is trimmed and conforms is accepted as that one row. */
  lemma AcceptedSecondRow(first: Row, row: Row, isNumber: string -> bool)
    requires first.Keys == Headers && row.Keys == Headers
    requires Trimmed(row[Horsepower]) && Trimmed(row[Weight]) && Trimmed(row[Origin])
    requires Coerces(row[Horsepower], Float, isNumber) && Coerces(row[Weight], Float, isNumber)
    requires OriginCellOk(row[Origin])
    ensures Parsed(Table(Headers, [first, row]))
    ensures Load(Table(Headers, [first, row]), isNumber) == Valid(Table(Headers, [row]))
  {
    TwoRowFile(first, row, isNumber);
    assert Conforms([row], isNumber);
    AcceptsConforming(Headers, [row], isNumber);
  }

  /** A two-row file whose second row has the one bad `Origin` value `v` reports exactly `[v]`. */
  lemma RejectedSecondRow(first: Row, row: Row, v: string, isNumber: string -> bool)
    requires first.Keys == Headers && row.Keys == Headers
    requires Trimmed(row[Horsepower]) && Trimmed(row[Weight]) && row[Origin] == Present(v) && Trim(v) == v
    requires Coerces(row[Horsepower], Float, isNumber) && Coerces(row[Weight], Float, isNumber)
    requires v !in AllowedOrigins
    ensures Parsed(Table(Headers, [first, row]))
    ensures Load(Table(Headers, [first, row]), isNumber) == Invalid(BadCategories(Origin, [v]))
  {
    TwoRowFile(first, row, isNumber);
    SingleRowOriginFailure(row, v, isNumber);
  }

  lemma SingleRowOriginFailure(row: Row, v: string, isNumber: string -> bool)
    requires row.Keys == Headers
    requires Trimmed(row[Horsepower]) && Trimmed(row[Weight]) && row[Origin] == Present(v) && Trim(v) == v
    requires Coerces(row[Horsepower], Float, isNumber) && Coerces(row[Weight], Float, isNumber)
    requires v !in AllowedOrigins
    requires NormalizeColumns([row], CoercedColumns) == [row]
    ensures RowsHave([row], Headers)
    ensures Validate(Headers, [row], isNumber) == Checked(Fail(BadCategories(Origin, [v])), [row])
  {
    SingleRowPremises(row, v, isNumber);
    OriginFailureOutcome(Headers, [row], isNumber);
    SingleRowUnallowed(row, v);
  }

  lemma SingleRowPremises(row: Row, v: string, isNumber: string -> bool)
    requires row.Keys == Headers
    requires row[Origin] == Present(v) && Trim(v) !in AllowedOrigins
    requires Coerces(row[Horsepower], Float, isNumber) && Coerces(row[Weight], Float, isNumber)
    ensures RowsHave([row], Headers) && HasHeaders(Headers)
    ensures HasColumn([row], Horsepower) && NumericColumnOk([row], Horsepower, isNumber)
    ensures HasColumn([row], Weight) && NumericColumnOk([row], Weight, isNumber)
    ensures HasColumn([row], Origin) && !OriginColumnOk([row])
  {
    HeadersPresent();
    HeadersGiveColumns([row], Headers);
    OriginCellRejected(row, v);
  }

  lemma OriginCellRejected(row: Row, v: string)
    requires Origin in row && row[Origin] == Present(v) && Trim(v) !in AllowedOrigins
    ensures HasColumn([row], Origin) && !OriginColumnOk([row])
  {
    assert !OriginCellOk([row][0][Origin]);
  }

  lemma SingleRowUnallowed(row: Row, v: string)
    requires Origin in row && row[Origin] == Present(v) && v !in AllowedOrigins
    ensures Unallowed(Column([row], Origin)) == [v]
  {
    assert Column([row], Origin) == [Present(v)];
    UnallowedSingle(v);
  }

  lemma UnallowedSingle(v: string)
    requires v !in AllowedOrigins
    ensures Unallowed([Present(v)]) == [v]
  {
    assert [Present(v)][..0] == [];
  }

  /**
    Header `Horsepower;Weight;Origin`, data rows `DOUBLE;DOUBLE;CAT` and
    `7.5;2000;Europe`: the first data row is dropped and the remaining one
    is accepted unchanged.
  */
  lemma SecondRowSurvives(isNumber: string -> bool)
    requires isNumber("7.5") && isNumber("2000")
    ensures Load(Table(Headers, [TypeRow,
                                 CarRow(Present("7.5"), Present("2000"), Present("Europe"))]), isNumber)
      == Valid(Table(Headers, [CarRow(Present("7.5"), Present("2000"), Present("Europe"))]))
  {
    NoSpaces("7.5");
    NoSpaces("2000");
    NoSpaces("Europe");
    AcceptedSecondRow(TypeRow,
                      CarRow(Present("7.5"), Present("2000"), Present("Europe")), isNumber);
  }

  /** An `Origin` of `Mars` is reported, and only it. */
  lemma MarsRejected(isNumber: string -> bool)
    requires isNumber("7.5") && isNumber("2000")
    ensures Load(Table(Headers, [TypeRow,
                                 CarRow(Present("7.5"), Present("2000"), Present("Mars"))]), isNumber)
      == Invalid(BadCategories(Origin, ["Mars"]))
  {
    NoSpaces("7.5");
    NoSpaces("2000");
    NoSpaces("Mars");
    RejectedSecondRow(TypeRow,
                      CarRow(Present("7.5"), Present("2000"), Present("Mars")), "Mars", isNumber);
  }

  /** An empty `Horsepower` cell is a missing value, not an error. */
  lemma EmptyHorsepowerAccepted(isNumber: string -> bool)
    requires isNumber("2000")
    ensures Load(Table(Headers, [TypeRow,
                                 CarRow(Missing, Present("2000"), Present("Japan"))]), isNumber)
      == Valid(Table(Headers, [CarRow(Missing, Present("2000"), Present("Japan"))]))
  {
    NoSpaces("2000");
    NoSpaces("Japan");
    AcceptedSecondRow(TypeRow,
                      CarRow(Missing, Present("2000"), Present("Japan")), isNumber);
  }
}
