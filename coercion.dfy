/**
  Cell- and column-level coercion of `validateTable` (app.py:43-55):
  trimming and `astype`, the list of offending cells reported when
  `astype(float)` fails, and the distinct values outside the `Origin`
  whitelist.

  Whether a trimmed text parses as a float is not modelled: it is the
  parameter `isNumber`. One test, `isNumber(Trim(text))`, stands for two
  parsers: `astype(float)` on the trimmed text (app.py:47) and
  `pd.to_numeric` on the untrimmed text (app.py:49). This is an
  approximation: the two disagree on some inputs, such as `"1_000"` (a
  float for Python, NaN for pandas) or a number followed by a no-break
  space (removed by `strip()`, not skipped by `pd.to_numeric`).
*/
module Coercion {
  import opened Wrappers
  import opened Text
  import opened Schema

  /** `.str.strip()` on one cell: text is trimmed, a missing cell stays missing. */
  function Normalize(c: Cell): (r: Cell)
    ensures r.Missing? <==> c.Missing?
    ensures c.Present? ==> r.text == Trim(c.text)
  {
    match c
    case Missing => Missing
    case Present(s) => Present(Trim(s))
  }

  /** The cell survives `astype(ty)`: strings always do, a missing cell becomes NaN. */
  predicate Coerces(c: Cell, ty: ColumnType, isNumber: string -> bool) {
    ty == Str || c.Missing? || isNumber(Trim(c.text))
  }

  /** `pd.to_numeric(..., errors='coerce')` yields a number (not NaN) for the cell. */
  predicate ParsesAsNumber(c: Cell, isNumber: string -> bool) {
    c.Present? && isNumber(Trim(c.text))
  }

  /** `table[key].str.strip().astype(ty)`: all cells coerced, or failure if any one cannot be. */
  function CoerceColumn(col: seq<Cell>, ty: ColumnType, isNumber: string -> bool): (r: Option<seq<Cell>>)
    ensures r.Some? <==> forall i :: 0 <= i < |col| ==> Coerces(col[i], ty, isNumber)
    ensures r.Some? ==> |r.value| == |col| && forall i :: 0 <= i < |col| ==> r.value[i] == Normalize(col[i])
  {
    if col == [] then Some([])
    else if !Coerces(col[0], ty, isNumber) then None
    else match CoerceColumn(col[1..], ty, isNumber)
      case None => None
      case Some(rest) => Some([Normalize(col[0])] + rest)
  }

  /**
    `table[key][pd.to_numeric(table[key], errors='coerce').isna()]` (app.py:49):
    the (row index, original cell) pairs of the cells that are not numbers,
    missing cells included, in row order.
  */
  function Offenders(col: seq<Cell>, isNumber: string -> bool): (r: seq<(nat, Cell)>)
    ensures forall p :: p in r <==> p.0 < |col| && p.1 == col[p.0] && !ParsesAsNumber(p.1, isNumber)
    ensures forall a, b :: 0 <= a < b < |r| ==> r[a].0 < r[b].0
    ensures forall a :: 0 <= a < |r| ==> r[a].0 < |col|
  {
    if col == [] then []
    else
      var n := |col| - 1;
      var front := Offenders(col[..n], isNumber);
      assert forall i :: 0 <= i < n ==> col[..n][i] == col[i];
      assert forall p :: p in front ==> p.0 < n;
      if ParsesAsNumber(col[n], isNumber) then front else front + [(n, col[n])]
  }

  predicate Distinct<T(==)>(s: seq<T>) {
    forall a, b :: 0 <= a < b < |s| ==> s[a] != s[b]
  }

  /**
    `table.loc[~isin(origin_AllowedValues) & notna(), 'Origin'].unique()`
    (app.py:53-55): the distinct present values outside the whitelist, in
    order of first appearance.
  */
  function Unallowed(col: seq<Cell>): (r: seq<string>)
    ensures forall v :: v in r <==> exists i :: 0 <= i < |col| && col[i] == Present(v) && v !in AllowedOrigins
    ensures Distinct(r)
  {
    if col == [] then []
    else
      var n := |col| - 1;
      var front := Unallowed(col[..n]);
      assert forall i :: 0 <= i < n ==> col[..n][i] == col[i];
      if col[n].Present? && col[n].text !in AllowedOrigins && col[n].text !in front
      then front + [col[n].text]
      else front
  }

  /**
    `astype(str)` as pandas applies it at app.py:47: a missing cell becomes
    the text "nan", which the `notna()` guard of app.py:53 then no longer
    excludes. The rest of the model keeps missing cells missing, as the
    guard and the comment at app.py:35 intend.
  */
  function AsStrAsWritten(c: Cell): (r: Cell)
    ensures r.Present?
    ensures c.Present? ==> r == c
    ensures c.Missing? ==> r.text == "nan"
  {
    if c.Missing? then Present("nan") else c
  }

  /** The values app.py:53-55 reports for `Origin` with the column as app.py:47 really leaves it. */
  function UnallowedAsWritten(col: seq<Cell>): (r: seq<string>)
    ensures forall v :: v in r <==> exists i :: 0 <= i < |col| && AsStrAsWritten(col[i]) == Present(v) && v !in AllowedOrigins
    ensures Distinct(r)
  {
    var strs := seq(|col|, i requires 0 <= i < |col| => AsStrAsWritten(col[i]));
    assert forall i :: 0 <= i < |col| ==> strs[i] == AsStrAsWritten(col[i]);
    Unallowed(strs)
  }

  /**
    A column with an allowed value and a missing cell: as written the
    missing cell is reported as the value "nan"; as intended nothing is.
  */
  lemma MissingOriginAsWritten()
    ensures UnallowedAsWritten([Present("US"), Missing]) == ["nan"]
    ensures Unallowed([Present("US"), Missing]) == []
  {
    var strs := [Present("US"), Present("nan")];
    assert seq(2, i requires 0 <= i < 2 => AsStrAsWritten([Present("US"), Missing][i])) == strs;
    assert strs[..1] == [Present("US")] && [Present("US"), Missing][..1] == [Present("US")];
    assert [Present("US")][..0] == [];
  }

  /** The first appearance of each reported value precedes that of the next one. */
  lemma {:induction false} UnallowedInFirstAppearanceOrder(col: seq<Cell>, a: nat, b: nat)
    requires a < b < |Unallowed(col)|
    ensures FirstIndex(col, Unallowed(col)[a]) < FirstIndex(col, Unallowed(col)[b])
  {
    var n := |col| - 1;
    var front := Unallowed(col[..n]);
    assert forall i :: 0 <= i < n ==> col[..n][i] == col[i];
    FirstIndexOfPrefix(col, Unallowed(col)[a]);
    if b < |front| {
      FirstIndexOfPrefix(col, Unallowed(col)[b]);
      UnallowedInFirstAppearanceOrder(col[..n], a, b);
    } else {
      var v := Unallowed(col)[b];
      assert v == col[n].text && v !in front;
      assert forall i :: 0 <= i < n ==> col[i] != Present(v);
      assert FirstIndex(col, v) == n;
    }
  }

  /** The index of the first present cell holding `v` (or `|col|` if none does). */
  function FirstIndex(col: seq<Cell>, v: string): (k: nat)
    ensures k <= |col|
    ensures k < |col| ==> col[k] == Present(v)
    ensures forall i :: 0 <= i < k ==> col[i] != Present(v)
  {
    if col == [] then 0
    else if col[0] == Present(v) then 0
    else 1 + FirstIndex(col[1..], v)
  }

  lemma FirstIndexOfPrefix(col: seq<Cell>, v: string)
    requires |col| > 0
    requires exists i :: 0 <= i < |col| - 1 && col[i] == Present(v)
    ensures FirstIndex(col, v) == FirstIndex(col[..|col| - 1], v)
  {
    var k := FirstIndex(col, v);
    var k' := FirstIndex(col[..|col| - 1], v);
    assert forall i :: 0 <= i < |col| - 1 ==> col[..|col| - 1][i] == col[i];
  }
}
