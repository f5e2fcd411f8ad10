# RepoCSV validator and chart cache, in Dafny

This project models the core of the RepoCSV web application (`app.py`). A
user uploads a semicolon-separated table of cars. The application drops the
first data row, validates the rest against a fixed schema, and then draws
`Horsepower` against `Weight`:

- `Horsepower` and `Weight` must be numbers;
- `Origin` must be one of `US`, `Europe` or `Japan`;
- empty cells are allowed in every column.

The application remembers the last chart it drew successfully. When an upload
fails, or no file was sent, the page shows that remembered chart together with
an error. When the bundled example table fails validation on a plain `GET`, the
request fails outright.

The model starts from an already-parsed table whose cells pandas holds as
text. That is, it assumes an upload carries a type row such as
`DOUBLE;DOUBLE;CAT` right after the header, as the worked examples in
`Scenarios` do. That type row is the first data row, which `csvToDataFrame`
drops. A table is a set of column names
and a sequence of rows. Each row maps a column name to a cell that is either
`Present(text)` or `Missing` (pandas' NaN). Whether a piece of text parses as a
float is not modelled: it is the parameter `isNumber`.

- `Validation.ValidateTable` is the validator of app.py:36-59.
  - It works in place on an array of rows: it trims each expected column,
    coerces it, writes it back, and stops at the first failing check.
  - It is proved equal to the reference function `Validation.Validate`.
  - The properties the source promises are proved about `Validate` in module
    `ValidationFacts`.
- `Pipeline.CsvToDataFrame` is `csvToDataFrame` (app.py:64-71): drop the first
  data row, renumber the rest, validate into a fresh frame, and return either
  the table or the reason it was refused.
- `Server.ChartServer` holds the cache `lastSuccessful`. Its methods are
  `drawTableGraph` (app.py:76-90) and the branch logic of `index`
  (app.py:95-126). `DrawTableGraph` returns `Charts.MakeChart` of its table
  and leaves that chart in the cache. `Index` is proved equal to the reference
  function `Server.Serve`.
  `Server.CacheHoldsLatestChart` states what the cache holds after any sequence
  of requests.

Results that the source returns untyped (`True`, or a `(False, message)` tuple)
are tagged values here:

- `Verdict` (`Pass` / `Fail(reason)`);
- `Loaded` (`Valid(table)` / `Invalid(reason)`);
- `Response` (a rendered page, or the fatal error).

`Reason` names the column and carries the offending cells or values instead of
the message text.

Modules: `Wrappers` (Option), `Text` (`str.strip()`), `Schema` (the fixed schema,
cells, rows, tables), `Coercion` (column coercion and the reported offenders),
`Validation`, `ValidationFacts`, `Pipeline`, `Charts`, `Server`, and `Scenarios`
(worked examples on concrete files).

Where the code and its documentation differ, the model follows the code:

- Offending cells are tested on the original column, so missing cells are
  listed among the offenders of a numeric column (app.py:49).
- On a failure, the columns checked before the failing one stay coerced in place
  (app.py:47).
- The table is returned with its coerced, trimmed cells.

One exception is the `Origin` check for missing cells. There the code does not do
what it evidently intends, and the model follows the intent (see "## Findings").

## Model

| member | source | states |
|---|---|---|
| `Text.IsSpace` | app.py:47 | the characters Python's `str.isspace()` accepts, which `str.strip()` removes |
| `Text.Trim` | app.py:47 | `.str.strip()` on one text; what it yields is stated by `Text.TrimShape` and `Text.TrimIdempotent` |
| `Text.LeadingSpaces` | app.py:47 | the length of the whitespace run that starts the text is the longest one: all positions before it are whitespace (in the sense of Python's `str.isspace`) and the next one is not |
| `Text.TrailingSpaces` | app.py:47 | the same for the whitespace run that ends the text |
| `Text.TrimShape` | app.py:47 | `.str.strip()` yields a contiguous slice of the text; everything before it and after it is whitespace; it neither starts nor ends with whitespace |
| `Text.TrimIdempotent` | app.py:47 | stripping an already stripped text changes nothing |
| `Schema.HasHeaders` | app.py:40 | every name of `expected_tableTitles` is among the table's columns |
| `Schema.Column` | app.py:47 | `table[key]` has one cell per row, the row's cell for `key`, in row order |
| `Schema.SetColumn` | app.py:47 | `table[key] = col` replaces exactly column `key` of every row with the matching cell of `col` |
| `Coercion.Normalize` | app.py:47 | a missing cell stays missing; a present one holds its stripped text |
| `Coercion.Coerces` | app.py:47 | one cell survives `astype`: always for `str`, always when missing, and for `float` when its stripped text parses |
| `Coercion.ParsesAsNumber` | app.py:49 | `pd.to_numeric(errors='coerce')` gives a number, not NaN, for the cell: it is present and its text parses |
| `Coercion.CoerceColumn` | app.py:47-48 | `astype` succeeds exactly when every cell coerces (strings always, missing cells always, numbers when the stripped text parses); on success every cell is the stripped cell |
| `Coercion.Offenders` | app.py:49 | a (row index, original cell) pair is reported exactly when that row's cell is missing or does not parse as a number; the reported indices are strictly increasing |
| `Coercion.Unallowed` | app.py:53-55 | a value is reported exactly when some present cell holds it and it is outside the whitelist; missing cells are never reported; no value is reported twice |
| `Coercion.UnallowedInFirstAppearanceOrder` | app.py:55 | `unique()` lists the reported values in the order of their first appearance in the column |
| `Coercion.FirstIndex` | app.py:55 | the first row holding a value: every earlier row holds something else |
| `Coercion.AsStrAsWritten` | app.py:47 | `astype(str)` as pandas performs it: a missing cell becomes the text `"nan"`, a present one is kept |
| `Coercion.UnallowedAsWritten` | app.py:47-55 | the values the `Origin` check really reports: a value is reported exactly when some cell converted by `astype(str)` holds it and it is outside the whitelist |
| `Coercion.MissingOriginAsWritten` | app.py:47-55 | a column `US`, missing: as written it reports `["nan"]`, as intended it reports nothing |
| `Validation.CheckColumn` | app.py:44-55 | one column step: the rows keep their columns and their number |
| `Validation.CheckColumns` | app.py:43-57 | the column loop over the remaining dictionary entries keeps every row's columns and the number of rows |
| `Validation.Validate` | app.py:36-59 | the reference validator on a frame: the rows it leaves keep exactly the table's columns and their number |
| `Validation.NormalizeColumns` | app.py:47 | the named columns hold their stripped cells, all other cells are unchanged, every row keeps its columns |
| `Validation.WriteColumn` | app.py:47 | writing a column into the row array in place leaves the array equal to `SetColumn` of its old contents |
| `Validation.ValidateTable` | app.py:36-59 | a non-frame is refused as not a table; otherwise the verdict and the rows left in the array are exactly those of `Validate` on the original rows; the loop invariant is that the remaining loop over the dictionary yields the reference result |
| `ValidationFacts.ValidateSteps` | app.py:43-57 | the loop visits `Horsepower`, then `Weight`, then `Origin`, feeding each the rows the previous step left, and stops at the first failure |
| `ValidationFacts.ValidateUnfolded` | app.py:40-57 | once the headers are present, the outcome by cases: a bad `Horsepower` is reported on the untouched rows; a bad `Weight` with only `Horsepower` coerced; a bad `Origin` with all three coerced; otherwise a pass with all three coerced |
| `ValidationFacts.OffendersOfColumn` | app.py:49-50 | a cell that does not coerce is among the reported cells, and the reported cells are exactly the non-number cells of the original column |
| `ValidationFacts.RejectsMissingHeader` | app.py:40-41 | a table missing any expected header is refused for that reason, with no row touched |
| `ValidationFacts.ReportsHorsepowerFirst` | app.py:43-50 | any non-number `Horsepower` cell makes validation fail on `Horsepower`, reporting every non-number cell of the original column, missing ones included, with no column coerced |
| `ValidationFacts.ReportsWeightSecond` | app.py:43-50 | with `Horsepower` acceptable, a non-number `Weight` cell makes validation fail on `Weight`, with only `Horsepower` coerced so far |
| `ValidationFacts.ReportsOriginLast` | app.py:52-55 | with both numeric columns acceptable, a present `Origin` value outside the whitelist makes validation fail on `Origin`; the reported values are exactly the distinct stripped values outside the whitelist, and missing cells are never among them |
| `ValidationFacts.OriginFailureOutcome` | app.py:52-55 | when only the whitelist fails, every expected column is coerced and the reason lists the whitelist offenders of the coerced column |
| `ValidationFacts.AcceptsConforming` | app.py:43-59 | a table with the headers whose cells conform passes, with all three columns coerced |
| `ValidationFacts.PassIff` | app.py:36-59 | validation passes if and only if the headers are present and every numeric cell is missing or a number and every present `Origin` value is allowed |
| `ValidationFacts.AcceptedRowsCoerced` | app.py:47-55 | after a pass every numeric cell is missing or a stripped number, every `Origin` cell is missing or whitelisted, and every other column is untouched |
| `ValidationFacts.NormalizedConforming` | app.py:47 | coercing the three columns of a conforming table leaves numeric cells missing or stripped numbers, `Origin` cells missing or whitelisted, and every other cell as it was |
| `ValidationFacts.MissingCellHarmless` | app.py:35-55 | blanking any one cell of an accepted table keeps it accepted: missing values are never errors |
| `Pipeline.DropFirstRow` | app.py:66 | `drop(0).reset_index(drop=True)` has one row less, and row i is input row i + 1 |
| `Pipeline.Dispatch` | app.py:68-71 | the table is returned exactly when validation passed; otherwise the failure reason is |
| `Pipeline.Load` | app.py:64-71 | the reference value of `csvToDataFrame`: the dispatch of validating the rows after the first; its meaning is stated by `Pipeline.LoadValidIff`, `Pipeline.NeverNotATable` and `Pipeline.FirstRowIgnored` |
| `Pipeline.CsvToDataFrame` | app.py:64-71 | the result is the reference `Load`; an accepted table keeps the headers and has one row less; "not a table" never comes out |
| `Pipeline.NeverNotATable` | app.py:64-67 | the pipeline always validates a frame, so it never reports "not a table" |
| `Pipeline.LoadValidIff` | app.py:64-71 | on a frame of text cells, a file is accepted if and only if its headers are present and every row after the first conforms; the accepted table has one row less, and row i holds the coerced cells of input row i + 1 and the untouched other cells |
| `Pipeline.FirstRowIgnored` | app.py:66 | on a frame of text cells, the content of the first data row never influences the outcome |
| `Charts.MakeChart` | app.py:79-85 | the chart is titled "Horsepower vs Weight", with axis titles `Weight` (x) and `Horsepower` (y); the x labels are the `Weight` column and the single series `Horsepower` is the `Horsepower` column, both in row order and of the table's length |
| `Server.LoadedIsDrawable` | app.py:109-111 | an accepted table has the two columns the chart needs |
| `Server.NewChart` | app.py:100-123 | the chart one request draws: the chart of the loaded file (the upload, or the default file on `GET`) when the pipeline accepts it, and none otherwise |
| `Server.Serve` | app.py:95-126 | the reference handler: a drawn chart becomes the cache and is shown without error; an empty `POST` shows the old cache with `FileNotRecognized`, a refused upload shows it with `ValidationError` carrying the pipeline's reason, and both keep it; a refused default file on `GET` is fatal with the pipeline's reason and keeps the cache |
| `Server.ChartServer.constructor` | app.py:14 | the cache starts empty |
| `Server.ChartServer.DrawTableGraph` | app.py:76-90 | returns the chart of the table and leaves exactly that chart in the cache |
| `Server.ChartServer.Index` | app.py:95-126 | the response and the new cache are those of `Serve` on the old cache; an error page shows the old cache and keeps it; a fatal response only comes from `GET` and keeps the cache |
| `Server.CacheHoldsLatestChart` | app.py:88-117 | after any sequence of requests the cache holds the chart of the latest request that drew one, or its initial contents if none did |
| `Server.ReplaySnoc` | app.py:95-126 | serving one more request after a sequence is one more handler step on the cache the sequence left |
| `Server.ChartFollowsFile` | app.py:79-85 | the chart drawn from an accepted file plots the stripped `Weight` of every row after the first as the x label, and its stripped `Horsepower` as the value, in file order |
| `Scenarios.CarRow` | app.py:16 | a row of the expected schema holds exactly the three expected columns |
| `Scenarios.NoSpaces` | app.py:47 | stripping a text without whitespace leaves it as it is |
| `Scenarios.TwoRowFile` | app.py:64-71 | for a file of two data rows whose second is already stripped, the result is the dispatch of validating the second row alone |
| `Scenarios.AcceptedSecondRow` | app.py:64-71 | such a file whose second row conforms is accepted as that one row |
| `Scenarios.RejectedSecondRow` | app.py:52-55 | such a file whose second row has the single bad `Origin` value `v` is refused with exactly `[v]` |
| `Scenarios.SecondRowSurvives` | app.py:66-69 | rows `DOUBLE;DOUBLE;CAT` (the type row), `7.5;2000;Europe`: only the second is kept, and it is accepted unchanged |
| `Scenarios.MarsRejected` | app.py:52-55 | rows `DOUBLE;DOUBLE;CAT`, `7.5;2000;Mars`: refused on `Origin` with exactly `["Mars"]` |
| `Scenarios.EmptyHorsepowerAccepted` | app.py:47 | rows `DOUBLE;DOUBLE;CAT`, `;2000;Japan`: the empty `Horsepower` cell in the kept row is a missing value, and the file is accepted |

## Left out

- Flask routing, `request.files`, `file.save`, `render_template` and `app.run`
  (app.py:95-131, apart from the branch logic). A request carries the
  already-parsed file, or none; a page is the chart shown plus the error, if any.
- `chardet` encoding detection (app.py:28-32) and `pd.read_csv` (app.py:65): the
  model starts from a parsed table. A table that fails to parse never reaches
  the validator, so "not a table" is produced only by `ValidateTable` on a null
  array.
- pygal rendering and `render_data_uri` (app.py:82-86): a chart is the record of
  titles, x labels and series given to pygal. The cache holds that record
  instead of the data URI.
- Float parsing: whether a stripped text is a number is the parameter
  `isNumber`. Coerced numeric cells stay as their stripped text instead of
  becoming floats. The same `isNumber`, applied to the stripped text, stands
  for two different parsers: `astype(float)` at app.py:47 (Python's `float()`)
  and `pd.to_numeric(errors='coerce')` at app.py:49. This is an
  approximation, and the two disagree on some inputs:
  - `float("1_000")` succeeds while `pd.to_numeric` gives NaN;
  - `strip()` removes Unicode whitespace such as a no-break space, so
    `"7.5\u00a0"` passes `astype(float)` after stripping, while
    `pd.to_numeric` skips only ASCII whitespace and gives NaN.

  So when another cell of the column fails, the real offender list can
  include cells that `astype(float)` accepted. The model's list cannot.
- The message texts and the pandas rendering of Series and arrays in them
  (app.py:38, 41, 50, 55, 57, 114, 116, 126): reasons are structured.
- Concurrency on the shared upload path and on the global cache (app.py:12-14):
  the model is single-threaded.
- pandas dtype behaviour. `pd.read_csv` (app.py:65) reads a column as numbers
  (int64 or float64) when every cell in it, the first data row included, is
  a number the reader recognises, or empty. For such a column `.str.strip()`
  (app.py:47) raises, the bare `except` (app.py:48) catches it, and
  app.py:49-50 refuse the table on the first such column in the order
  `Horsepower`, `Weight`. In practice, therefore, a file passes only when each
  of `Horsepower` and `Weight` holds some cell the reader does not take as a
  number. That cell can be in the first data row, such as the type row
  `DOUBLE;DOUBLE;CAT`. It can also be a kept cell that the reader rejects but
  `float()` accepts after `strip()`, such as `"1_000"` or `"7.5\u00a0"`. The
  same failure hits a re-validated table. The model treats every column as
  text, so it does not model this refusal, nor the part the first row plays in
  it.
- `Pipeline.FirstRowIgnored`: holds only on a frame of text cells. In the real
  code the first data row can decide, through pandas' type inference, whether
  the numeric columns are text at all.
- `Pipeline.LoadValidIff`: holds only on a frame of text cells. A file whose
  numeric columns pandas reads as numbers (int64 or float64) is refused in the
  real code even when every kept row conforms.
- `Pipeline.CsvToDataFrame`: requires at least one data row, because `drop(0)`
  on a table without data rows raises, which the model does not represent.
- `Server.ChartServer.Index`: requires through `Admissible` that every table it
  loads is parsed and has a data row. In the real handler, an upload that
  `pd.read_csv` cannot parse, or one without a data row, raises out of
  `csvToDataFrame` at app.py:109. The exception leaves `index`, so no page is
  rendered and the cached chart is not shown as a fallback. A `Request` of the
  model cannot hold such an upload, so neither `Index` nor `Server.Serve`
  describes that outcome.
- The branch for an expected key absent from the columns (app.py:56-57) is
  unreachable after the header check. `ValidateTable` asserts this instead of
  modelling a result for it.

## Findings

| source | as written | input that shows it | evidently intended | confidence | as-written member | corrected member |
|---|---|---|---|---|---|---|
| app.py:47, app.py:53 | `astype(str)` turns a missing `Origin` cell into the text `"nan"`; the `notna()` guard no longer excludes it, so it is reported as a value outside the whitelist and the table is refused | an `Origin` column holding `US` and an empty cell | missing cells are allowed in every column (comment at app.py:35, `notna()` at app.py:53) | medium, not executed | `Coercion.MissingOriginAsWritten` (on `Coercion.UnallowedAsWritten`) | `Coercion.Unallowed`, with `ValidationFacts.MissingCellHarmless` |
