/**
  The decision logic of the `index` handler (app.py:95-126) and the
  process-wide last successful chart (app.py:14, app.py:88), owned here by a
  server object. Requests carry the already parsed upload; saving it to
  disk and templating are not modelled.
*/
module Server {
  import opened Wrappers
  import opened Schema
  import opened Coercion
  import opened ValidationFacts
  import opened Pipeline
  import opened Charts

  /** A request: `GET /`, or `POST /` whose `file` field is empty (`None`) or holds a parsed file. */
  datatype Request = Get | Post(file: Option<Table>)

  /** The error shown on the page (app.py:114, app.py:116). */
  datatype Notice = FileNotRecognized | ValidationError(reason: Reason)

  /** `render_template('index.html', ...)`: the chart shown, and the error if any. */
  datatype Page = Page(chart: Option<Chart>, error: Option<Notice>)

  /** The page, or the exception raised when the default table is invalid (app.py:126). */
  datatype Response = Render(page: Page) | Fatal(reason: Reason)

  /** Every table the request makes the handler load can be loaded. */
  predicate Admissible(req: Request, defaultFile: Table) {
    match req
    case Get => Parsed(defaultFile)
    case Post(None) => true
    case Post(Some(f)) => Parsed(f)
  }

  /** A successfully loaded table can be drawn. */
  lemma LoadedIsDrawable(t: Table, isNumber: string -> bool)
    requires Parsed(t) && Load(t, isNumber).Valid?
    ensures Drawable(Load(t, isNumber).table)
  {
    LoadValidIff(t, isNumber);
  }

  /** The chart a request newly draws, whatever was cached before (None if it draws none). */
  function NewChart(req: Request, defaultFile: Table, isNumber: string -> bool): (c: Option<Chart>)
    requires Admissible(req, defaultFile)
  {
    var file := if req.Get? then Some(defaultFile) else req.file;
    match file
    case None => None
    case Some(f) =>
      if Load(f, isNumber).Valid? then
        LoadedIsDrawable(f, isNumber);
        Some(MakeChart(Load(f, isNumber).table))
      else None
  }

  /**
    The reference behaviour of `index` on cache `last`: the response and the
    new cache. A failure or an empty upload leaves the cache as it was and
    shows it; a drawn chart replaces it.
  */
  function Serve(last: Option<Chart>, req: Request, defaultFile: Table, isNumber: string -> bool): (r: (Response, Option<Chart>))
    requires Admissible(req, defaultFile)
    ensures r.1 == (if NewChart(req, defaultFile, isNumber).Some? then NewChart(req, defaultFile, isNumber) else last)
    ensures NewChart(req, defaultFile, isNumber).Some? ==> r.0 == Render(Page(r.1, None))
    ensures req.Post? && NewChart(req, defaultFile, isNumber).None? ==>
      r.0.Render? && r.0.page.chart == last && r.0.page.error.Some?
    ensures req.Get? && NewChart(req, defaultFile, isNumber).None? ==> r.0.Fatal?
    ensures req == Post(None) ==> r.0 == Render(Page(last, Some(FileNotRecognized)))
    ensures req.Post? && req.file.Some? && Load(req.file.value, isNumber).Invalid? ==>
      r.0 == Render(Page(last, Some(ValidationError(Load(req.file.value, isNumber).reason))))
    ensures req.Get? && Load(defaultFile, isNumber).Invalid? ==> r.0 == Fatal(Load(defaultFile, isNumber).reason)
  {
    match req
    case Get =>
      (match Load(defaultFile, isNumber)
       case Valid(t) =>
         LoadedIsDrawable(defaultFile, isNumber);
         var c := MakeChart(t);
         (Render(Page(Some(c), None)), Some(c))
       case Invalid(reason) => (Fatal(reason), last))
    case Post(None) => (Render(Page(last, Some(FileNotRecognized))), last)
    case Post(Some(f)) =>
      match Load(f, isNumber)
      case Valid(t) =>
        LoadedIsDrawable(f, isNumber);
        var c := MakeChart(t);
        (Render(Page(Some(c), None)), Some(c))
      case Invalid(reason) => (Render(Page(last, Some(ValidationError(reason)))), last)
  }

  /** The web application: its float parser and its cache of the last good chart. */
  class ChartServer {
    const isNumber: string -> bool
    /** `lastSuccessfulTable` (app.py:14): the last chart drawn, none at start-up. */
    var lastSuccessful: Option<Chart>

    constructor (isNumber: string -> bool)
      ensures this.isNumber == isNumber && lastSuccessful == None
    {
      this.isNumber := isNumber;
      lastSuccessful := None;
    }

    /** `drawTableGraph` (app.py:76-90): build the chart and make it the cached one. */
    method DrawTableGraph(t: Table) returns (c: Chart)
      requires Drawable(t)
      modifies this
      ensures c == MakeChart(t)
      ensures lastSuccessful == Some(c)
    {
      c := MakeChart(t);
      lastSuccessful := Some(c);
    }

    /**
      `index` (app.py:95-126): load the upload (or, for GET, the default
      file), draw it if it passed, otherwise show the cached chart with the
      error, or fail outright for the default file.
    */
    method Index(req: Request, defaultFile: Table) returns (resp: Response)
      requires Admissible(req, defaultFile)
      modifies this
      ensures (resp, lastSuccessful) == Serve(old(lastSuccessful), req, defaultFile, isNumber)
      ensures resp.Render? && resp.page.error.Some? ==>
        resp.page.chart == old(lastSuccessful) && lastSuccessful == old(lastSuccessful)
      ensures resp.Fatal? ==> req.Get? && lastSuccessful == old(lastSuccessful)
    {
      var file := if req.Get? then Some(defaultFile) else req.file;
      if file.None? {
        return Render(Page(lastSuccessful, Some(FileNotRecognized)));
      }
      var table := CsvToDataFrame(file.value, isNumber);
      if table.Valid? {
        LoadedIsDrawable(file.value, isNumber);
        var chart := DrawTableGraph(table.table);
        return Render(Page(Some(chart), None));
      }
      if req.Get? {
        return Fatal(table.reason);
      }
      return Render(Page(lastSuccessful, Some(ValidationError(table.reason))));
    }
  }

  /** The cache after serving `reqs` in order, starting from `last`. */
  function Replay(last: Option<Chart>, reqs: seq<Request>, defaultFile: Table, isNumber: string -> bool): Option<Chart>
    requires forall j :: 0 <= j < |reqs| ==> Admissible(reqs[j], defaultFile)
    decreases |reqs|
  {
    if reqs == [] then last
    else Replay(Serve(last, reqs[0], defaultFile, isNumber).1, reqs[1..], defaultFile, isNumber)
  }

  /** The chart drawn by the most recent request that drew one, if any did. */
  function LatestChart(reqs: seq<Request>, defaultFile: Table, isNumber: string -> bool): Option<Chart>
    requires forall j :: 0 <= j < |reqs| ==> Admissible(reqs[j], defaultFile)
    decreases |reqs|
  {
    if reqs == [] then None
    else
      var n := |reqs| - 1;
      if NewChart(reqs[n], defaultFile, isNumber).Some? then NewChart(reqs[n], defaultFile, isNumber)
      else LatestChart(reqs[..n], defaultFile, isNumber)
  }

  /**
    After any sequence of requests the cache holds the chart of the latest
    request that drew one, or what it held before if none did: failures and
    empty uploads never erase or alter it.
  */
  lemma {:induction false} CacheHoldsLatestChart(last: Option<Chart>, reqs: seq<Request>, defaultFile: Table, isNumber: string -> bool)
    requires forall j :: 0 <= j < |reqs| ==> Admissible(reqs[j], defaultFile)
    ensures Replay(last, reqs, defaultFile, isNumber) ==
      if LatestChart(reqs, defaultFile, isNumber).Some? then LatestChart(reqs, defaultFile, isNumber) else last
    decreases |reqs|
  {
    if reqs != [] {
      var n := |reqs| - 1;
      var init := reqs[..n];
      ReplaySnoc(last, init, reqs[n], defaultFile, isNumber);
      assert init + [reqs[n]] == reqs;
      CacheHoldsLatestChart(last, init, defaultFile, isNumber);
    }
  }

  /** Serving one more request after a sequence: replay, then one step. */
  lemma {:induction false} ReplaySnoc(last: Option<Chart>, reqs: seq<Request>, req: Request, defaultFile: Table, isNumber: string -> bool)
    requires forall j :: 0 <= j < |reqs| ==> Admissible(reqs[j], defaultFile)
    requires Admissible(req, defaultFile)
    ensures forall j :: 0 <= j < |reqs + [req]| ==> Admissible((reqs + [req])[j], defaultFile)
    ensures Replay(last, reqs + [req], defaultFile, isNumber) ==
      Serve(Replay(last, reqs, defaultFile, isNumber), req, defaultFile, isNumber).1
    decreases |reqs|
  {
    if reqs == [] {
      assert [req][1..] == [];
    } else {
      var next := Serve(last, reqs[0], defaultFile, isNumber).1;
      assert (reqs + [req])[1..] == reqs[1..] + [req];
      ReplaySnoc(next, reqs[1..], req, defaultFile, isNumber);
    }
  }

  /**
    A chart drawn from a file plots, for every row after the first, its
    trimmed `Weight` as the x label and its trimmed `Horsepower` as the
    value, in file order.
  */
  lemma ChartFollowsFile(f: Table, isNumber: string -> bool)
    requires Parsed(f) && Load(f, isNumber).Valid?
    ensures var c := NewChart(Post(Some(f)), f, isNumber).value;
      |c.xLabels| == |f.rows| - 1 && |c.series| == 1 && |c.series[0].values| == |f.rows| - 1 &&
      forall i :: 0 <= i < |f.rows| - 1 ==>
        c.xLabels[i] == Normalize(f.rows[i + 1][Weight]) &&
        c.series[0].values[i] == Normalize(f.rows[i + 1][Horsepower])
  {
    LoadValidIff(f, isNumber);
    LoadedIsDrawable(f, isNumber);
    assert Weight in CoercedColumns && Horsepower in CoercedColumns;
    assert Weight in f.headers && Horsepower in f.headers by {
      assert Weight in ExpectedHeaders && Horsepower in ExpectedHeaders;
    }
  }
}
