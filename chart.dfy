/**
  `drawTableGraph` (app.py:76-90) without the rendering: the chart is the
  record of what pygal is given (titles, x labels, series).
*/
module Charts {
  import opened Schema

  /** One plotted line: its name and its values in row order. */
  datatype Series = Series(name: string, values: seq<Cell>)

  /** The chart passed to pygal before `render_data_uri()`. */
  datatype Chart = Chart(title: string, xTitle: string, yTitle: string, xLabels: seq<Cell>, series: seq<Series>)

  /** What `drawTableGraph` needs of its (validated) table. */
  predicate Drawable(t: Table) {
    HasColumn(t.rows, Weight) && HasColumn(t.rows, Horsepower)
  }

  /**
    app.py:79-85: `Weight` gives the x labels, `Horsepower` the one series,
    both in row order and aligned with the rows.
  */
  function MakeChart(t: Table): (c: Chart)
    requires Drawable(t)
    ensures c.title == "Horsepower vs Weight"
    ensures c.xTitle == "Weight" && c.yTitle == "Horsepower"
    ensures |c.xLabels| == |t.rows| && |c.series| == 1
    ensures c.series[0].name == "Horsepower" && |c.series[0].values| == |t.rows|
    ensures forall i :: 0 <= i < |t.rows| ==>
      c.xLabels[i] == t.rows[i][Weight] && c.series[0].values[i] == t.rows[i][Horsepower]
  {
    Chart(TitleY + " vs " + TitleX, TitleX, TitleY, Column(t.rows, TitleX), [Series(TitleY, Column(t.rows, TitleY))])
  }
}
