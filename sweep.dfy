/** The sweep driver of generate_sensitivity_plot and its caller run()
    (generate_heatmap.py, lines 12-34 and 45-61): a NaN-filled frame indexed
    by p and tolerance, filled cell by cell in row-major order with the
    Sharpe ratio of a fresh strategy run, then reduced to its minimum and the
    mask of that minimum. */
module Sweep {
  import Grid
  import Dataset
  import Report

  /** The three summary statistics of a finished run; the third is the
      Sharpe ratio. */
  type Stats = (real, real, real)

  /** The strategy collaborator: a Strategy built afresh from the returns,
      the weights, the starting cash and the commission, traded with
      (p, tol), and asked for its summary statistics. Taking it to be a
      function of these arguments alone is an assumption of the model. */
  type Backtest = (Dataset.ReturnsFrame, Dataset.WeightSeries, int, real, int, real) -> Stats

  /** One cell of the frame: NaN until the sweep writes a number into it. */
  datatype Cell = NaN | Num(value: real)

  /** The starting cash and the commission rate run() passes on. */
  const StartingCash: int := 100000
  const Commission: real := 0.005

  /** Label lookup, as .loc does it: the position of label x. */
  function Position(s: seq<int>, x: int): (k: nat)
    requires x in s
    ensures k < |s| && s[k] == x
    ensures forall j :: 0 <= j < k ==> s[j] != x
  {
    if s[0] == x then 0 else 1 + Position(s[1..], x)
  }

  /** sharpe_df: the result matrix with its row labels (p values) and column
      labels (tolerances in hundredths). */
  class SharpeFrame {
    const index: seq<int>
    const columns: seq<int>
    const cells: array2<Cell>

    ghost predicate Valid()
      reads this
    {
      cells.Length0 == |index| && cells.Length1 == |columns| &&
      Grid.Distinct(index) && Grid.Distinct(columns)
    }

    /** Every cell before (r, c) in row-major order holds its run's Sharpe
        ratio; every cell from (r, c) on is still NaN. */
    ghost predicate FilledUpTo(trial: (int, real) -> Stats, r: int, c: int)
      reads this, cells
      requires Valid()
    {
      forall i, j :: 0 <= i < |index| && 0 <= j < |columns| ==>
        cells[i, j] == if i < r || (i == r && j < c) then Num(trial(index[i], Grid.TolValue(columns[j])).2) else NaN
    }

    /** Every cell holds a number. */
    predicate Complete()
      reads this, cells
      requires Valid()
    {
      forall i, j :: 0 <= i < |index| && 0 <= j < |columns| ==> cells[i, j].Num?
    }

    /** pd.DataFrame(columns=..., index=..., dtype=np.float64): a frame of
        the given shape with every cell NaN. */
    constructor (index: seq<int>, columns: seq<int>)
      requires Grid.Distinct(index) && Grid.Distinct(columns)
      ensures Valid() && fresh(cells)
      ensures this.index == index && this.columns == columns
      ensures forall i, j :: 0 <= i < |index| && 0 <= j < |columns| ==> cells[i, j] == NaN
    {
      this.index := index;
      this.columns := columns;
      cells := new Cell[|index|, |columns|]((i, j) => NaN);
    }

    /** sharpe_df.loc[p, tol] = v: writes the one cell those labels name. */
    method SetLoc(p: int, tol: int, v: real)
      requires Valid() && p in index && tol in columns
      modifies cells
      ensures cells[Position(index, p), Position(columns, tol)] == Num(v)
      ensures forall i, j ::
        (0 <= i < |index| && 0 <= j < |columns| && (i, j) != (Position(index, p), Position(columns, tol))) ==>
        cells[i, j] == old(cells[i, j])
    {
      cells[Position(index, p), Position(columns, tol)] := Num(v);
    }

    /** The nested loop over p and tol: every cell ends up holding the
        Sharpe ratio of the run for its own labels, and each cell is
        written once, when the cursor reaches it. */
    method Fill(trial: (int, real) -> Stats)
      requires Valid() && FilledUpTo(trial, 0, 0)
      modifies cells
      ensures Valid() && Complete()
      ensures forall i, j :: 0 <= i < |index| && 0 <= j < |columns| ==>
        cells[i, j] == Num(trial(index[i], Grid.TolValue(columns[j])).2)
    {
      for r := 0 to |index|
        invariant FilledUpTo(trial, r, 0)
      {
        var p := index[r];
        for c := 0 to |columns|
          invariant FilledUpTo(trial, r, c)
        {
          var tol := columns[c];
          var stats := trial(p, Grid.TolValue(tol));
          SetLoc(p, tol, stats.2);
        }
      }
    }

    /** The numbers of a complete frame, row by row. */
    function Values(): (m: Report.Matrix)
      reads this, cells
      requires Valid() && Complete()
      ensures |m| == |index|
      ensures forall i :: 0 <= i < |index| ==> |m[i]| == |columns|
      ensures forall i, j :: 0 <= i < |index| && 0 <= j < |columns| ==> cells[i, j] == Num(m[i][j])
    {
      seq(|index|, i requires 0 <= i < |index| && Valid() && Complete() reads this, cells =>
        seq(|columns|, j requires 0 <= j < |columns| && Valid() && Complete() reads this, cells => cells[i, j].value))
    }
  }

  /** What the reporter derives from a finished matrix m: its global
      minimum, below or equal to every cell and equal to one, and a mask of
      the same shape that is true exactly at the cells equal to it. */
  predicate ReportsOn(h: Report.Heatmap, m: Report.Matrix)
  {
    h.data == m &&
    (forall i, j :: 0 <= i < |m| && 0 <= j < |m[i]| ==> h.minSharpe <= m[i][j]) &&
    (exists i, j :: 0 <= i < |m| && 0 <= j < |m[i]| && m[i][j] == h.minSharpe) &&
    |h.mask| == |m| && (forall i :: 0 <= i < |m| ==> |h.mask[i]| == |m[i]|) &&
    (forall i, j :: 0 <= i < |m| && 0 <= j < |m[i]| ==> (h.mask[i][j] <==> m[i][j] == h.minSharpe))
  }

  /** The global minimum and its equality mask are what ReportsOn asks of
      a heatmap. */
  lemma HeatmapReportsOn(m: Report.Matrix)
    requires Report.Rectangular(m)
    ensures ReportsOn(Report.Heatmap(m, Report.GlobalMin(m), Report.EqualityMask(m, Report.GlobalMin(m))), m)
  {
  }

  /** A report always blanks at least one cell: the one the minimum came from. */
  lemma ReportsOnMarks(h: Report.Heatmap)
    requires ReportsOn(h, h.data)
    ensures exists i, j :: 0 <= i < |h.data| && 0 <= j < |h.data[i]| && h.mask[i][j]
  {
    var m := h.data;
    var i, j :| 0 <= i < |m| && 0 <= j < |m[i]| && m[i][j] == h.minSharpe;
    assert h.mask[i][j];
  }

  /** generate_sensitivity_plot: the 9 x 19 matrix whose cell (i, j) is the
      Sharpe ratio of the run with p = i + 1 and tol = (j + 1) / 100, together
      with its minimum and the mask that blanks the minimal cells. */
  method GenerateSensitivityPlot(dataset: Dataset.ReturnsFrame, weights: Dataset.WeightSeries,
                                 startingCash: int, commission: real, backtest: Backtest)
    returns (h: Report.Heatmap)
    ensures |h.data| == 9 && forall i :: 0 <= i < 9 ==> |h.data[i]| == 19
    ensures forall i, j :: 0 <= i < 9 && 0 <= j < 19 ==>
      h.data[i][j] == backtest(dataset, weights, startingCash, commission, i + 1, Grid.TolValue(j + 1)).2
    ensures ReportsOn(h, h.data)
    ensures exists i, j :: 0 <= i < 9 && 0 <= j < 19 && h.mask[i][j]
  {
    var index, columns := Grid.PAxis(), Grid.TolAxis();
    assert Grid.Distinct(index) && Grid.Distinct(columns) by {
      Grid.AxisAscending(1, 10, 1);
      Grid.AxisAscending(1, 20, 1);
    }
    var trial := (p: int, tol: real) => backtest(dataset, weights, startingCash, commission, p, tol);
    var frame := new SharpeFrame(index, columns);
    frame.Fill(trial);
    var values := frame.Values();
    assert Report.Rectangular(values);
    var minSharpe := Report.GlobalMin(values);
    var mask := Report.EqualityMask(values, minSharpe);
    h := Report.Heatmap(values, minSharpe, mask);
    assert ReportsOn(h, h.data) by {
      HeatmapReportsOn(values);
    }
    assert exists i, j :: 0 <= i < |h.data| && 0 <= j < |h.data[i]| && h.mask[i][j] by {
      ReportsOnMarks(h);
    }
    forall i, j | 0 <= i < 9 && 0 <= j < 19
      ensures h.data[i][j] == backtest(dataset, weights, startingCash, commission, i + 1, Grid.TolValue(j + 1)).2
    {
      assert frame.cells[i, j] == Num(values[i][j]);
    }
  }

  /** run(): prepare the dataset, then sweep it with the fixed starting cash
      and commission. Any ticker count other than eight fails while pairing
      the weights, before any cell is run. */
  method Run(tickers: seq<string>, daily: seq<seq<real>>, backtest: Backtest)
    returns (r: Dataset.Result<Report.Heatmap>)
    requires |daily| == |tickers|
    ensures r.Ok? <==> |tickers| == 8
    ensures r.Err? ==> r.error == Dataset.LengthMismatch(8, |tickers|)
    ensures r.Ok? ==> Dataset.Prepare(tickers, daily).Ok? && ReportsOn(r.value, r.value.data)
    ensures r.Ok? ==> |r.value.data| == 9 && forall i :: 0 <= i < 9 ==> |r.value.data[i]| == 19
    ensures r.Ok? ==> forall i, j :: 0 <= i < 9 && 0 <= j < 19 ==>
      r.value.data[i][j] == backtest(Dataset.Prepare(tickers, daily).value.0, Dataset.Prepare(tickers, daily).value.1,
                                     StartingCash, Commission, i + 1, Grid.TolValue(j + 1)).2
  {
    var prepared := Dataset.Prepare(tickers, daily);
    if prepared.Err? {
      return Dataset.Err(prepared.error);
    }
    var (dataset, weights) := prepared.value;
    var h := GenerateSensitivityPlot(dataset, weights, StartingCash, Commission, backtest);
    return Dataset.Ok(h);
  }
}
