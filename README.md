# Sensitivity sweep of the rebalancing strategy, in Dafny

This project models `generate_heatmap.py` of the BCS repository: the
hyperparameter sweep that backtests a rebalancing strategy once per
(Minkowski p, drift tolerance) pair and reports the resulting Sharpe ratios
as a heatmap whose worst cell or cells are blanked, and the dataset
preparation in `run()` that feeds it.

- `grid.dfy` (module `Grid`): the two axes. `Axis(lo, hi, step)` is
  `np.arange` over integers. The p axis is `Axis(1, 10, 1)`. The tolerance
  axis is `Axis(1, 20, 1)` in hundredths, so `np.round(np.arange(0.01, 0.2,
  0.01), 2)` becomes the exact values 1..19. `TolValue(h) = h / 100` is what
  the strategy receives.
- `dataset.dfy` (module `Dataset`): the running product
  `(daily + 1).cumprod()` of each return column. It is given as a recursive
  function (`CumProd`), against a product reference (`Growth`), with an
  in-place loop. It also holds the eight target weights and `Prepare`, which
  pairs them with the tickers and fails the way pandas does when the ticker
  count is not eight.
- `report.dfy` (module `Report`): the global minimum, computed as in the
  source as the minimum of the column minima. Also the equality mask built
  from it.
- `sweep.dfy` (module `Sweep`): the result frame `SharpeFrame`. It is a
  class over a two-dimensional array of cells that start as NaN. Its `Fill`
  method is the nested loop. Then come the driver `GenerateSensitivityPlot`
  and the entry point `Run`.

The strategy (`bcs.Strategy`) is not part of this model. It is a
function-typed parameter `Backtest` from (returns, weights, starting cash,
commission, p, tol) to the three summary statistics. The sweep keeps only
the third of them. Treating each cell's run as a function of its arguments
alone is an assumption (see "Left out").

## Model

| member | source | states |
|---|---|---|
| `Grid.Axis` | generate_heatmap.py:18-19 | `np.arange(lo, hi, step)` is empty exactly when hi <= lo. It starts at lo, and each value is the one before it plus step. |
| `Grid.AxisShape` | generate_heatmap.py:18-19 | Every value of an axis lies in [lo, hi). One more step after the last value would reach hi, so no value below hi is left out. |
| `Grid.AxisIsStepping` | generate_heatmap.py:18-19 | Computing the length as ceil((hi - lo) / step) and indexing gives the same values as counting up from lo by step while below hi. |
| `Grid.AxisAscending` | generate_heatmap.py:18-19 | An axis is strictly ascending, so no label repeats. |
| `Grid.PAxis` | generate_heatmap.py:15-19 | The p axis has 9 values, k + 1 at position k, that is 1..9. |
| `Grid.TolAxis` | generate_heatmap.py:16-18 | The tolerance axis has 19 values, k + 1 hundredths at position k, whose tolerances are exactly 0.01..0.19 with no drift. |
| `Grid.TolValue` | generate_heatmap.py:25 | The tolerance handed to the strategy is exactly h hundredths (times 100 it gives back h). |
| `Report.SeqMin` | generate_heatmap.py:33 | The minimum of a non-empty sequence is one of its elements and is below or equal to every element. |
| `Report.ColumnMins` | generate_heatmap.py:33 | `sharpe_df.min()` has one entry per column. Each is below or equal to every cell of its column and equals one of them. |
| `Report.GlobalMin` | generate_heatmap.py:33 | The minimum of the column minima is below or equal to every cell and equals some cell. |
| `Report.EqualityMask` | generate_heatmap.py:34 | The mask has the shape of the matrix. |
| `Report.MaskMarksMinimalCells` | generate_heatmap.py:33-34 | The mask of the global minimum is true at a cell if and only if no cell is smaller. So every tied minimum is marked, and at least one cell is marked. |
| `Dataset.CumProd` | generate_heatmap.py:59 | The running product of a column is as long as the column, and its first entry is 1 + daily[0]. |
| `Dataset.CumProdIsGrowth` | generate_heatmap.py:59 | Entry t of the cumulative column is the product of (1 + daily[k]) for k in 0..t. |
| `Dataset.CumProdPrefix` | generate_heatmap.py:59 | The running product of the first t days is the first t entries of the running product. Later days never change earlier entries. |
| `Dataset.CumProdRecurrence` | generate_heatmap.py:59 | The first entry is 1 + daily[0]. Each later entry is the one before it times (1 + daily[t]). |
| `Dataset.CumProdInPlace` | generate_heatmap.py:59 | The loop over the array leaves exactly the running product of the original column in it. |
| `Dataset.Cumulative` | generate_heatmap.py:59 | There is one cumulative column per daily column, of the same length. |
| `Dataset.CumulativeIsGrowth` | generate_heatmap.py:59 | Every cumulative entry (ticker c, day t) is that ticker's growth over days 0..t. |
| `Dataset.TargetWeightsAreFractions` | generate_heatmap.py:58 | There are 8 weights. Each is between 0 and 1, and together they sum to 1. |
| `Dataset.TargetWeights` | generate_heatmap.py:58 | The series is built if and only if there are exactly 8 tickers. Then its index is the tickers and weight k belongs to ticker k. Otherwise the result is a length-mismatch error (8 values against the number of tickers). |
| `Dataset.Prepare` | generate_heatmap.py:55-59 | Succeeds exactly with 8 tickers, leaving the tickers and daily columns unchanged. There are 8 cumulative columns, each as long as its daily column, and each cumulative entry is the growth up to its day. The weights are the eight target weights, aligned with the tickers. Any other ticker count fails with the length mismatch. |
| `Sweep.Position` | generate_heatmap.py:27 | `.loc` label lookup returns the first position holding the label. |
| `Sweep.SharpeFrame.constructor` | generate_heatmap.py:17-21 | The new frame has one row per p value and one column per tolerance, and every cell is NaN. |
| `Sweep.SharpeFrame.SetLoc` | generate_heatmap.py:27 | Writing by labels sets exactly the cell at the labels' positions. No other cell changes. |
| `Sweep.SharpeFrame.Fill` | generate_heatmap.py:22-27 | Row-major loop invariant: cells before the cursor hold their run's Sharpe ratio, and cells from the cursor on are still NaN. Each cell is written once. Afterwards every cell (i, j) holds the third statistic of the run for (index[i], columns[j]). |
| `Sweep.SharpeFrame.Values` | generate_heatmap.py:33-34 | The numbers of a complete frame, cell for cell, in its shape. |
| `Sweep.HeatmapReportsOn` | generate_heatmap.py:33-34 | For the global minimum and its mask: the minimum bounds every cell from below and occurs in some cell. The mask has the matrix's shape and is true exactly where a cell equals the minimum. |
| `Sweep.ReportsOnMarks` | generate_heatmap.py:33-34 | Such a report blanks at least one cell. |
| `Sweep.GenerateSensitivityPlot` | generate_heatmap.py:12-34 | The matrix is 9 x 19. Cell (i, j) is the Sharpe ratio of the run with p = i + 1 and tol = (j + 1) / 100 on the given data. The minimum and mask are as above, and at least one cell is masked. |
| `Sweep.Run` | generate_heatmap.py:45-61 | Fails exactly when the ticker count is not 8, with the length mismatch, before any run. Otherwise it sweeps the prepared data with starting cash 100000 and commission 0.005 and yields the 9 x 19 report. |

## Left out

- The strategy collaborator (`Strategy`, `trade`, `summary_stats`): its
  source is not part of this model. It is an arbitrary function parameter.
  An exception raised inside it would abort the sweep. That is not modelled,
  because the function is total.
- `Sweep.Backtest`: that a run's statistics depend only on its arguments is
  an assumption, not something the source guarantees. Each cell builds a new
  `Strategy`, but every run shares the same `returns_df` and
  `target_weights` objects. A strategy that mutated them, or that used
  global state or randomness, would break it.
- `Sweep.Backtest`: the run name 'Rebalanced' (line 24) and the `dates`
  index (line 13) given to each `Strategy` are not parameters here. A caller
  can capture both inside the `backtest` function it passes in.
- CSV input and output (`read_csv`, `to_csv`) and the axis names
  "Threshold" and "Minkowski p". These are file plumbing and labels. The
  daily return columns and the ticker names are inputs to `Run`.
- Plotting: seaborn's heatmap, the annotation format, the colour map, tick
  strides, `savefig` and closing the figure. The model stops at the data the
  heatmap is drawn from (matrix, minimum, mask).
- Progress bars (`tqdm`): instrumentation only.
- Floating point: metric values are unbounded reals, and tolerances are
  exact hundredths. The drift of `np.arange` before `np.round` is not
  modelled, and neither is rounding in the running product.
- NaN Sharpe ratios: the model's metric is a real, so a run that reports
  NaN is not modelled, and neither is pandas skipping NaN in `min()`. The
  frame's initial NaN cells are modelled, and the sweep overwrites them all.
- `Grid.Axis`: only positive integer steps are modelled. The p axis uses
  step 1. The tolerance axis uses step 0.01 (line 16), which is step 1 only
  once tolerances are counted in hundredths. There is also no range check on
  the bounds: the source has none, and an empty range just gives an empty
  axis.
- `Sweep.SharpeFrame.constructor`: requires distinct labels, and so does
  `SetLoc`. With repeated labels, pandas' `.loc` would write several cells.
  The source's axes are ascending, so this cannot happen.
- `Dataset.Prepare`: the error is pandas' length mismatch between the eight
  weights and the ticker columns. The source does not compare ticker names
  against weight names, so no name-based schema check is modelled. `Prepare`
  takes the daily columns as one list per ticker, as the returns table has.
- The MultiIndex restructuring of the columns (line 57) is represented by
  the `daily` and `cumulative` fields of `ReturnsFrame`.
