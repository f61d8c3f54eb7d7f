/** The heatmap reporter's arithmetic (generate_heatmap.py, lines 33-38): the
    global minimum of the result matrix, taken as the minimum of the column
    minima, and the mask that blanks every cell equal to it. */
module Report {

  /** A matrix of metric values: rows by p, columns by tolerance. */
  type Matrix = seq<seq<real>>

  /** What the heatmap is drawn from: the matrix, its minimum and the mask. */
  datatype Heatmap = Heatmap(data: Matrix, minSharpe: real, mask: seq<seq<bool>>)

  /** At least one row, at least one column, every row as wide as the first. */
  predicate Rectangular(m: Matrix)
  {
    |m| > 0 && |m[0]| > 0 && forall i :: 0 <= i < |m| ==> |m[i]| == |m[0]|
  }

  /** The smallest value of a non-empty sequence. */
  function SeqMin(s: seq<real>): (v: real)
    requires |s| > 0
    ensures v in s
    ensures forall k :: 0 <= k < |s| ==> v <= s[k]
  {
    if |s| == 1 then s[0]
    else
      var rest := SeqMin(s[1..]);
      if s[0] <= rest then s[0] else rest
  }

  /** Column j of the matrix, top to bottom. */
  function Column(m: Matrix, j: nat): (c: seq<real>)
    requires Rectangular(m) && j < |m[0]|
    ensures |c| == |m|
  {
    seq(|m|, i requires 0 <= i < |m| => m[i][j])
  }

  /** sharpe_df.min(): one entry per column, each below or equal to every
      cell of its column and equal to one of them. */
  function ColumnMins(m: Matrix): (mins: seq<real>)
    requires Rectangular(m)
    ensures |mins| == |m[0]|
    ensures forall j :: 0 <= j < |mins| ==>
      (forall i :: 0 <= i < |m| ==> mins[j] <= m[i][j]) && (exists i :: 0 <= i < |m| && m[i][j] == mins[j])
  {
    var mins := seq(|m[0]|, j requires 0 <= j < |m[0]| => SeqMin(Column(m, j)));
    forall j | 0 <= j < |mins|
      ensures (forall i :: 0 <= i < |m| ==> mins[j] <= m[i][j]) && (exists i :: 0 <= i < |m| && m[i][j] == mins[j])
    {
      var col := Column(m, j);
      assert forall i :: 0 <= i < |m| ==> col[i] == m[i][j];
      var i :| 0 <= i < |col| && col[i] == mins[j];
      assert m[i][j] == mins[j];
    }
    mins
  }

  /** np.min(sharpe_df.min()): the minimum of the column minima, which is
      below or equal to every cell and is the value of some cell. */
  function GlobalMin(m: Matrix): (v: real)
    requires Rectangular(m)
    ensures forall i, j :: 0 <= i < |m| && 0 <= j < |m[i]| ==> v <= m[i][j]
    ensures exists i, j :: 0 <= i < |m| && 0 <= j < |m[i]| && m[i][j] == v
  {
    var mins := ColumnMins(m);
    var v := SeqMin(mins);
    assert forall i, j :: 0 <= i < |m| && 0 <= j < |m[i]| ==> v <= m[i][j] by {
      forall i, j | 0 <= i < |m| && 0 <= j < |m[i]| ensures v <= m[i][j] {
        assert v <= mins[j];
      }
    }
    v
  }

  /** sharpe_df == min_sharpe: true at the cells that equal v, in the shape of m. */
  function EqualityMask(m: Matrix, v: real): (mask: seq<seq<bool>>)
    ensures |mask| == |m|
    ensures forall i :: 0 <= i < |m| ==> |mask[i]| == |m[i]|
  {
    seq(|m|, i requires 0 <= i < |m| => seq(|m[i]|, j requires 0 <= j < |m[i]| => m[i][j] == v))
  }

  /** A cell is minimal when no cell of the matrix is smaller. */
  predicate IsMinimalCell(m: Matrix, i: nat, j: nat)
    requires i < |m| && j < |m[i]|
  {
    forall a, b :: 0 <= a < |m| && 0 <= b < |m[a]| ==> m[i][j] <= m[a][b]
  }

  /** The mask of the global minimum marks exactly the minimal cells, so all
      tied minima are blanked, and it marks at least one cell. */
  lemma MaskMarksMinimalCells(m: Matrix)
    requires Rectangular(m)
    ensures forall i, j :: 0 <= i < |m| && 0 <= j < |m[i]| ==>
      (EqualityMask(m, GlobalMin(m))[i][j] <==> IsMinimalCell(m, i, j))
    ensures exists i, j :: 0 <= i < |m| && 0 <= j < |m[i]| && EqualityMask(m, GlobalMin(m))[i][j]
  {
    var v := GlobalMin(m);
    var mask := EqualityMask(m, v);
    var wi, wj :| 0 <= wi < |m| && 0 <= wj < |m[wi]| && m[wi][wj] == v;
    forall i, j | 0 <= i < |m| && 0 <= j < |m[i]| ensures mask[i][j] <==> IsMinimalCell(m, i, j) {
      if IsMinimalCell(m, i, j) {
        assert m[i][j] <= m[wi][wj];
      }
    }
    assert mask[wi][wj];
  }
}
