/** The two parameter axes of the sensitivity sweep (generate_heatmap.py, lines 15-19).
    Tolerances are kept in integer hundredths, so the axis is exact: the
    value handed to the strategy is TolValue(h) = h / 100. */
module Grid {

  /** The number of values np.arange(lo, hi, step) yields for a positive
      step: ceil((hi - lo) / step), or none when hi <= lo. */
  function AxisLength(lo: int, hi: int, step: int): nat
    requires step > 0
  {
    if hi <= lo then 0 else (hi - lo + step - 1) / step
  }

  /** np.arange(lo, hi, step): lo, lo + step, lo + 2 * step, ... while below hi.
      It is empty exactly when hi <= lo, starts at lo and rises by step. */
  function Axis(lo: int, hi: int, step: int): (r: seq<int>)
    requires step > 0
    ensures |r| == 0 <==> hi <= lo
    ensures |r| > 0 ==> r[0] == lo
    ensures forall k :: 0 < k < |r| ==> r[k] == r[k - 1] + step
  {
    LengthBounds(lo, hi, step);
    var r := seq(AxisLength(lo, hi, step), k => lo + k * step);
    assert forall k :: 0 < k < |r| ==> r[k] == r[k - 1] + step by {
      forall k | 0 < k < |r| ensures r[k] == r[k - 1] + step {
        MulPred(k, step);
      }
    }
    r
  }

  /** Every value of an axis lies in [lo, hi), and one more step after the
      last value would reach hi: no value below hi is left out. */
  lemma AxisShape(lo: int, hi: int, step: int)
    requires step > 0
    ensures forall k :: 0 <= k < |Axis(lo, hi, step)| ==> lo <= Axis(lo, hi, step)[k] < hi
    ensures |Axis(lo, hi, step)| > 0 ==> Axis(lo, hi, step)[|Axis(lo, hi, step)| - 1] + step >= hi
  {
    var a := Axis(lo, hi, step);
    var n := |a|;
    LengthBounds(lo, hi, step);
    forall k | 0 <= k < n ensures lo <= a[k] < hi {
      AxisAt(lo, hi, step, k);
      MulMono(0, k, step);
      MulMono(k, n - 1, step);
    }
    if n > 0 {
      AxisAt(lo, hi, step, n - 1);
      MulPred(n, step);
    }
  }

  /** The bounds that pin down AxisLength: the last value lies below hi,
      and one more step would reach hi. */
  lemma LengthBounds(lo: int, hi: int, step: int)
    requires step > 0
    ensures hi > lo ==> AxisLength(lo, hi, step) >= 1
    ensures hi > lo ==> (AxisLength(lo, hi, step) - 1) * step < hi - lo <= AxisLength(lo, hi, step) * step
  {
    if hi > lo {
      var d := hi - lo;
      var n := (d + step - 1) / step;
      var rem := (d + step - 1) % step;
      assert d + step - 1 == n * step + rem && 0 <= rem < step;
      assert n * step - step == (n - 1) * step;
    }
  }

  lemma MulMono(k: int, m: int, step: int)
    requires 0 <= k <= m && step > 0
    ensures k * step <= m * step
  {
    assert m * step == k * step + (m - k) * step;
  }

  lemma MulPred(k: int, step: int)
    ensures (k - 1) * step == k * step - step
  {
  }

  /** Counting up from lo by step while below hi, one value at a time. */
  function Stepping(lo: int, hi: int, step: int): seq<int>
    requires step > 0
    decreases hi - lo
  {
    if hi <= lo then [] else [lo] + Stepping(lo + step, hi, step)
  }

  /** np.arange agrees with stepping up by hand: no value is skipped or
      added by computing the length up front. */
  lemma {:induction false} AxisIsStepping(lo: int, hi: int, step: int)
    requires step > 0
    ensures Axis(lo, hi, step) == Stepping(lo, hi, step)
    decreases hi - lo
  {
    if hi > lo {
      AxisIsStepping(lo + step, hi, step);
      var a, b := Axis(lo, hi, step), Axis(lo + step, hi, step);
      LengthShift(lo, hi, step);
      forall k | 0 <= k < |b| ensures a[k + 1] == b[k] {
        AxisAt(lo, hi, step, k + 1);
        AxisAt(lo + step, hi, step, k);
        MulPred(k + 1, step);
      }
      assert a == [lo] + b;
    }
  }

  /** Taking one step off the front shortens an axis by exactly one value. */
  lemma LengthShift(lo: int, hi: int, step: int)
    requires step > 0 && hi > lo
    ensures AxisLength(lo + step, hi, step) == AxisLength(lo, hi, step) - 1
  {
    var n, m := AxisLength(lo, hi, step), AxisLength(lo + step, hi, step);
    LengthBounds(lo, hi, step);
    LengthBounds(lo + step, hi, step);
    if m == 0 {
      assert (n - 1) * step < step;
      ZeroFromBound(n - 1, step);
    } else {
      MulPred(m, step);
      MulPred(n, step);
      assert (m + 1) * step == m * step + step;
      UniqueCount(n - 1, m, step);
    }
  }

  lemma ZeroFromBound(k: int, step: int)
    requires k >= 0 && step > 0 && k * step < step
    ensures k == 0
  {
    if k > 0 {
      MulMono(1, k, step);
    }
  }

  /** Two counts that both fit the bounds of LengthBounds coincide. */
  lemma UniqueCount(n: int, m: int, step: int)
    requires n >= 0 && m >= 0 && step > 0
    requires (n - 1) * step < m * step
    requires m * step < (n + 1) * step
    requires (m - 1) * step < n * step
    ensures n == m
  {
    if n < m {
      MulMono(n + 1, m, step);
    } else if m < n {
      MulMono(m + 1, n, step);
    }
  }

  lemma AxisAt(lo: int, hi: int, step: int, k: int)
    requires step > 0 && 0 <= k < |Axis(lo, hi, step)|
    ensures Axis(lo, hi, step)[k] == lo + k * step
  {
  }

  /** The Minkowski p axis, np.arange(1, 10, 1): exactly 1, 2, ..., 9. */
  function PAxis(): (r: seq<int>)
    ensures |r| == 9
    ensures forall k :: 0 <= k < 9 ==> r[k] == k + 1
  {
    var r := Axis(1, 10, 1);
    assert AxisLength(1, 10, 1) == 9;
    assert forall k :: 0 <= k < 9 ==> r[k] == k + 1 by {
      forall k | 0 <= k < 9 ensures r[k] == k + 1 {
        AxisAt(1, 10, 1, k);
      }
    }
    r
  }

  /** The tolerance a hundredths value stands for once rounded to two
      decimals: exactly h hundredths, with no drift. */
  function TolValue(h: int): (v: real)
    ensures v * 100.0 == h as real
  {
    h as real / 100.0
  }

  /** The tolerance axis, np.round(np.arange(0.01, 0.2, 0.01), 2), in
      hundredths: 19 values, k + 1 hundredths at position k, that is
      0.01, 0.02, ..., 0.19 (so 0.10 is exactly ten hundredths). */
  function TolAxis(): (r: seq<int>)
    ensures |r| == 19
    ensures forall k :: 0 <= k < 19 ==> r[k] == k + 1 && TolValue(r[k]) == (k + 1) as real * 0.01
  {
    var r := Axis(1, 20, 1);
    assert AxisLength(1, 20, 1) == 19;
    assert forall k :: 0 <= k < 19 ==> r[k] == k + 1 by {
      forall k | 0 <= k < 19 ensures r[k] == k + 1 {
        AxisAt(1, 20, 1, k);
      }
    }
    r
  }

  /** No value occurs twice, so each label names one row or one column. */
  predicate Distinct(s: seq<int>)
  {
    forall i, j :: 0 <= i < j < |s| ==> s[i] != s[j]
  }

  /** An axis is strictly ascending, hence free of repeated labels. */
  lemma {:induction false} AxisAscending(lo: int, hi: int, step: int)
    requires step > 0
    ensures forall i, j :: 0 <= i < j < |Axis(lo, hi, step)| ==> Axis(lo, hi, step)[i] < Axis(lo, hi, step)[j]
    ensures Distinct(Axis(lo, hi, step))
  {
    var a := Axis(lo, hi, step);
    forall i, j | 0 <= i < j < |a| ensures a[i] < a[j] {
      AxisAt(lo, hi, step, i);
      AxisAt(lo, hi, step, j);
      MulMono(i + 1, j, step);
    }
  }
}
