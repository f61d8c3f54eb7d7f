/** Dataset preparation in run() (generate_heatmap.py, lines 55-59): the daily
    returns, one column per ticker, their cumulative growth
    (daily + 1).cumprod(), and the target-weight series aligned with the
    tickers. */
module Dataset {

  /** The eight target weights, in ticker order. */
  const TargetWeightValues: seq<real> := [0.25, 0.25, 0.125, 0.125, 0.04, 0.035, 0.125, 0.05]

  /** pd.Series(data=..., index=tickers): one weight per ticker label. */
  datatype WeightSeries = WeightSeries(index: seq<string>, data: seq<real>)

  /** The returns table: per ticker a column of daily returns and the
      matching column of cumulative growth factors. */
  datatype ReturnsFrame = ReturnsFrame(tickers: seq<string>, daily: seq<seq<real>>, cumulative: seq<seq<real>>)

  /** pandas refuses a Series whose data and index differ in length. */
  datatype Error = LengthMismatch(values: nat, index: nat)

  datatype Result<T> = Ok(value: T) | Err(error: Error)

  /** A growth factor carried through one more day with return r. */
  function Compound(factor: real, r: real): real
  {
    factor * (1.0 + r)
  }

  /** The growth factor over a run of returns: the product of (1 + r). */
  function Growth(s: seq<real>): real
  {
    if |s| == 0 then 1.0 else Compound(Growth(s[..|s| - 1]), s[|s| - 1])
  }

  /** (s + 1).cumprod() on one column, built one entry at a time: each entry
      is the previous one (1 before the first) times 1 plus that day's return. */
  function CumProd(s: seq<real>): (r: seq<real>)
    ensures |r| == |s|
    ensures |s| > 0 ==> r[0] == 1.0 + s[0]
  {
    if |s| == 0 then []
    else
      var prev := CumProd(s[..|s| - 1]);
      prev + [Compound(if |s| == 1 then 1.0 else prev[|s| - 2], s[|s| - 1])]
  }

  /** Entry t of the running product is the growth over days 0 .. t. */
  lemma {:induction false} CumProdIsGrowth(s: seq<real>, t: nat)
    requires t < |s|
    ensures CumProd(s)[t] == Growth(s[..t + 1])
    decreases |s|
  {
    var init := s[..|s| - 1];
    if t < |s| - 1 {
      CumProdIsGrowth(init, t);
      assert init[..t + 1] == s[..t + 1];
    } else if t > 0 {
      CumProdIsGrowth(init, t - 1);
      assert init[..t] == s[..t + 1][..t];
      assert s[..t + 1][..t] == init;
    } else {
      assert s[..1][..0] == [];
    }
  }

  /** The running product of a prefix is the prefix of the running product:
      later days never change earlier entries. */
  lemma {:induction false} CumProdPrefix(s: seq<real>, t: nat)
    requires t <= |s|
    ensures CumProd(s[..t]) == CumProd(s)[..t]
    decreases |s|
  {
    if t < |s| {
      var init := s[..|s| - 1];
      CumProdPrefix(init, t);
      assert init[..t] == s[..t];
    } else {
      assert s[..t] == s;
    }
  }

  /** Appending a day appends one entry: the last entry so far (1 before
      the first day) carried through the new day. */
  lemma CumProdSnoc(s: seq<real>, x: real)
    ensures CumProd(s + [x]) == CumProd(s) + [Compound(if |s| == 0 then 1.0 else CumProd(s)[|s| - 1], x)]
  {
    var t := s + [x];
    assert t[..|t| - 1] == s;
  }

  /** One step of the recurrence, at day t. */
  lemma CumProdStep(s: seq<real>, t: nat)
    requires 0 < t < |s|
    ensures CumProd(s)[t] == Compound(CumProd(s)[t - 1], s[t])
  {
    var upTo := s[..t + 1];
    CumProdIsGrowth(s, t);
    CumProdIsGrowth(s, t - 1);
    assert upTo[..t] == s[..t];
    assert Growth(upTo) == Compound(Growth(s[..t]), s[t]);
  }

  /** The running product starts at 1 + daily[0] and multiplies in one more
      (1 + daily[t]) per day. */
  lemma CumProdRecurrence(s: seq<real>)
    ensures |s| > 0 ==> CumProd(s)[0] == 1.0 + s[0]
    ensures forall t :: 0 < t < |s| ==> CumProd(s)[t] == Compound(CumProd(s)[t - 1], s[t])
  {
    if |s| > 0 {
      CumProdPrefix(s, 1);
      assert s[..1] == [] + [s[0]];
      CumProdSnoc([], s[0]);
    }
    forall t | 0 < t < |s| ensures CumProd(s)[t] == Compound(CumProd(s)[t - 1], s[t]) {
      CumProdStep(s, t);
    }
  }

  /** The cumulative column computed in place over the daily column. */
  method CumProdInPlace(a: array<real>)
    modifies a
    ensures a[..] == CumProd(old(a[..]))
  {
    ghost var daily := a[..];
    var i := 0;
    while i < a.Length
      invariant 0 <= i <= a.Length
      invariant a[..i] == CumProd(daily[..i])
      invariant forall k :: i <= k < a.Length ==> a[k] == daily[k]
    {
      var prev := if i == 0 then 1.0 else a[i - 1];
      ghost var done := a[..i];
      a[i] := prev * (1.0 + a[i]);
      assert a[i] == Compound(prev, daily[i]);
      assert a[..i + 1] == done + [a[i]];
      assert daily[..i + 1] == daily[..i] + [daily[i]];
      CumProdSnoc(daily[..i], daily[i]);
      i := i + 1;
    }
    assert daily[..a.Length] == daily;
    assert a[..a.Length] == a[..];
  }

  /** (returns_df['daily'] + 1).cumprod(): every column's running product. */
  function Cumulative(daily: seq<seq<real>>): (cum: seq<seq<real>>)
    ensures |cum| == |daily|
    ensures forall c :: 0 <= c < |daily| ==> |cum[c]| == |daily[c]|
  {
    seq(|daily|, c requires 0 <= c < |daily| => CumProd(daily[c]))
  }

  /** Each cumulative entry is that ticker's growth over days 0 .. t. */
  lemma CumulativeIsGrowth(daily: seq<seq<real>>)
    ensures forall c, t :: 0 <= c < |daily| && 0 <= t < |daily[c]| ==>
      Cumulative(daily)[c][t] == Growth(daily[c][..t + 1])
  {
    forall c, t | 0 <= c < |daily| && 0 <= t < |daily[c]|
      ensures Cumulative(daily)[c][t] == Growth(daily[c][..t + 1])
    {
      CumProdIsGrowth(daily[c], t);
    }
  }

  function Sum(s: seq<real>): real
  {
    if s == [] then 0.0 else s[0] + Sum(s[1..])
  }

  /** The target weights: eight non-negative fractions that sum to 1. */
  lemma TargetWeightsAreFractions()
    ensures |TargetWeightValues| == 8
    ensures forall k :: 0 <= k < 8 ==> 0.0 <= TargetWeightValues[k] <= 1.0
    ensures Sum(TargetWeightValues) == 1.0
  {
    var w := TargetWeightValues;
    assert Sum(w[7..]) == 0.05;
    assert Sum(w[6..]) == 0.175;
    assert Sum(w[5..]) == 0.21;
    assert Sum(w[4..]) == 0.25;
    assert Sum(w[3..]) == 0.375;
    assert Sum(w[2..]) == 0.5;
    assert Sum(w[1..]) == 0.75;
  }

  /** The weight series for the tickers: pandas pairs the eight values with
      the ticker labels one to one, and refuses any other number of tickers. */
  function TargetWeights(tickers: seq<string>): (r: Result<WeightSeries>)
    ensures r.Ok? <==> |tickers| == |TargetWeightValues|
    ensures r.Ok? ==> r.value.index == tickers && |r.value.data| == |tickers|
    ensures r.Ok? ==> forall k :: 0 <= k < |tickers| ==> r.value.data[k] == TargetWeightValues[k]
    ensures r.Err? ==> r.error == LengthMismatch(8, |tickers|)
  {
    if |tickers| == |TargetWeightValues| then Ok(WeightSeries(tickers, TargetWeightValues))
    else Err(LengthMismatch(|TargetWeightValues|, |tickers|))
  }

  /** Lines 55-59 of run(): with exactly eight tickers, the returns table
      gains its cumulative columns and the weights are paired with the
      tickers; any other ticker count fails before a sweep begins. */
  function Prepare(tickers: seq<string>, daily: seq<seq<real>>): (r: Result<(ReturnsFrame, WeightSeries)>)
    requires |daily| == |tickers|
    ensures r.Ok? <==> |tickers| == 8
    ensures r.Err? ==> r.error == LengthMismatch(8, |tickers|)
    ensures r.Ok? ==> r.value.0.tickers == tickers && r.value.0.daily == daily
    ensures r.Ok? ==> |r.value.0.cumulative| == 8
    ensures r.Ok? ==> forall c :: 0 <= c < 8 ==> |r.value.0.cumulative[c]| == |daily[c]|
    ensures r.Ok? ==> forall c, t :: 0 <= c < 8 && 0 <= t < |daily[c]| ==>
      r.value.0.cumulative[c][t] == Growth(daily[c][..t + 1])
    ensures r.Ok? ==> r.value.1.index == tickers && r.value.1.data == TargetWeightValues
  {
    match TargetWeights(tickers)
    case Err(e) => Err(e)
    case Ok(w) =>
      CumulativeIsGrowth(daily);
      Ok((ReturnsFrame(tickers, daily, Cumulative(daily)), w))
  }
}
