/** Moving averages, true range and crossover signals (backtesting/vbt_adapter.py,
    and the array-filling average of backtesting/portfolio_backtest.py). */
module Indicators {
  import opened Common

  // ---------- Exponential moving average ----------

  function Alpha(span: int): (a: real)
    requires span >= 1
    ensures 0.0 < a <= 1.0
  {
    DivPos(2.0, span as real + 1.0);
    2.0 / (span as real + 1.0)
  }

  function Ema(x: seq<real>, span: int, i: nat): real
    requires span >= 1 && i < |x|
  {
    if i == 0 then x[0] else Alpha(span) * x[i] + (1.0 - Alpha(span)) * Ema(x, span, i - 1)
  }

  /** The array-filling loop computes the recursion at every index. */
  method ComputeEma(series: seq<real>, span: int) returns (ema: array<real>)
    requires span >= 1 && |series| >= 1
    ensures fresh(ema) && ema.Length == |series|
    ensures forall i :: 0 <= i < |series| ==> ema[i] == Ema(series, span, i)
  {
    var alpha := 2.0 / (span as real + 1.0);
    ema := new real[|series|];
    ema[0] := series[0];
    for i := 1 to |series|
      invariant alpha == Alpha(span)
      invariant forall j :: 0 <= j < i ==> ema[j] == Ema(series, span, j)
    {
      ema[i] := alpha * series[i] + (1.0 - alpha) * ema[i - 1];
      assert ema[i] == Ema(series, span, i);
    }
  }

  /** The average at bar `i` is decided by the first `i + 1` prices alone. */
  lemma {:induction false} EmaCausal(x: seq<real>, y: seq<real>, span: int, i: nat)
    requires span >= 1 && i < |x| && i < |y|
    requires forall j :: 0 <= j <= i ==> x[j] == y[j]
    ensures Ema(x, span, i) == Ema(y, span, i)
  {
    if i > 0 {
      EmaCausal(x, y, span, i - 1);
    }
  }

  function Power(b: real, n: nat): real {
    if n == 0 then 1.0 else b * Power(b, n - 1)
  }

  /** Weight of observation `j` in the average at bar `i`, as pandas documents it for
      adjust=False: the seed keeps the undecayed weight, later ones start at alpha. */
  function Weight(span: int, i: nat, j: nat): real
    requires span >= 1 && j <= i
  {
    if j == 0 then Power(1.0 - Alpha(span), i) else Alpha(span) * Power(1.0 - Alpha(span), i - j)
  }

  function WeightedSum(x: seq<real>, span: int, i: nat, upto: nat): real
    requires span >= 1 && i < |x| && upto <= i + 1
  {
    if upto == 0 then 0.0 else WeightedSum(x, span, i, upto - 1) + Scale(Weight(span, i, upto - 1), x[upto - 1])
  }

  lemma WeightDecays(span: int, i: nat, j: nat)
    requires span >= 1 && j < i
    ensures Weight(span, i, j) == Scale(1.0 - Alpha(span), Weight(span, i - 1, j))
  {
    var d := 1.0 - Alpha(span);
    if j > 0 {
      MulAssoc(Alpha(span), d, Power(d, i - 1 - j));
      MulAssoc(d, Alpha(span), Power(d, i - 1 - j));
    }
  }

  lemma {:induction false} WeightedSumDecays(x: seq<real>, span: int, i: nat, upto: nat)
    requires span >= 1 && 1 <= i < |x| && upto <= i
    ensures WeightedSum(x, span, i, upto) == Scale(1.0 - Alpha(span), WeightedSum(x, span, i - 1, upto))
  {
    if upto > 0 {
      WeightedSumDecays(x, span, i, upto - 1);
      var j := upto - 1;
      var d := 1.0 - Alpha(span);
      WeightDecays(span, i, j);
      hide Weight, Alpha, Scale;
      ScaleFactor(d, WeightedSum(x, span, i - 1, j), Weight(span, i - 1, j), x[j]);
    }
  }

  /** Recursion and exponentially weighted sum are the same number. */
  lemma {:induction false} EmaIsWeightedSum(x: seq<real>, span: int, i: nat)
    requires span >= 1 && i < |x|
    ensures Ema(x, span, i) == WeightedSum(x, span, i, i + 1)
  {
    if i == 0 {
      assert WeightedSum(x, span, 0, 0) == 0.0;
      assert Weight(span, 0, 0) == 1.0;
    } else {
      EmaIsWeightedSum(x, span, i - 1);
      WeightedSumDecays(x, span, i, i);
      assert Power(1.0 - Alpha(span), 0) == 1.0;
      assert Weight(span, i, i) == Alpha(span);
    }
  }

  lemma MixWithin(a: real, x: real, e: real, lo: real, hi: real)
    requires 0.0 <= a <= 1.0 && lo <= x <= hi && lo <= e <= hi
    ensures lo <= a * x + (1.0 - a) * e <= hi
  {
    MulNonneg(a, x - lo);
    MulNonneg(1.0 - a, e - lo);
    MulNonneg(a, hi - x);
    MulNonneg(1.0 - a, hi - e);
    assert a * (x - lo) + (1.0 - a) * (e - lo) == a * x + (1.0 - a) * e - lo;
    assert a * (hi - x) + (1.0 - a) * (hi - e) == hi - (a * x + (1.0 - a) * e);
  }

  /** The average never leaves the range of the prices it has seen. */
  lemma {:induction false} EmaWithinRange(x: seq<real>, span: int, i: nat, lo: real, hi: real)
    requires span >= 1 && i < |x|
    requires forall j :: 0 <= j <= i ==> lo <= x[j] <= hi
    ensures lo <= Ema(x, span, i) <= hi
  {
    if i > 0 {
      EmaWithinRange(x, span, i - 1, lo, hi);
      var a, e := Alpha(span), Ema(x, span, i - 1);
      MixWithin(a, x[i], e, lo, hi);
    }
  }

  // ---------- Average true range ----------

  function TrueRange(high: seq<real>, low: seq<real>, close: seq<real>, i: nat): real
    requires |high| == |low| == |close| && i < |close|
  {
    if i == 0 then high[0] - low[0]
    else Max(high[i] - low[i], Max(Abs(high[i] - close[i - 1]), Abs(low[i] - close[i - 1])))
  }

  function SumTrueRange(high: seq<real>, low: seq<real>, close: seq<real>, n: nat): real
    requires |high| == |low| == |close| && n <= |close|
  {
    if n == 0 then 0.0 else SumTrueRange(high, low, close, n - 1) + TrueRange(high, low, close, n - 1)
  }

  function Mean(sum: real, count: nat): real
    requires count >= 1
  {
    sum / count as real
  }

  /** One smoothing step over `period` bars. */
  function Smooth(prev: real, tr: real, period: nat): real
    requires period >= 1
  {
    (prev * (period as real - 1.0) + tr) / period as real
  }

  lemma SmoothNonneg(prev: real, tr: real, period: nat)
    requires period >= 1 && prev >= 0.0 && tr >= 0.0
    ensures Smooth(prev, tr, period) >= 0.0
  {
    MulNonneg(prev, period as real - 1.0);
    DivNonneg(prev * (period as real - 1.0) + tr, period as real);
  }

  /** Wilder's average: undefined (NaN) before `period` bars, their mean at that bar,
      smoothed afterwards. */
  function Atr(high: seq<real>, low: seq<real>, close: seq<real>, period: nat, i: nat): Option<real>
    requires |high| == |low| == |close| && i < |close| && period >= 1
  {
    if i + 1 < period then None
    else if i + 1 == period then Some(Mean(SumTrueRange(high, low, close, period), period))
    else
      var prev := Atr(high, low, close, period, i - 1);
      if prev.None? then None else Some(Smooth(prev.value, TrueRange(high, low, close, i), period))
  }

  method TrueRanges(high: seq<real>, low: seq<real>, close: seq<real>) returns (tr: array<real>)
    requires |high| == |low| == |close| && |close| >= 1
    ensures fresh(tr) && tr.Length == |close|
    ensures forall i :: 0 <= i < |close| ==> tr[i] == TrueRange(high, low, close, i)
  {
    var n := |close|;
    tr := new real[n];
    tr[0] := high[0] - low[0];
    for i := 1 to n
      invariant forall j :: 0 <= j < i ==> tr[j] == TrueRange(high, low, close, j)
    {
      tr[i] := Max(high[i] - low[i], Max(Abs(high[i] - close[i - 1]), Abs(low[i] - close[i - 1])));
    }
  }

  lemma AtrStep(high: seq<real>, low: seq<real>, close: seq<real>, period: nat, i: nat)
    requires |high| == |low| == |close| && 1 <= period <= i < |close|
    requires Atr(high, low, close, period, i - 1).Some?
    ensures Atr(high, low, close, period, i)
         == Some(Smooth(Atr(high, low, close, period, i - 1).value, TrueRange(high, low, close, i), period))
  {
  }

  method SeedMean(tr: array<real>, high: seq<real>, low: seq<real>, close: seq<real>, period: nat) returns (mean: real)
    requires |high| == |low| == |close| == tr.Length && 1 <= period <= |close|
    requires forall i :: 0 <= i < |close| ==> tr[i] == TrueRange(high, low, close, i)
    ensures mean == Mean(SumTrueRange(high, low, close, period), period)
  {
    var sum := 0.0;
    for i := 0 to period
      invariant sum == SumTrueRange(high, low, close, i)
    {
      sum := sum + tr[i];
    }
    mean := Mean(sum, period);
  }

  method ComputeAtr(high: seq<real>, low: seq<real>, close: seq<real>, period: nat) returns (atr: array<Option<real>>)
    requires |high| == |low| == |close| && |close| >= 1 && period >= 1
    ensures fresh(atr) && atr.Length == |close|
    ensures forall i {:trigger atr[i]} :: 0 <= i < |close| ==> atr[i] == Atr(high, low, close, period, i)
  {
    var n := |close|;
    var tr := TrueRanges(high, low, close);
    atr := new Option<real>[n](_ => None);
    if n >= period {
      var mean := SeedMean(tr, high, low, close, period);
      atr[period - 1] := Some(mean);
      for i := period to n
        invariant forall j {:trigger atr[j]} :: 0 <= j < i ==> atr[j] == Atr(high, low, close, period, j)
        invariant atr[i - 1].Some?
        modifies atr
      {
        var next := Smooth(atr[i - 1].value, tr[i], period);
        assert Atr(high, low, close, period, i) == Some(next) by { AtrStep(high, low, close, period, i); }
        atr[i] := Some(next);
      }
    }
  }

  /** True range needs an ordered first bar to be non-negative; later bars take an
      absolute value, so they need nothing. */
  lemma {:induction false} SumTrueRangeNonneg(high: seq<real>, low: seq<real>, close: seq<real>, n: nat)
    requires |high| == |low| == |close| && n <= |close|
    requires n > 0 ==> low[0] <= high[0]
    ensures SumTrueRange(high, low, close, n) >= 0.0
  {
    if n > 0 {
      SumTrueRangeNonneg(high, low, close, n - 1);
    }
  }

  lemma {:induction false} AtrNonneg(high: seq<real>, low: seq<real>, close: seq<real>, period: nat, i: nat)
    requires |high| == |low| == |close| && i < |close| && period >= 1
    requires low[0] <= high[0]
    ensures Atr(high, low, close, period, i).Some? <==> period <= i + 1
    ensures period <= i + 1 ==> Atr(high, low, close, period, i).value >= 0.0
    decreases i
  {
    if i + 1 == period {
      SumTrueRangeNonneg(high, low, close, period);
      DivNonneg(SumTrueRange(high, low, close, period), period as real);
    } else if i + 1 > period {
      AtrNonneg(high, low, close, period, i - 1);
      SmoothNonneg(Atr(high, low, close, period, i - 1).value, TrueRange(high, low, close, i), period);
    }
  }

  lemma {:induction false} SumTrueRangeCausal(
      h: seq<real>, l: seq<real>, c: seq<real>, h': seq<real>, l': seq<real>, c': seq<real>, n: nat)
    requires |h| == |l| == |c| && |h'| == |l'| == |c'| && n <= |c| && n <= |c'|
    requires h[..n] == h'[..n] && l[..n] == l'[..n] && c[..n] == c'[..n]
    ensures SumTrueRange(h, l, c, n) == SumTrueRange(h', l', c', n)
  {
    if n > 0 {
      assert h[..n][..n - 1] == h[..n - 1] && l[..n][..n - 1] == l[..n - 1] && c[..n][..n - 1] == c[..n - 1];
      assert h'[..n][..n - 1] == h'[..n - 1] && l'[..n][..n - 1] == l'[..n - 1] && c'[..n][..n - 1] == c'[..n - 1];
      SumTrueRangeCausal(h, l, c, h', l', c', n - 1);
      TrueRangeCausal(h, l, c, h', l', c', n - 1);
    }
  }

  lemma TrueRangeCausal(h: seq<real>, l: seq<real>, c: seq<real>, h': seq<real>, l': seq<real>, c': seq<real>, i: nat)
    requires |h| == |l| == |c| && |h'| == |l'| == |c'| && i < |c| && i < |c'|
    requires h[..i + 1] == h'[..i + 1] && l[..i + 1] == l'[..i + 1] && c[..i + 1] == c'[..i + 1]
    ensures TrueRange(h, l, c, i) == TrueRange(h', l', c', i)
  {
    assert h[..i + 1][i] == h'[..i + 1][i] && l[..i + 1][i] == l'[..i + 1][i];
    if i > 0 {
      assert c[..i + 1][i - 1] == c'[..i + 1][i - 1];
    }
  }

  /** The average true range at bar `i` is decided by bars up to `i` alone. */
  lemma {:induction false} AtrCausal(
      h: seq<real>, l: seq<real>, c: seq<real>, h': seq<real>, l': seq<real>, c': seq<real>, period: nat, i: nat)
    requires |h| == |l| == |c| && |h'| == |l'| == |c'| && i < |c| && i < |c'| && period >= 1
    requires h[..i + 1] == h'[..i + 1] && l[..i + 1] == l'[..i + 1] && c[..i + 1] == c'[..i + 1]
    ensures Atr(h, l, c, period, i) == Atr(h', l', c', period, i)
  {
    if i + 1 == period {
      SumTrueRangeCausal(h, l, c, h', l', c', period);
    } else if i + 1 > period {
      assert h[..i + 1][..i] == h[..i] && l[..i + 1][..i] == l[..i] && c[..i + 1][..i] == c[..i];
      assert h'[..i + 1][..i] == h'[..i] && l'[..i + 1][..i] == l'[..i] && c'[..i + 1][..i] == c'[..i];
      AtrCausal(h, l, c, h', l', c', period, i - 1);
      TrueRangeCausal(h, l, c, h', l', c', i);
    }
  }

  /** True range is the width of the bar stretched to the previous close. */
  lemma TrueRangeIsSpan(high: seq<real>, low: seq<real>, close: seq<real>, i: nat)
    requires |high| == |low| == |close| && 1 <= i < |close| && low[i] <= high[i]
    ensures TrueRange(high, low, close, i) == Max(high[i], close[i - 1]) - Min(low[i], close[i - 1])
  {
  }

  lemma ScaleNext(n: nat, x: real)
    ensures Scale((n + 1) as real, x) == Scale(n as real, x) + x
    ensures Scale(0.0, x) == 0.0
  {
    assert (n + 1) as real == n as real + 1.0;
  }

  lemma {:induction false} SumTrueRangeWithin(
      high: seq<real>, low: seq<real>, close: seq<real>, n: nat, lo: real, hi: real)
    requires |high| == |low| == |close| && n <= |close|
    requires forall j :: 0 <= j < n ==> lo <= TrueRange(high, low, close, j) <= hi
    ensures Scale(n as real, lo) <= SumTrueRange(high, low, close, n) <= Scale(n as real, hi)
  {
    hide Scale, TrueRange;
    if n == 0 {
      ScaleNext(0, lo);
      ScaleNext(0, hi);
    } else {
      SumTrueRangeWithin(high, low, close, n - 1, lo, hi);
      ScaleNext(n - 1, lo);
      ScaleNext(n - 1, hi);
    }
  }

  lemma QuotientWithin(x: real, d: real, lo: real, hi: real)
    requires d > 0.0 && Scale(d, lo) <= x <= Scale(d, hi)
    ensures lo <= x / d <= hi
  {
    var q := x / d;
    DivMul(x, d);
    if q < lo {
      MulPos(lo - q, d);
    }
    if q > hi {
      MulPos(q - hi, d);
    }
  }

  lemma SmoothWithin(prev: real, tr: real, period: nat, lo: real, hi: real)
    requires period >= 1 && lo <= prev <= hi && lo <= tr <= hi
    ensures lo <= Smooth(prev, tr, period) <= hi
  {
    var p := period as real;
    MulMono(lo, prev, p - 1.0);
    MulMono(prev, hi, p - 1.0);
    assert p * lo == lo * (p - 1.0) + lo && p * hi == hi * (p - 1.0) + hi;
    QuotientWithin(prev * (p - 1.0) + tr, p, lo, hi);
  }

  /** The average true range never leaves the range of the true ranges it averages. */
  lemma {:induction false} AtrWithinRange(
      high: seq<real>, low: seq<real>, close: seq<real>, period: nat, i: nat, lo: real, hi: real)
    requires |high| == |low| == |close| && period >= 1 && period <= i + 1 && i < |close|
    requires forall j :: 0 <= j <= i ==> lo <= TrueRange(high, low, close, j) <= hi
    ensures Atr(high, low, close, period, i).Some? && lo <= Atr(high, low, close, period, i).value <= hi
    decreases i
  {
    hide TrueRange, SumTrueRange, Smooth;
    if i + 1 == period {
      SumTrueRangeWithin(high, low, close, period, lo, hi);
      QuotientWithin(SumTrueRange(high, low, close, period), period as real, lo, hi);
    } else {
      AtrWithinRange(high, low, close, period, i - 1, lo, hi);
      AtrStep(high, low, close, period, i);
      SmoothWithin(Atr(high, low, close, period, i - 1).value, TrueRange(high, low, close, i), period, lo, hi);
    }
  }
}
