/** Metrics of a finished backtest (backtesting/backtest.py, `_calculate_metrics`): drawdown, losing streaks
    and expectancy. */
module BacktestMetrics {
  import opened Common
  import opened Sequences

  // ---------- Drawdown ----------

  /** Highest capital seen up to point `i`. */
  function Peak(initial: real, curve: seq<real>, i: nat): (p: real)
    requires i < |curve|
    ensures p >= initial && p >= curve[i]
  {
    Max(if i == 0 then initial else Peak(initial, curve, i - 1), curve[i])
  }

  /** Fall from `peak` to `level` as a fraction of the peak. */
  function Fall(peak: real, level: real): real
    requires peak > 0.0
  {
    (peak - level) / peak
  }

  /** `worst` is the deepest fall from the running peak over the first `n` points, zero if none falls. */
  ghost predicate DeepestFall(initial: real, curve: seq<real>, n: nat, worst: real)
    requires initial > 0.0 && n <= |curve|
  {
    && worst >= 0.0
    && (forall i :: 0 <= i < n ==> Fall(Peak(initial, curve, i), curve[i]) <= worst)
    && (worst == 0.0 || exists i :: 0 <= i < n && worst == Fall(Peak(initial, curve, i), curve[i]))
  }

  lemma DeepestFallGrows(initial: real, curve: seq<real>, n: nat, worst: real)
    requires initial > 0.0 && n < |curve| && DeepestFall(initial, curve, n, worst)
    ensures DeepestFall(initial, curve, n + 1, Max(worst, Fall(Peak(initial, curve, n), curve[n])))
  {
    hide Fall, Peak;
  }

  method MaxDrawdown(initial: real, curve: seq<real>) returns (worst: real)
    requires initial > 0.0
    ensures DeepestFall(initial, curve, |curve|, worst)
  {
    var peak := initial;
    worst := 0.0;
    for i := 0 to |curve|
      invariant peak == if i == 0 then initial else Peak(initial, curve, i - 1)
      invariant DeepestFall(initial, curve, i, worst)
    {
      hide Fall;
      DeepestFallGrows(initial, curve, i, worst);
      peak := Max(peak, curve[i]);
      var dd := Fall(peak, curve[i]);
      worst := Max(worst, dd);
    }
  }

  lemma {:induction false} PeakDominates(initial: real, curve: seq<real>, i: nat, j: nat)
    requires i <= j < |curve|
    ensures curve[i] <= Peak(initial, curve, j)
  {
    if i < j {
      PeakDominates(initial, curve, i, j - 1);
    }
  }

  lemma FallMonotone(low: real, high: real, level: real)
    requires 0.0 < low <= high && level >= 0.0
    ensures Fall(low, level) <= Fall(high, level)
  {
    var a, b := Fall(low, level), Fall(high, level);
    DivMul(low - level, low);
    DivMul(high - level, high);
    assert (1.0 - a) * low == level && (1.0 - b) * high == level;
    if a > b {
      OrderedProducts(1.0 - a, 1.0 - b, low, high);
    }
  }

  lemma OrderedProducts(x: real, y: real, low: real, high: real)
    requires x < y && 0.0 < low <= high && x * low >= 0.0
    ensures x * low < y * high
  {
    if x < 0.0 {
      MulPos(-x, low);
    }
    MulNonneg(x, high - low);
    MulPos(y - x, high);
  }

  /** While the curve stays non-negative, the reported figure is at least the fall between any earlier and
      any later point, and never more than one. */
  lemma DrawdownCoversEveryPair(initial: real, curve: seq<real>, worst: real)
    requires initial > 0.0 && forall i :: 0 <= i < |curve| ==> curve[i] >= 0.0
    requires DeepestFall(initial, curve, |curve|, worst)
    ensures forall i, j :: 0 <= i <= j < |curve| && curve[i] > 0.0 ==> Fall(curve[i], curve[j]) <= worst
    ensures worst <= 1.0
  {
    forall i, j | 0 <= i <= j < |curve| && curve[i] > 0.0 ensures Fall(curve[i], curve[j]) <= worst {
      PeakDominates(initial, curve, i, j);
      FallMonotone(curve[i], Peak(initial, curve, j), curve[j]);
    }
    if worst != 0.0 {
      var i :| 0 <= i < |curve| && worst == Fall(Peak(initial, curve, i), curve[i]);
      AtMostWhole(Peak(initial, curve, i), curve[i]);
    }
  }

  lemma AtMostWhole(peak: real, level: real)
    requires peak > 0.0 && level >= 0.0
    ensures Fall(peak, level) <= 1.0
  {
    DivNonneg(level, peak);
    assert (peak - level) / peak + level / peak == 1.0;
  }

  // ---------- Losing streaks ----------

  /** `n` consecutive losses ending just before index `end`. */
  predicate Streak(pnls: seq<real>, end: nat, n: nat)
    requires end <= |pnls|
  {
    n <= end && forall i :: end - n <= i < end ==> pnls[i] < 0.0
  }

  /** Length of the losing run that ends just before index `end`. */
  function Ending(pnls: seq<real>, end: nat): (n: nat)
    requires end <= |pnls|
    ensures n <= end
  {
    if end > 0 && pnls[end - 1] < 0.0 then Ending(pnls, end - 1) + 1 else 0
  }

  lemma {:induction false} StreakIsShorter(pnls: seq<real>, end: nat, n: nat)
    requires end <= |pnls|
    ensures Streak(pnls, end, n) <==> n <= Ending(pnls, end)
  {
    if end > 0 && n > 0 {
      StreakIsShorter(pnls, end - 1, n - 1);
      assert Streak(pnls, end, n) <==> pnls[end - 1] < 0.0 && Streak(pnls, end - 1, n - 1);
    }
  }

  /** The longest run of consecutive losses: it occurs, and no longer one does. */
  method MaxConsecutiveLosses(pnls: seq<real>) returns (most: nat)
    ensures exists e: nat :: e <= |pnls| && Streak(pnls, e, most)
    ensures forall e: nat, n: nat :: e <= |pnls| && Streak(pnls, e, n) ==> n <= most
  {
    most := 0;
    var current := 0;
    ghost var where: nat := 0;
    for i := 0 to |pnls|
      invariant current == Ending(pnls, i)
      invariant where <= i && most == Ending(pnls, where)
      invariant forall e: nat :: e <= i ==> Ending(pnls, e) <= most
    {
      if pnls[i] < 0.0 {
        current := current + 1;
        if current > most {
          most, where := current, i + 1;
        }
      } else {
        current := 0;
      }
      assert current == Ending(pnls, i + 1);
    }
    StreakIsShorter(pnls, where, most);
    forall e: nat, n: nat | e <= |pnls| && Streak(pnls, e, n) ensures n <= most {
      StreakIsShorter(pnls, e, n);
    }
  }

  // ---------- Expectancy ----------

  function Average(xs: seq<real>): real {
    if xs == [] then 0.0 else Sum(xs) / |xs| as real
  }

  function Rate(part: nat, whole: nat): real {
    if whole == 0 then 0.0 else part as real / whole as real
  }

  /** Average win times win rate plus average loss times loss rate. */
  function Expectancy(pnls: seq<real>): real {
    Average(Wins(pnls)) * Rate(|Wins(pnls)|, |pnls|) + Average(Losses(pnls)) * Rate(|Losses(pnls)|, |pnls|)
  }

  /** Mean of a part weighted by the part's share is the part's sum over the whole. */
  lemma WeightedAverage(xs: seq<real>, whole: nat)
    requires whole >= 1
    ensures Average(xs) * Rate(|xs|, whole) == Sum(xs) / whole as real
  {
    if xs != [] {
      var n, w := |xs| as real, whole as real;
      DivMul(Sum(xs), n);
      assert Average(xs) * n == Sum(xs);
      QuotientProduct(Average(xs), n, w);
    }
  }

  lemma QuotientProduct(a: real, n: real, w: real)
    requires w != 0.0
    ensures a * (n / w) == a * n / w
  {
    DivMul(n, w);
    MulAssoc(a, n / w, w);
    assert a * (n / w) * w == a * n;
  }

  lemma AddQuotients(a: real, b: real, w: real)
    requires w != 0.0
    ensures a / w + b / w == (a + b) / w
  {
  }

  /** Expectancy is the average profit per trade, break-even trades included. */
  lemma ExpectancyIsAverage(pnls: seq<real>)
    ensures Expectancy(pnls) == Average(pnls)
  {
    if pnls != [] {
      hide Rate, Wins, Losses, Sum;
      assert Average(pnls) == Sum(pnls) / |pnls| as real;
      hide Average;
      WinsAndLosses(pnls);
      WeightedAverage(Wins(pnls), |pnls|);
      WeightedAverage(Losses(pnls), |pnls|);
      AddQuotients(Sum(Wins(pnls)), Sum(Losses(pnls)), |pnls| as real);
      assert Expectancy(pnls) == Average(pnls);
    }
  }
}
