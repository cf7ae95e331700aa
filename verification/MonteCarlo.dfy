/** Equity curves with absorbing ruin, drawdown and the Wilson interval of the Monte Carlo simulation
    (backtesting/monte_carlo.py). What is drawn at random, orders and noise factors, is a parameter. */
module MonteCarlo {
  import opened Common
  import opened Sequences

  /** Equity after `i` trades as if trading went on through ruin. */
  function Raw(pnls: seq<real>, cash: real, i: nat): real
    requires i <= |pnls|
  {
    cash + Sum(pnls[..i])
  }

  predicate RuinedBy(pnls: seq<real>, cash: real, i: nat)
    requires i <= |pnls|
  {
    exists j: nat :: j <= i && Raw(pnls, cash, j) <= 0.0
  }

  predicate Ruined(pnls: seq<real>, cash: real) {
    RuinedBy(pnls, cash, |pnls|)
  }

  function Level(pnls: seq<real>, cash: real, i: nat): real
    requires i <= |pnls|
  {
    if RuinedBy(pnls, cash, i) then 0.0 else Raw(pnls, cash, i)
  }

  /** The simulated curve: once at or below zero, it stays at zero. */
  function Curve(pnls: seq<real>, cash: real): (r: seq<real>)
    ensures |r| == |pnls| + 1
  {
    seq(|pnls| + 1, i requires 0 <= i <= |pnls| => Level(pnls, cash, i))
  }

  lemma RawNext(pnls: seq<real>, cash: real, i: nat)
    requires i < |pnls|
    ensures Raw(pnls, cash, i + 1) == Raw(pnls, cash, i) + pnls[i]
  {
    assert pnls[..i + 1] == pnls[..i] + [pnls[i]];
    SumSnoc(pnls[..i], pnls[i]);
  }

  method EquityCurve(pnls: seq<real>, cash: real) returns (equity: array<real>)
    ensures fresh(equity) && equity[..] == Curve(pnls, cash)
  {
    var n := |pnls|;
    equity := new real[n + 1];
    hide Sum;
    equity[0] := cash;
    SumNothing();
    assert pnls[..0] == [];
    for i := 0 to n
      invariant forall k {:trigger equity[k]} :: 0 <= k <= i ==> equity[k] == Raw(pnls, cash, k)
    {
      RawNext(pnls, cash, i);
      equity[i + 1] := equity[i] + pnls[i];
    }
    hide Raw;
    var first := 0;
    while first <= n && equity[first] > 0.0
      invariant first <= n + 1
      invariant forall k {:trigger Raw(pnls, cash, k)} :: 0 <= k < first ==> Raw(pnls, cash, k) > 0.0
    {
      first := first + 1;
    }
    for i := first to n + 1
      invariant first <= i
      invariant forall k {:trigger equity[k]} :: 0 <= k < first ==> equity[k] == Raw(pnls, cash, k)
      invariant forall k {:trigger equity[k]} :: first <= k < i ==> equity[k] == 0.0
    {
      equity[i] := 0.0;
    }
    forall k | 0 <= k <= n ensures equity[k] == Level(pnls, cash, k) {
      if k < first {
      } else {
        assert Raw(pnls, cash, first) <= 0.0;
      }
    }
  }

  // ---------- Drawdown ----------

  /** Running maximum of the curve. */
  function Peak(equity: seq<real>, i: nat): (p: real)
    requires i < |equity|
    ensures p >= equity[i] && p >= equity[0]
  {
    if i == 0 then equity[0] else Max(Peak(equity, i - 1), equity[i])
  }

  /** Relative fall from the running maximum, zero where that is not positive. */
  function Drop(equity: seq<real>, i: nat): real
    requires i < |equity|
  {
    var peak := Peak(equity, i);
    if peak > 0.0 then (equity[i] - peak) / peak else 0.0
  }

  function LowestDrop(equity: seq<real>, n: nat): (d: real)
    requires 1 <= n <= |equity|
    ensures exists i :: 0 <= i < n && d == Drop(equity, i)
    ensures forall i :: 0 <= i < n ==> d <= Drop(equity, i)
  {
    if n == 1 then Drop(equity, 0) else Min(LowestDrop(equity, n - 1), Drop(equity, n - 1))
  }

  function MaxDrawdown(equity: seq<real>): real {
    if equity == [] then 0.0 else LowestDrop(equity, |equity|)
  }

  lemma LevelFromDrop(level: real, peak: real)
    requires peak > 0.0
    ensures level == Scale(1.0 + (level - peak) / peak, peak)
  {
    DivMul(level - peak, peak);
  }

  /** A level is its running maximum times one plus its drop. */
  lemma DropMeans(equity: seq<real>, i: nat)
    requires i < |equity| && Peak(equity, i) > 0.0
    ensures equity[i] == Scale(1.0 + Drop(equity, i), Peak(equity, i))
  {
    hide Scale, Peak;
    LevelFromDrop(equity[i], Peak(equity, i));
  }

  lemma {:induction false} PeakAttained(equity: seq<real>, i: nat) returns (j: nat)
    requires i < |equity|
    ensures j <= i && equity[j] == Peak(equity, i)
  {
    if i == 0 {
      j := 0;
    } else {
      j := PeakAttained(equity, i - 1);
      if equity[i] > Peak(equity, i - 1) {
        j := i;
      }
    }
  }

  lemma {:induction false} PeakDominates(equity: seq<real>, i: nat, j: nat)
    requires i <= j < |equity|
    ensures equity[i] <= Peak(equity, j)
  {
    if i < j {
      PeakDominates(equity, i, j - 1);
    }
  }

  /** The maximum drawdown is the deepest relative fall between two points: no later level is below (1 + drawdown)
      times an earlier one, and some later level is exactly that. */
  lemma DrawdownIsDeepestFall(equity: seq<real>) returns (i: nat, j: nat)
    requires equity != [] && equity[0] > 0.0 && forall n :: 0 <= n < |equity| ==> equity[n] >= 0.0
    ensures forall m, n :: 0 <= m <= n < |equity| ==> equity[n] >= Scale(1.0 + MaxDrawdown(equity), equity[m])
    ensures i <= j < |equity| && equity[j] == Scale(1.0 + MaxDrawdown(equity), equity[i])
  {
    j := DeepestDrop(equity);
    DropMeans(equity, j);
    i := PeakAttained(equity, j);
    hide Drop, MaxDrawdown, Scale;
    forall m, n | 0 <= m <= n < |equity| ensures equity[n] >= Scale(1.0 + MaxDrawdown(equity), equity[m]) {
      NoDeeperFall(equity, m, n);
    }
  }

  lemma DeepestDrop(equity: seq<real>) returns (j: nat)
    requires equity != []
    ensures j < |equity| && MaxDrawdown(equity) == Drop(equity, j)
  {
    hide Drop;
    j :| 0 <= j < |equity| && MaxDrawdown(equity) == Drop(equity, j);
  }

  lemma NoDeeperFall(equity: seq<real>, m: nat, n: nat)
    requires m <= n < |equity| && equity[0] > 0.0 && forall k :: 0 <= k < |equity| ==> equity[k] >= 0.0
    ensures equity[n] >= Scale(1.0 + MaxDrawdown(equity), equity[m])
  {
    var j := DeepestDrop(equity);
    DropBounds(equity, j);
    DropMeans(equity, n);
    PeakDominates(equity, m, n);
    DrawdownBelow(equity, n);
    hide Drop, MaxDrawdown, Scale, Peak;
    ProductsOrdered(1.0 + MaxDrawdown(equity), 1.0 + Drop(equity, n), equity[m], Peak(equity, n));
  }

  lemma DrawdownBelow(equity: seq<real>, n: nat)
    requires n < |equity|
    ensures MaxDrawdown(equity) <= Drop(equity, n)
  {
    hide Drop;
  }

  lemma ProductsOrdered(a: real, b: real, x: real, y: real)
    requires 0.0 <= a <= b && 0.0 <= x <= y
    ensures Scale(a, x) <= Scale(b, y)
  {
    MulMono(a, b, x);
    MulMono(x, y, b);
  }

  /** On a non-negative curve from a positive start every drop is in [-1, 0], and -1 just where the curve
      is at zero. */
  lemma DropBounds(equity: seq<real>, i: nat)
    requires i < |equity| && equity[0] > 0.0 && equity[i] >= 0.0
    ensures -1.0 <= Drop(equity, i) <= 0.0
    ensures Drop(equity, i) == -1.0 <==> equity[i] == 0.0
  {
    var peak, d := Peak(equity, i), Drop(equity, i);
    DivMul(equity[i] - peak, peak);
    assert (d + 1.0) * peak == equity[i];
    if d > 0.0 {
      MulPos(d, peak);
    }
    if d + 1.0 < 0.0 {
      MulPos(-(d + 1.0), peak);
    }
    if d + 1.0 > 0.0 {
      MulPos(d + 1.0, peak);
    }
  }

  lemma CurveShape(pnls: seq<real>, cash: real)
    requires cash > 0.0
    ensures Curve(pnls, cash)[0] == cash
    ensures forall i :: 0 <= i <= |pnls| ==> Curve(pnls, cash)[i] >= 0.0
    ensures forall i :: 0 <= i <= |pnls| ==> (Curve(pnls, cash)[i] == 0.0 <==> RuinedBy(pnls, cash, i))
  {
    SumNothing();
    assert pnls[..0] == [];
    hide Sum;
    assert Raw(pnls, cash, 0) == cash;
    hide Raw;
    forall i: nat | i <= |pnls| && !RuinedBy(pnls, cash, i) ensures Raw(pnls, cash, i) > 0.0 {
    }
  }

  /** A simulation's drawdown lies in [-1, 0] and is total exactly if the simulation is ruined. */
  lemma DrawdownTotalExactlyWhenRuined(pnls: seq<real>, cash: real)
    requires cash > 0.0
    ensures -1.0 <= MaxDrawdown(Curve(pnls, cash)) <= 0.0
    ensures MaxDrawdown(Curve(pnls, cash)) == -1.0 <==> Ruined(pnls, cash)
  {
    hide RuinedBy, Drop, Peak;
    var equity := Curve(pnls, cash);
    CurveShape(pnls, cash);
    hide Curve;
    forall i | 0 <= i < |equity|
      ensures -1.0 <= Drop(equity, i) <= 0.0 && (Drop(equity, i) == -1.0 <==> RuinedBy(pnls, cash, i))
    {
      DropBounds(equity, i);
    }
    forall i: nat | i <= |pnls| && RuinedBy(pnls, cash, i) ensures Ruined(pnls, cash) {
      RuinStays(pnls, cash, i);
    }
    assert Drop(equity, |pnls|) == -1.0 <==> Ruined(pnls, cash);
  }

  lemma RuinStays(pnls: seq<real>, cash: real, i: nat)
    requires i <= |pnls| && RuinedBy(pnls, cash, i)
    ensures Ruined(pnls, cash)
  {
    hide Raw;
  }

  // ---------- Final equity and order ----------

  /** The curve ends at zero if ruined and otherwise at cash plus the sum of all trades, in any order. */
  lemma FinalEquity(pnls: seq<real>, order: seq<real>, cash: real)
    requires multiset(order) == multiset(pnls)
    ensures Curve(order, cash)[|order|] == if Ruined(order, cash) then 0.0 else cash + Sum(pnls)
  {
    hide Sum;
    SumPermutes(order, pnls);
    assert order[..|order|] == order;
  }

  /** The sum of a prefix is at least the sum of all losses. */
  lemma {:induction false} PrefixAboveLosses(pnls: seq<real>, i: nat)
    requires i <= |pnls|
    ensures Sum(pnls[..i]) >= Sum(Losses(pnls))
  {
    WinsAndLosses(pnls);
    hide Where, Sum;
    if i == |pnls| {
      assert pnls[..i] == pnls;
    } else {
      var front, x := pnls[..|pnls| - 1], pnls[|pnls| - 1];
      PrefixAboveLosses(front, i);
      assert pnls[..i] == front[..i] && pnls == front + [x];
      WhereSnoc(front, x, Loss);
      SumSnoc(Losses(front), x);
    }
  }

  lemma LossesPermute(pnls: seq<real>, order: seq<real>)
    requires multiset(order) == multiset(pnls)
    ensures Sum(Losses(order)) == Sum(Losses(pnls))
  {
    hide Sum;
    WherePermutes(order, pnls, Loss);
    SumPermutes(Losses(order), Losses(pnls));
  }

  /** All losses first, then the rest. */
  function LossesFirst(pnls: seq<real>): seq<real> {
    Losses(pnls) + Where(pnls, NotLoss)
  }

  /** Every order of the trades survives exactly if the starting cash exceeds the sum of all losses. */
  lemma EveryOrderSurvivesExactlyWhen(pnls: seq<real>, cash: real)
    ensures (forall order: seq<real> :: multiset(order) == multiset(pnls) ==> !Ruined(order, cash))
       <==> cash + Sum(Losses(pnls)) > 0.0
  {
    hide Sum, Where;
    if cash + Sum(Losses(pnls)) > 0.0 {
      forall order: seq<real> | multiset(order) == multiset(pnls) ensures !Ruined(order, cash) {
        LossesPermute(pnls, order);
        forall j: nat | j <= |order| ensures Raw(order, cash, j) > 0.0 {
          PrefixAboveLosses(order, j);
        }
      }
    } else {
      var order := LossesFirst(pnls);
      SplitPermutes(pnls, Loss, NotLoss);
      var j := |Losses(pnls)|;
      assert order[..j] == Losses(pnls);
      assert Raw(order, cash, j) <= 0.0;
      assert Ruined(order, cash);
    }
  }

  /** All gains first, then the rest. */
  function GainsFirst(pnls: seq<real>): seq<real> {
    Wins(pnls) + Where(pnls, NotGain)
  }

  lemma {:induction false} SumSigned(xs: seq<real>)
    ensures (forall x :: x in xs ==> x >= 0.0) ==> Sum(xs) >= 0.0
    ensures (forall x :: x in xs ==> x <= 0.0) ==> Sum(xs) <= 0.0
  {
    if xs != [] {
      var front, last := xs[..|xs| - 1], xs[|xs| - 1];
      SumSigned(front);
      assert last in xs && forall x :: x in front ==> x in xs;
    }
  }

  /** Through the gains the level rises, and from then on it only falls towards its end value. */
  lemma GainsFirstStaysAbove(pnls: seq<real>, i: nat)
    requires i <= |GainsFirst(pnls)|
    ensures Sum(GainsFirst(pnls)[..i]) >= Min(0.0, Sum(GainsFirst(pnls)))
  {
    hide Sum, Where;
    var gains, rest := Wins(pnls), Where(pnls, NotGain);
    var order := GainsFirst(pnls);
    WhereHolds(pnls, Gain);
    WhereHolds(pnls, NotGain);
    if i <= |gains| {
      assert order[..i] == gains[..i];
      assert forall x :: x in gains[..i] ==> x in gains;
      SumSigned(gains[..i]);
    } else {
      var falling := rest[i - |gains|..];
      assert order == order[..i] + falling;
      SumAppend(order[..i], falling);
      forall x | x in falling ensures x <= 0.0 {
        assert x in rest && NotGain(x);
      }
      SumSigned(falling);
    }
  }

  /** Some order of the trades survives exactly if starting cash and final balance are positive. */
  lemma SomeOrderSurvivesExactlyWhen(pnls: seq<real>, cash: real)
    ensures (exists order: seq<real> :: multiset(order) == multiset(pnls) && !Ruined(order, cash))
       <==> cash > 0.0 && cash + Sum(pnls) > 0.0
  {
    SumNothing();
    hide Sum, Where;
    if cash > 0.0 && cash + Sum(pnls) > 0.0 {
      var order := GainsFirst(pnls);
      SplitPermutes(pnls, Gain, NotGain);
      SumPermutes(order, pnls);
      forall j: nat | j <= |order| ensures Raw(order, cash, j) > 0.0 {
        GainsFirstStaysAbove(pnls, j);
      }
      assert !Ruined(order, cash);
    } else {
      forall order: seq<real> | multiset(order) == multiset(pnls) ensures Ruined(order, cash) {
        SumPermutes(order, pnls);
        assert order[..|order|] == order && order[..0] == [];
        assert Raw(order, cash, |order|) == cash + Sum(pnls);
        assert Raw(order, cash, 0) == cash;
      }
    }
  }

  // ---------- The simulation loop ----------

  function Return(final: real, cash: real): real
    requires cash != 0.0
  {
    (final - cash) / cash
  }

  /** The order permutes the indices of the trades. */
  ghost predicate IsShuffle(order: seq<nat>, n: nat) {
    multiset(order) == multiset(Range(n)) && forall i :: i in order ==> i < n
  }

  /** The trades of one simulation: shuffled, and multiplied by the noise factors if there are any. */
  function Shuffled(pnls: seq<real>, order: seq<nat>, noise: Option<seq<real>>): (r: seq<real>)
    requires forall i :: i in order ==> i < |pnls|
    requires noise.Some? ==> |noise.value| == |order|
    ensures |r| == |order|
  {
    if noise.None? then Pick(pnls, order)
    else seq(|order|, i requires 0 <= i < |order| => Scale(Pick(pnls, order)[i], noise.value[i]))
  }

  /** What is drawn for one simulation fits the trades. */
  ghost predicate IsDraw(order: seq<nat>, noise: Option<seq<real>>, n: nat) {
    IsShuffle(order, n) && |order| == n && (noise.Some? ==> |noise.value| == n)
  }

  ghost function ExpectedReturn(pnls: seq<real>, order: seq<nat>, noise: Option<seq<real>>, cash: real): real
    requires cash > 0.0 && IsDraw(order, noise, |pnls|)
  {
    Return(Curve(Shuffled(pnls, order, noise), cash)[|pnls|], cash)
  }

  ghost function ExpectedDrawdown(pnls: seq<real>, order: seq<nat>, noise: Option<seq<real>>, cash: real): real
    requires IsDraw(order, noise, |pnls|)
  {
    MaxDrawdown(Curve(Shuffled(pnls, order, noise), cash))
  }

  method SimulateOne(pnls: seq<real>, order: seq<nat>, noise: Option<seq<real>>, cash: real)
    returns (finalReturn: real, drawdown: real)
    requires cash > 0.0 && IsDraw(order, noise, |pnls|)
    ensures finalReturn == ExpectedReturn(pnls, order, noise, cash)
    ensures drawdown == ExpectedDrawdown(pnls, order, noise, cash)
  {
    hide Return, MaxDrawdown, Curve, Sum, Pick, Scale;
    var shuffled := Pick(pnls, order);
    if noise.Some? {
      shuffled := seq(|order|, i requires 0 <= i < |order| => Scale(shuffled[i], noise.value[i]));
    }
    assert shuffled == Shuffled(pnls, order, noise);
    var equity := EquityCurve(shuffled, cash);
    var final := equity[|shuffled|];
    assert final == equity[..][|shuffled|];
    finalReturn := Return(final, cash);
    drawdown := MaxDrawdown(equity[..]);
  }

  /** One simulation per draw of an order and, if wanted, of noise factors. */
  method Simulate(pnls: seq<real>, draws: seq<(seq<nat>, Option<seq<real>>)>, cash: real)
    returns (finalReturns: array<real>, drawdowns: array<real>)
    requires cash > 0.0 && forall i :: 0 <= i < |draws| ==> IsDraw(draws[i].0, draws[i].1, |pnls|)
    ensures finalReturns.Length == drawdowns.Length == |draws|
    ensures forall i :: 0 <= i < |draws| ==>
              && finalReturns[i] == ExpectedReturn(pnls, draws[i].0, draws[i].1, cash)
              && drawdowns[i] == ExpectedDrawdown(pnls, draws[i].0, draws[i].1, cash)
  {
    hide ExpectedReturn, ExpectedDrawdown, IsDraw;
    finalReturns := new real[|draws|];
    drawdowns := new real[|draws|];
    for i := 0 to |draws|
      modifies finalReturns, drawdowns
      invariant forall k {:trigger finalReturns[k]} :: 0 <= k < i ==>
        finalReturns[k] == ExpectedReturn(pnls, draws[k].0, draws[k].1, cash)
      invariant forall k {:trigger drawdowns[k]} :: 0 <= k < i ==>
        drawdowns[k] == ExpectedDrawdown(pnls, draws[k].0, draws[k].1, cash)
    {
      finalReturns[i], drawdowns[i] := SimulateOne(pnls, draws[i].0, draws[i].1, cash);
    }
  }

  /** Each simulated trade is the shuffled one times its own noise factor, if there is noise. */
  lemma ShuffledMeans(pnls: seq<real>, order: seq<nat>, noise: Option<seq<real>>, i: nat)
    requires IsDraw(order, noise, |pnls|) && i < |pnls|
    ensures var t := Shuffled(pnls, order, noise);
            |t| == |pnls| && order[i] < |pnls|
            && t[i] == pnls[order[i]] * if noise.Some? then noise.value[i] else 1.0
  {
    assert order[i] in order;
    hide Range;
  }

  /** With or without noise: the return is -1 exactly if the simulation is ruined, exactly if its drawdown is
      total; otherwise it is the sum of the simulated trades over the starting cash. */
  lemma SimulationOutcome(pnls: seq<real>, order: seq<nat>, noise: Option<seq<real>>, cash: real)
    requires cash > 0.0 && IsDraw(order, noise, |pnls|)
    ensures var r, trades := ExpectedReturn(pnls, order, noise, cash), Shuffled(pnls, order, noise);
            && (r == -1.0 <==> Ruined(trades, cash))
            && (r == -1.0 <==> ExpectedDrawdown(pnls, order, noise, cash) == -1.0)
            && (r != -1.0 ==> r == Sum(trades) / cash)
  {
    hide Return, Shuffled, Sum, Range, MaxDrawdown;
    var trades := Shuffled(pnls, order, noise);
    DrawdownTotalExactlyWhenRuined(trades, cash);
    FinalEquity(trades, trades, cash);
    hide Curve, Ruined;
    if !Ruined(trades, cash) {
      UnruinedEndsPositive(trades, trades, cash);
    }
    ReturnMeans(Sum(trades), cash);
  }

  /** Without noise every simulation ends in one of two results: total loss, or the sum of all trades over
      the starting cash. The order only decides which. */
  lemma TwoOutcomes(pnls: seq<real>, order: seq<nat>, cash: real)
    requires cash > 0.0 && IsDraw(order, None, |pnls|)
    ensures var r := ExpectedReturn(pnls, order, None, cash);
            && (r == -1.0 <==> Ruined(Pick(pnls, order), cash))
            && (r != -1.0 ==> r == Sum(pnls) / cash)
  {
    hide Pick, Ruined, Sum, ExpectedReturn, ExpectedDrawdown;
    SimulationOutcome(pnls, order, None, cash);
    PickIsPermutation(pnls, order);
    SumPermutes(Pick(pnls, order), pnls);
  }

  lemma UnruinedEndsPositive(pnls: seq<real>, order: seq<real>, cash: real)
    requires multiset(order) == multiset(pnls) && !Ruined(order, cash)
    ensures cash + Sum(pnls) > 0.0
  {
    hide Sum;
    SumPermutes(order, pnls);
    assert order[..|order|] == order;
    assert Raw(order, cash, |order|) > 0.0;
  }

  lemma ReturnMeans(gain: real, cash: real)
    requires cash > 0.0
    ensures Return(0.0, cash) == -1.0
    ensures Return(cash + gain, cash) == gain / cash
    ensures cash + gain > 0.0 ==> gain / cash > -1.0
  {
    DivMul(-cash, cash);
    DivMul(gain, cash);
    if cash + gain > 0.0 {
      if gain / cash <= -1.0 {
        MulMono(gain / cash, -1.0, cash);
      }
    }
  }

  // ---------- Wilson interval ----------

  const Z := 1.96

  /** The estimated share, and the variance term z*z/n of the score interval. */
  function Share(k: nat, n: nat): real
    requires 1 <= n
  {
    k as real / n as real
  }

  function Term(n: nat): (t: real)
    requires 1 <= n
  {
    Z * Z / n as real
  }

  /** `s` is the square root taken in the half-width. */
  predicate IsRoot(s: real, k: nat, n: nat)
    requires 1 <= n
  {
    var p := Share(k, n);
    s >= 0.0 && s * s == (p * (1.0 - p) + Z * Z / (4.0 * n as real)) / n as real
  }

  function Lower(s: real, k: nat, n: nat): real
    requires 1 <= n
  {
    Center(k, n) - Spread(s, n)
  }

  function Upper(s: real, k: nat, n: nat): real
    requires 1 <= n
  {
    Center(k, n) + Spread(s, n)
  }

  function Center(k: nat, n: nat): real
    requires 1 <= n
  {
    var denominator := 1.0 + Z * Z / n as real;
    assert denominator > 0.0 by { DivPos(Z * Z, n as real); }
    (Share(k, n) + Z * Z / (2.0 * n as real)) / denominator
  }

  function Spread(s: real, n: nat): real
    requires 1 <= n
  {
    var denominator := 1.0 + Z * Z / n as real;
    assert denominator > 0.0 by { DivPos(Z * Z, n as real); }
    Z * s / denominator
  }

  lemma SquareOrder(x: real, y: real)
    requires y >= 0.0 && x * x <= y * y
    ensures x <= y
  {
    if x > y {
      MulPos(x - y, x + y);
    }
  }

  /** The quadratic facts behind the interval, for share `p`, term `a` and u*u == a*p*(1-p) + a*a/4. */
  lemma ScoreBounds(p: real, a: real, u: real)
    requires 0.0 <= p <= 1.0 && a > 0.0 && u >= 0.0
    requires u * u == a * (p * (1.0 - p)) + a * a / 4.0
    ensures u <= p + a / 2.0
    ensures u <= 1.0 - p + a / 2.0
    ensures a * (p - 0.5) <= u && a * (0.5 - p) <= u
  {
    UpperSide(p, a, u);
    UpperSide(1.0 - p, a, u);
    InnerSide(p, a, u);
  }

  lemma UpperSide(p: real, a: real, u: real)
    requires 0.0 <= p <= 1.0 && a > 0.0 && u >= 0.0
    requires u * u == a * (p * (1.0 - p)) + a * a / 4.0
    ensures u <= p + a / 2.0
  {
    var y := p + a / 2.0;
    assert y * y == p * p + a * p + a * a / 4.0;
    assert a * (p * (1.0 - p)) == a * p - a * (p * p);
    MulNonneg(p, p);
    MulNonneg(a, p * p);
    SquareOrder(u, y);
  }

  lemma InnerSide(p: real, a: real, u: real)
    requires 0.0 <= p <= 1.0 && a > 0.0 && u >= 0.0
    requires u * u == a * (p * (1.0 - p)) + a * a / 4.0
    ensures a * (p - 0.5) <= u && a * (0.5 - p) <= u
  {
    var q := p * (1.0 - p);
    var x := a * (p - 0.5);
    MulNonneg(p, 1.0 - p);
    MulNonneg(a, q);
    MulNonneg(a * a, q);
    assert (p - 0.5) * (p - 0.5) == 0.25 - q;
    assert x * x == a * a * (0.25 - q);
    assert a * a * (0.25 - q) == a * a / 4.0 - a * a * q;
    SquareOrder(x, u);
    SquareOrder(-x, u);
  }

  lemma RootScales(s: real, k: nat, n: nat)
    requires 1 <= n && k <= n && IsRoot(s, k, n)
    ensures var p, a, u := Share(k, n), Term(n), Z * s;
            u >= 0.0 && u * u == a * (p * (1.0 - p)) + a * a / 4.0
  {
    var p, a, w := Share(k, n), Term(n), n as real;
    var q := p * (1.0 - p);
    assert Z * s * (Z * s) == Z * Z * (s * s);
    DivMul(Z * Z, w);
    DivMul(q + Z * Z / (4.0 * w), w);
    assert Z * Z / (4.0 * w) == a / 4.0;
    assert s * s == (q + a / 4.0) / w;
    assert Z * Z * ((q + a / 4.0) / w) == a * (q + a / 4.0);
  }

  /** The unclamped interval contains the estimate and lies within [0, 1], so the clamps change nothing. */
  lemma WilsonIntervalNeedsNoClamp(s: real, k: nat, n: nat)
    requires 1 <= n && k <= n && IsRoot(s, k, n)
    ensures 0.0 <= Lower(s, k, n) <= Share(k, n) <= Upper(s, k, n) <= 1.0
    ensures Max(0.0, Lower(s, k, n)) == Lower(s, k, n) && Min(1.0, Upper(s, k, n)) == Upper(s, k, n)
  {
    var p, a, u, d := Share(k, n), Term(n), Z * s, 1.0 + Term(n);
    DivPos(Z * Z, n as real);
    ShareBounds(k, n);
    RootScales(s, k, n);
    ScoreBounds(p, a, u);
    HalfTerm(n);
    IntervalBounds(p, a, u);
    assert Center(k, n) == (p + a / 2.0) / d && Spread(s, n) == u / d;
  }

  lemma ScoreRoot(p: real, a: real, u: real, x: real)
    requires a > 0.0 && u * u == a * (p * (1.0 - p)) + a * a / 4.0
    requires x * (1.0 + a) == p + a / 2.0 + u
    ensures (p - x) * (p - x) == a * (x * (1.0 - x))
  {
    var d, m := 1.0 + a, p + a / 2.0;
    var lhs := (p - x) * (p - x) - a * (x * (1.0 - x));
    assert lhs == d * (x * x) - 2.0 * (m * x) + p * p;
    assert d * lhs == (x * d) * (x * d) - 2.0 * (m * (x * d)) + d * (p * p) by {
      assert d * (d * (x * x)) == (x * d) * (x * d);
      assert d * (m * x) == m * (x * d);
      MulDistributes(d, d * (x * x) - 2.0 * (m * x), p * p);
      MulDistributes(d, d * (x * x), -2.0 * (m * x));
    }
    assert (m + u) * (m + u) == m * m + 2.0 * (m * u) + u * u;
    assert m * (m + u) == m * m + m * u;
    assert m * m == p * p + a * p + a * a / 4.0;
    assert a * (p * (1.0 - p)) == a * p - a * (p * p) && d * (p * p) == p * p + a * (p * p);
    assert d * lhs == 0.0;
    if lhs > 0.0 {
      MulPos(d, lhs);
    } else if lhs < 0.0 {
      MulPos(d, -lhs);
    }
  }

  /** The share `x` lies exactly 1.96 standard errors, its own, from the estimate `p` made of `n` draws. */
  predicate SolvesScore(p: real, n: nat, x: real)
    requires 1 <= n
  {
    Scale(p - x, p - x) == Scale(1.96 * 1.96 / n as real, Scale(x, 1.0 - x))
  }

  /** The two ends of the interval are the shares that a score test at 1.96 standard errors just does not
      reject. */
  lemma WilsonEndsSolveScoreEquation(s: real, k: nat, n: nat)
    requires 1 <= n && k <= n && IsRoot(s, k, n)
    ensures SolvesScore(Share(k, n), n, Lower(s, k, n)) && SolvesScore(Share(k, n), n, Upper(s, k, n))
  {
    hide *;
    TermPositive(n);
    RootsOfBothSigns(s, k, n);
    EndsTimesDenominator(s, k, n);
    SolvesFromRoot(Share(k, n), n, Z * s, Upper(s, k, n));
    SolvesFromRoot(Share(k, n), n, -(Z * s), Lower(s, k, n));
  }

  lemma RootsOfBothSigns(s: real, k: nat, n: nat)
    requires 1 <= n && k <= n && IsRoot(s, k, n)
    ensures IsScoreRoot(Share(k, n), n, Z * s) && IsScoreRoot(Share(k, n), n, -(Z * s))
  {
    RootScales(s, k, n);
    hide Share, Term, IsRoot;
    SquareOfMinus(Z * s);
  }

  lemma SquareOfMinus(u: real)
    ensures (-u) * (-u) == u * u
  {
  }

  predicate IsScoreRoot(p: real, n: nat, u: real)
    requires 1 <= n
  {
    u * u == Term(n) * (p * (1.0 - p)) + Term(n) * Term(n) / 4.0
  }

  lemma TermPositive(n: nat)
    requires 1 <= n
    ensures Term(n) > 0.0
  {
    DivPos(Z * Z, n as real);
  }

  lemma SolvesFromRoot(p: real, n: nat, u: real, x: real)
    requires 1 <= n && Term(n) > 0.0 && IsScoreRoot(p, n, u)
    requires x * (1.0 + Term(n)) == p + Term(n) / 2.0 + u
    ensures SolvesScore(p, n, x)
  {
    TermIs(n);
    hide Term;
    ScoreRoot(p, Term(n), u, x);
  }

  lemma TermIs(n: nat)
    requires 1 <= n
    ensures Term(n) == 1.96 * 1.96 / n as real
  {
  }

  lemma EndsTimesDenominator(s: real, k: nat, n: nat)
    requires 1 <= n
    ensures Upper(s, k, n) * (1.0 + Term(n)) == Share(k, n) + Term(n) / 2.0 + Z * s
    ensures Lower(s, k, n) * (1.0 + Term(n)) == Share(k, n) + Term(n) / 2.0 - Z * s
  {
    var d, c, h := 1.0 + Term(n), Share(k, n) + Term(n) / 2.0, Z * s;
    DivPos(Z * Z, n as real);
    HalfTerm(n);
    DivMul(c, d);
    DivMul(h, d);
    assert Center(k, n) == c / d && Spread(s, n) == h / d;
    assert (c / d + h / d) * d == c / d * d + h / d * d;
    assert (c / d - h / d) * d == c / d * d - h / d * d;
  }

  lemma ShareBounds(k: nat, n: nat)
    requires 1 <= n && k <= n
    ensures 0.0 <= Share(k, n) <= 1.0
  {
    DivNonneg(k as real, n as real);
    DivNonneg((n - k) as real, n as real);
    assert k as real / n as real + (n - k) as real / n as real == 1.0;
  }

  lemma HalfTerm(n: nat)
    requires 1 <= n
    ensures Z * Z / (2.0 * n as real) == Term(n) / 2.0
  {
  }

  lemma IntervalBounds(p: real, a: real, u: real)
    requires 0.0 <= p <= 1.0 && a > 0.0 && u >= 0.0
    requires u <= p + a / 2.0 && u <= 1.0 - p + a / 2.0
    requires a * (p - 0.5) <= u && a * (0.5 - p) <= u
    ensures var c, h := (p + a / 2.0) / (1.0 + a), u / (1.0 + a);
            0.0 <= c - h <= p <= c + h <= 1.0
  {
    var d := 1.0 + a;
    assert a * (p - 0.5) == a * p - a / 2.0 && a * (0.5 - p) == a / 2.0 - a * p;
    AddFractions(p + a / 2.0, u, d);
    FractionOrder(p + a / 2.0 - u, d, 0.0);
    FractionOrder(p + a / 2.0 - u, d, p);
    FractionOrder(p + a / 2.0 + u, d, p);
    FractionOrder(p + a / 2.0 + u, d, 1.0);
  }

  lemma AddFractions(x: real, y: real, d: real)
    requires d > 0.0
    ensures (x - y) / d == x / d - y / d && (x + y) / d == x / d + y / d
  {
  }

  lemma FractionOrder(x: real, d: real, y: real)
    requires d > 0.0
    ensures x >= y * d ==> x / d >= y
    ensures x <= y * d ==> x / d <= y
  {
    var f := x / d;
    DivMul(x, d);
    if f > y {
      MulPos(f - y, d);
    } else if f < y {
      MulPos(y - f, d);
    }
  }
}
