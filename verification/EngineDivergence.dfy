/** Where the two crossover engines part: a frame that lacks a range column while stops are on. For
    every such configuration a frame is constructed on which their trades differ, so agreement on all
    frames of a shape holds exactly when the stops are off or both columns are present. */
module EngineDivergence {
  import opened Common
  import opened Indicators
  import opened Crossover
  import opened CrossoverLaws
  import opened WalkForward

  /** `flat` bars at 1, a jump by `d`, then a collapse to a quarter. */
  function Spike(flat: nat, d: real): seq<real> {
    seq(flat + 2, i => if i < flat then 1.0 else if i == flat then 1.0 + d else 0.25)
  }

  function Frame(flat: nat, d: real, hasHigh: bool, hasLow: bool): Bars {
    Bars(Spike(flat, d), if hasHigh then Some(Spike(flat, d)) else None, if hasLow then Some(Spike(flat, d)) else None)
  }

  ghost predicate Witness(b: Bars, c: Config, flat: nat, d: real) {
    && b.close == b.High() == b.Low() == Spike(flat, d)
    && Ready(b, c) && c.fast < c.slow && HasStops(c) && !HasRange(b)
    && flat >= ATR_PERIOD && flat >= c.slow && d > 0.0
    && Sane(c) && c.initialCash > 0.0 && c.risk > 0.0
  }

  lemma {:induction false} FlatSum(x: seq<real>, n: nat)
    requires n <= |x| && forall i :: 0 <= i < n ==> x[i] == 1.0
    ensures SumTrueRange(x, x, x, n) == 0.0
  {
    if n > 0 {
      FlatSum(x, n - 1);
    }
  }

  lemma {:induction false} FlatAtr(x: seq<real>, period: nat, i: nat)
    requires 1 <= period <= i + 1 && i < |x| && forall j :: 0 <= j <= i ==> x[j] == 1.0
    ensures Atr(x, x, x, period, i) == Some(0.0)
  {
    if i + 1 == period {
      FlatSum(x, period);
    } else {
      FlatAtr(x, period, i - 1);
    }
  }

  lemma JumpAtr(x: seq<real>, flat: nat, d: real)
    requires x == Spike(flat, d) && flat >= ATR_PERIOD && d > 0.0
    ensures Atr(x, x, x, ATR_PERIOD, flat) == Some(d / 14.0)
  {
    FlatAtr(x, ATR_PERIOD, flat - 1);
    AtrStep(x, x, x, ATR_PERIOD, flat);
  }

  lemma JumpEma(x: seq<real>, span: int, flat: nat, d: real)
    requires x == Spike(flat, d) && span >= 1 && flat >= 1
    ensures forall i :: 0 <= i < flat ==> Ema(x, span, i) == 1.0
    ensures Ema(x, span, flat) == 1.0 + Scale(Alpha(span), d)
  {
    forall i | 0 <= i < flat ensures Ema(x, span, i) == 1.0 {
      EmaWithinRange(x, span, i, 1.0, 1.0);
    }
    var a := Alpha(span);
    assert Ema(x, span, flat - 1) == 1.0;
    assert Ema(x, span, flat) == a * (1.0 + d) + (1.0 - a) * 1.0;
    MulDistributes(a, 1.0, d);
  }

  lemma ShorterSpanLeads(fast: int, slow: int, d: real)
    requires 1 <= fast < slow && d > 0.0
    ensures Scale(Alpha(slow), d) < Scale(Alpha(fast), d)
  {
    var p, q := fast as real + 1.0, slow as real + 1.0;
    DivMul(2.0, p);
    DivMul(2.0, q);
    var gap := Alpha(fast) - Alpha(slow);
    assert gap * q == 2.0 / p * q - 2.0;
    assert (2.0 / p) * q == (2.0 / p) * p + (2.0 / p) * (q - p);
    MulPos(2.0 / p, q - p);
    if gap <= 0.0 {
      MulNonneg(-gap, q);
    }
    MulPos(gap, d);
  }

  lemma WitnessSignals(b: Bars, c: Config, flat: nat, d: real)
    requires Witness(b, c, flat, d)
    ensures forall i :: 0 <= i < flat ==> !Entry(b, c, i) && !Exit(b, c, i)
    ensures Entry(b, c, flat)
  {
    JumpEma(b.close, c.fast, flat, d);
    JumpEma(b.close, c.slow, flat, d);
    ShorterSpanLeads(c.fast, c.slow, d);
    hide Ema, Alpha, Scale;
    assert Ema(b.close, c.fast, flat - 1) == 1.0 == Ema(b.close, c.slow, flat - 1);
    assert FastAbove(b, c, flat) && !FastAbove(b, c, flat - 1);
    forall i | 0 <= i < flat ensures !FastAbove(b, c, i) {
      assert Ema(b.close, c.fast, i) == 1.0 == Ema(b.close, c.slow, i);
    }
  }

  lemma {:induction false} Idle(b: Bars, c: Config, k: nat)
    requires Ready(b, c) && k <= |b.close|
    requires forall i :: 0 <= i < k ==> !Entry(b, c, i) && !Exit(b, c, i)
    ensures Run(b, c, k) == Start(c)
    ensures UnitRun(b, c, k) == Unit(false, 0.0, 0.0, -c.cooldown - 1, [])
  {
    if k > 0 {
      Idle(b, c, k - 1);
    }
  }

  /** The cash engine buys the jump and is stopped out on the collapse. */
  lemma CashEngineStops(b: Bars, c: Config, flat: nat, d: real)
    requires Witness(b, c, flat, d) && StopAt(b, c, flat) > 0.25
    ensures |Trades(b, c)| == 1 && Trades(b, c)[0].exitPrice == StopAt(b, c, flat)
  {
    WitnessSignals(b, c, flat, d);
    Idle(b, c, flat);
    OpenKeepsBooks(b, c, Start(c), flat) by { BooksBalance(b, c, 0); }
    hide Entry, Exit, StopAt, Worth, Proceeds, Return, Quantity, Invest;
    assert Run(b, c, flat + 1) == OpenAt(b, c, Start(c), flat);
    assert Run(b, c, flat + 2) == Step(b, c, Run(b, c, flat + 1), flat + 1);
  }

  /** The walk-forward engine never sells there above a quarter. */
  lemma UnitEngineDoesNotStop(b: Bars, c: Config, flat: nat, d: real)
    requires Witness(b, c, flat, d)
    ensures forall t :: t in UnitTrades(b, c) ==> t.exitPrice == 0.25
  {
    WitnessSignals(b, c, flat, d);
    Idle(b, c, flat);
    hide Entry, Exit, Worth, Return;
    assert UnitRun(b, c, flat + 1) == Unit(true, b.close[flat], 0.0, -c.cooldown - 1, []);
    assert UnitRun(b, c, flat + 2) == UnitStep(b, c, UnitRun(b, c, flat + 1), flat + 1);
  }

  lemma EnginesDiverge(c: Config, hasHigh: bool, hasLow: bool) returns (b: Bars)
    requires c.fast >= 1 && c.fast < c.slow && HasStops(c) && !(hasHigh && hasLow)
    requires Sane(c) && c.initialCash > 0.0 && c.risk > 0.0
    ensures Ready(b, c) && b.high.Some? == hasHigh && b.low.Some? == hasLow
    ensures !SameTrades(Trades(b, c), UnitTrades(b, c), c.fees)
  {
    var d := 7.0 / c.stopMult;
    DivPos(7.0, c.stopMult);
    DivMul(7.0, c.stopMult);
    var flat: nat := if c.slow >= ATR_PERIOD then c.slow else ATR_PERIOD;
    b := Frame(flat, d, hasHigh, hasLow);
    JumpAtr(b.close, flat, d);
    assert d / 14.0 * c.stopMult == 0.5;
    CashEngineStops(b, c, flat, d);
    UnitEngineDoesNotStop(b, c, flat, d);
    hide Trades, UnitTrades;
    if |UnitTrades(b, c)| == 1 {
      assert UnitTrades(b, c)[0] in UnitTrades(b, c);
    }
  }

  /** Agreement on every frame with the given columns holds exactly when stops are off or both range
      columns are there. */
  lemma AgreementExactlyWhenComparable(c: Config, hasHigh: bool, hasLow: bool)
    requires c.fast >= 1 && c.fast < c.slow
    requires Sane(c) && c.initialCash > 0.0 && c.risk > 0.0
    ensures (forall b: Bars :: Ready(b, c) && b.high.Some? == hasHigh && b.low.Some? == hasLow ==>
               SameTrades(Trades(b, c), UnitTrades(b, c), c.fees))
       <==> (!HasStops(c) || (hasHigh && hasLow))
  {
    if !HasStops(c) || (hasHigh && hasLow) {
      forall b: Bars | Ready(b, c) && b.high.Some? == hasHigh && b.low.Some? == hasLow
        ensures SameTrades(Trades(b, c), UnitTrades(b, c), c.fees)
      {
        CrossEngineAgreement(b, c);
      }
    } else {
      var b := EnginesDiverge(c, hasHigh, hasLow);
    }
  }
}
