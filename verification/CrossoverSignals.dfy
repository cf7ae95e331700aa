/** The signals and stop levels of the crossover simulator, told from the prices: crossings of two exponentially
    weighted sums, and the entry close less a multiple of the average true range. */
module CrossoverSignals {
  import opened Common
  import opened Indicators
  import opened Crossover
  import opened CrossoverLaws

  /** The fast weighted sum of the closes up to bar `i` is above the slow one. */
  predicate Leads(b: Bars, c: Config, i: nat)
    requires Ready(b, c) && i < |b.close|
  {
    WeightedSum(b.close, c.fast, i, i + 1) > WeightedSum(b.close, c.slow, i, i + 1)
  }

  /** An entry signal is the first bar on which the fast sum leads again, an exit signal the first on which it
      does not; there is none on the first bar. */
  lemma SignalsAreCrossings(b: Bars, c: Config, i: nat)
    requires Ready(b, c) && i < |b.close|
    ensures Entry(b, c, i) <==> i >= 1 && Leads(b, c, i) && !Leads(b, c, i - 1)
    ensures Exit(b, c, i) <==> i >= 1 && !Leads(b, c, i) && Leads(b, c, i - 1)
  {
    hide Ema, WeightedSum;
    EmaIsWeightedSum(b.close, c.fast, i);
    EmaIsWeightedSum(b.close, c.slow, i);
    if i >= 1 {
      EmaIsWeightedSum(b.close, c.fast, i - 1);
      EmaIsWeightedSum(b.close, c.slow, i - 1);
    }
  }

  /** A position opened on bar `i` gets a stop exactly if stops are on and 14 bars are there; it is the close
      less the average true range times the multiplier. */
  lemma StopLevelMeans(b: Bars, c: Config, i: nat, period: nat)
    requires Ready(b, c) && i < |b.close| && period == 14
    ensures var range := Atr(b.High(), b.Low(), b.close, period, i);
            && (range.Some? <==> i >= 13)
            && StopAt(b, c, i) == if c.stopMult > 0.0 && i >= 13 then b.close[i] - range.value * c.stopMult else 0.0
  {
    hide Atr;
    AtrDefined(b.High(), b.Low(), b.close, period, i);
  }

  lemma {:induction false} AtrDefined(high: seq<real>, low: seq<real>, close: seq<real>, period: nat, i: nat)
    requires |high| == |low| == |close| && period >= 1 && i < |close|
    ensures Atr(high, low, close, period, i).Some? <==> period <= i + 1
    decreases i
  {
    if i >= period {
      AtrDefined(high, low, close, period, i - 1);
    }
  }

  lemma ReturnTimesPrice(entry: real, exit: real)
    requires entry != 0.0
    ensures Return(entry, exit) * entry == exit - entry
  {
    DivMul(exit - entry, entry);
  }

  /** Every reported return is the relative price change of its trade. */
  lemma ReturnsArePriceChanges(b: Bars, c: Config, t: Trade)
    requires Ready(b, c) && t in Trades(b, c)
    ensures t.ret * t.entryPrice == t.exitPrice - t.entryPrice
  {
    TradesAreLegalAndSpaced(b, c);
    hide Trades, Entry, Exit, HeldThrough, StopHit, Return, Spaced;
    ReturnTimesPrice(t.entryPrice, t.exitPrice);
  }
}
