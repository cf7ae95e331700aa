/** The second, independently written crossover simulator (backtesting/walk_forward.py): it keeps a
    boolean position and per-unit returns instead of cash and quantities. Its trades are compared
    with those of the cash-based engine in module Crossover. */
module WalkForward {
  import opened Common
  import opened Indicators
  import opened Crossover
  import opened CrossoverLaws

  /** A record of this engine; the profit is per unit bought, net of a fee on each side. */
  datatype UnitTrade = UnitTrade(entryPrice: real, exitPrice: real, pnl: real, ret: real)

  datatype Unit = Unit(position: bool, entryPrice: real, stop: real, lastExit: int, trades: seq<UnitTrade>)

  predicate HasRange(b: Bars) {
    b.high.Some? && b.low.Some?
  }

  /** Stop level of a position opened on bar `i`: needs both price-range columns. */
  function UnitStopAt(b: Bars, c: Config, i: nat): real
    requires Ready(b, c) && i < |b.close|
  {
    if HasStops(c) && HasRange(b) then
      var a := Atr(b.high.value, b.low.value, b.close, ATR_PERIOD, i);
      if a.Some? then StopBelow(b.close[i], a.value, c.stopMult) else 0.0
    else 0.0
  }

  function UnitTradeOf(entry: real, exit: real, fees: real): UnitTrade
    requires entry != 0.0
  {
    var net := Return(entry, exit) - 2.0 * fees;
    UnitTrade(entry, exit, Worth(entry, net), net)
  }

  predicate UnitStopped(b: Bars, c: Config, u: Unit, i: nat)
    requires Ready(b, c) && i < |b.close|
  {
    u.position && HasStops(c) && u.stop > 0.0 && b.Low()[i] <= u.stop
  }

  function UnitClose(u: Unit, c: Config, price: real, i: int): Unit
    requires u.entryPrice != 0.0
  {
    u.(position := false, lastExit := i, trades := u.trades + [UnitTradeOf(u.entryPrice, price, c.fees)])
  }

  predicate UnitPriced(u: Unit) {
    u.position ==> u.entryPrice > 0.0
  }

  function UnitStep(b: Bars, c: Config, u: Unit, i: nat): (u': Unit)
    requires Ready(b, c) && i < |b.close| && UnitPriced(u)
    ensures UnitPriced(u')
  {
    if UnitStopped(b, c, u, i) then UnitClose(u, c, u.stop, i)
    else if Entry(b, c, i) && !u.position then
      if i - u.lastExit < c.cooldown then u
      else u.(entryPrice := b.close[i], position := true, stop := UnitStopAt(b, c, i))
    else if Exit(b, c, i) && u.position then UnitClose(u, c, b.close[i], i)
    else u
  }

  function UnitRun(b: Bars, c: Config, k: nat): (u: Unit)
    requires Ready(b, c) && k <= |b.close|
    ensures UnitPriced(u)
  {
    if k == 0 then Unit(false, 0.0, 0.0, -c.cooldown - 1, [])
    else UnitStep(b, c, UnitRun(b, c, k - 1), k - 1)
  }

  function UnitTrades(b: Bars, c: Config): seq<UnitTrade>
    requires Ready(b, c)
  {
    if c.fast >= c.slow || |b.close| < c.slow + 2 then [] else UnitRun(b, c, |b.close|).trades
  }

  /** The range array of this file, averaged with its own constants 13 and 14. */
  method UnitAtr(b: Bars) returns (atr: array<Option<real>>)
    requires b.Valid() && HasRange(b) && |b.close| >= 1
    ensures fresh(atr) && atr.Length == |b.close|
    ensures forall i {:trigger atr[i]} :: 0 <= i < |b.close| ==>
              atr[i] == Atr(b.high.value, b.low.value, b.close, ATR_PERIOD, i)
  {
    var high, low, close, n := b.high.value, b.low.value, b.close, |b.close|;
    var tr := TrueRanges(high, low, close);
    atr := new Option<real>[n](_ => None);
    if n >= 14 {
      var mean := SeedMean(tr, high, low, close, 14);
      atr[13] := Some(mean);
      for i := 14 to n
        modifies atr
        invariant forall j {:trigger atr[j]} :: 0 <= j < i ==> atr[j] == Atr(high, low, close, ATR_PERIOD, j)
        invariant atr[i - 1].Some?
      {
        var next := (atr[i - 1].value * 13.0 + tr[i]) / 14.0;
        assert Atr(high, low, close, ATR_PERIOD, i) == Some(next) by {
          AtrStep(high, low, close, ATR_PERIOD, i);
        }
        atr[i] := Some(next);
      }
    }
  }

  method UnitStops(b: Bars, c: Config) returns (stops: array<real>)
    requires Ready(b, c) && |b.close| >= 1
    ensures fresh(stops) && stops.Length == |b.close|
    ensures forall i {:trigger stops[i]} :: 0 <= i < |b.close| ==> stops[i] == UnitStopAt(b, c, i)
  {
    var n := |b.close|;
    stops := new real[n](_ => 0.0);
    if HasStops(c) && HasRange(b) {
      var atr := UnitAtr(b);
      for i := 0 to n
        modifies stops
        invariant forall j {:trigger stops[j]} :: 0 <= j < n ==> stops[j] == if j < i then UnitStopAt(b, c, j) else 0.0
      {
        match atr[i]
        case Some(a) => stops[i] := StopBelow(b.close[i], a, c.stopMult);
        case None => stops[i] := 0.0;
      }
    }
  }

  method UnitPass(
      b: Bars, c: Config, entries: array<bool>, exits: array<bool>,
      stops: array<real>) returns (trades: seq<UnitTrade>)
    requires Ready(b, c) && entries.Length == exits.Length == stops.Length == |b.close|
    requires forall i {:trigger entries[i]} :: 0 <= i < |b.close| ==> entries[i] == Entry(b, c, i)
    requires forall i {:trigger exits[i]} :: 0 <= i < |b.close| ==> exits[i] == Exit(b, c, i)
    requires forall i {:trigger stops[i]} :: 0 <= i < |b.close| ==> stops[i] == UnitStopAt(b, c, i)
    ensures trades == UnitRun(b, c, |b.close|).trades
  {
    var position, entryPrice, stop, lastExit := false, 0.0, 0.0, -c.cooldown - 1;
    trades := [];
    for i := 0 to |b.close|
      invariant Unit(position, entryPrice, stop, lastExit, trades) == UnitRun(b, c, i)
    {
      ghost var before := UnitRun(b, c, i);
      if position && HasStops(c) && stop > 0.0 && b.Low()[i] <= stop {
        var net := Return(entryPrice, stop) - 2.0 * c.fees;
        trades := trades + [UnitTrade(entryPrice, stop, Worth(entryPrice, net), net)];
        position, lastExit := false, i;
        assert UnitStep(b, c, before, i) == UnitClose(before, c, before.stop, i);
        continue;
      }
      if entries[i] && !position {
        if i - lastExit < c.cooldown {
          continue;
        }
        entryPrice, position, stop := b.close[i], true, stops[i];
      } else if exits[i] && position {
        var net := Return(entryPrice, b.close[i]) - 2.0 * c.fees;
        trades := trades + [UnitTrade(entryPrice, b.close[i], Worth(entryPrice, net), net)];
        position, lastExit := false, i;
        assert UnitStep(b, c, before, i) == UnitClose(before, c, b.close[i], i);
      }
    }
  }

  method EmaCrossoverStrategy(b: Bars, c: Config) returns (trades: seq<UnitTrade>)
    requires Ready(b, c)
    ensures trades == UnitTrades(b, c)
    ensures c.fast >= c.slow || |b.close| < c.slow + 2 ==> trades == []
    ensures c.fast < c.slow && |b.close| >= c.slow + 2 ==> trades == UnitRun(b, c, |b.close|).trades
  {
    if c.fast >= c.slow || |b.close| < c.slow + 2 {
      return [];
    }
    var entries, exits := Signals(b, c);
    var stops := UnitStops(b, c);
    trades := UnitPass(b, c, entries, exits, stops);
  }

  // ---------- Agreement of the two engines ----------

  /** Rows of the two trade lists describe the same round trip: same fills, the per-unit return is the cash
      engine's return less the two fees it charges, and the profit is that return on one unit. */
  predicate SameTrade(t: Trade, u: UnitTrade, fees: real) {
    && u.entryPrice == t.entryPrice && u.exitPrice == t.exitPrice
    && u.ret == t.ret - 2.0 * fees && u.pnl == t.entryPrice * u.ret
  }

  ghost predicate SameTrades(ts: seq<Trade>, us: seq<UnitTrade>, fees: real) {
    |ts| == |us| && forall i :: 0 <= i < |ts| ==> SameTrade(ts[i], us[i], fees)
  }

  ghost predicate Agree(c: Config, s: Sim, u: Unit) {
    && u.position == (s.position > 0.0)
    && (u.position ==> u.entryPrice == s.entryPrice && u.stop == s.stop)
    && u.lastExit == s.lastExit
    && SameTrades(s.trades, u.trades, c.fees)
  }

  /** When stops are on, this engine ignores them unless both range columns are present. */
  predicate StopsComparable(b: Bars, c: Config) {
    !HasStops(c) || HasRange(b)
  }

  lemma SameStops(b: Bars, c: Config, i: nat)
    requires Ready(b, c) && i < |b.close| && StopsComparable(b, c)
    ensures UnitStopAt(b, c, i) == StopAt(b, c, i)
  {
    hide Atr;
  }

  lemma SameTradeOf(s: Sim, u: Unit, c: Config, price: real, reason: ExitReason, i: int)
    requires s.entryPrice != 0.0 && u.entryPrice == s.entryPrice
    ensures SameTrade(Closed(s, c, price, reason, i), UnitTradeOf(u.entryPrice, price, c.fees), c.fees)
  {
    hide Proceeds, Return;
  }

  lemma CloseAgrees(c: Config, s: Sim, u: Unit, price: real, reason: ExitReason, i: int)
    requires Agree(c, s, u) && s.position > 0.0 && s.entryPrice != 0.0
    ensures Agree(c, CloseAt(s, c, price, reason, i), UnitClose(u, c, price, i))
  {
    hide Proceeds, Return, Worth, SameTrade;
    SameTradeOf(s, u, c, price, reason, i);
  }

  /** Invariant of the joint run: cash is positive whenever flat, so every entry buys a positive
      quantity and the boolean position tracks it. */
  lemma {:induction false} EnginesInStep(b: Bars, c: Config, k: nat)
    requires Ready(b, c) && k <= |b.close| && StopsComparable(b, c)
    requires Sane(c) && c.initialCash > 0.0 && c.risk > 0.0
    ensures Agree(c, Run(b, c, k), UnitRun(b, c, k))
  {
    if k > 0 {
      EnginesInStep(b, c, k - 1);
      BooksBalance(b, c, k - 1);
      var s, u, i := Run(b, c, k - 1), UnitRun(b, c, k - 1), k - 1;
      assert s.position >= 0.0;
      SameStops(b, c, i);
      if s.position > 0.0 {
        CloseAgrees(c, s, u, s.stop, StopLoss, i);
        CloseAgrees(c, s, u, b.close[i], Signal, i);
      } else {
        OpenKeepsBooks(b, c, s, i);
      }
      hide Books, Entry, Exit, StopAt, UnitStopAt, CloseAt, UnitClose, Invest, Quantity, SameTrades;
    }
  }

  /** The walk-forward strategy and the cash-based engine report the same round trips. */
  lemma CrossEngineAgreement(b: Bars, c: Config)
    requires Ready(b, c) && c.fast < c.slow && StopsComparable(b, c)
    requires Sane(c) && c.initialCash > 0.0 && c.risk > 0.0
    ensures SameTrades(Trades(b, c), UnitTrades(b, c), c.fees)
  {
    EnginesInStep(b, c, |b.close|);
  }
}
