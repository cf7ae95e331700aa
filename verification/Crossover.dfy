/** The EMA-crossover simulator of backtesting/vbt_adapter.py: one pass over the bars
    collects the trades, a second pass replays the same decisions into an equity curve.
    Both passes are also given as folds of a one-bar step, about which the lemmas speak. */
module Crossover {
  import opened Common
  import opened Indicators

  const ATR_PERIOD: nat := 14

  datatype Config = Config(
    fast: int, slow: int, initialCash: real, fees: real, risk: real, stopMult: real, cooldown: int)

  /** Price columns; the high and low columns may be missing from the frame. */
  datatype Bars = Bars(close: seq<real>, high: Option<seq<real>>, low: Option<seq<real>>) {
    ghost predicate Valid() {
      && (high.Some? ==> |high.value| == |close|)
      && (low.Some? ==> |low.value| == |close|)
      && forall i :: 0 <= i < |close| ==> close[i] > 0.0
    }

    function High(): seq<real> { high.GetOr(close) }

    function Low(): seq<real> { low.GetOr(close) }

    function Prefix(k: nat): Bars
      requires Valid() && k <= |close|
    {
      Bars(close[..k],
           if high.Some? then Some(high.value[..k]) else None,
           if low.Some? then Some(low.value[..k]) else None)
    }
  }

  datatype ExitReason = StopLoss | Signal

  /** A closed trade. `entryBar`, `exitBar` and `invested` are bookkeeping of the model:
      the loop indices and the cash committed, which the source's record leaves out. */
  datatype Trade = Trade(
    entryPrice: real, exitPrice: real, pnl: real, ret: real, reason: ExitReason,
    entryBar: int, exitBar: int, invested: real)

  ghost predicate Ready(b: Bars, c: Config) {
    b.Valid() && c.fast >= 1 && c.slow >= 1
  }

  // ---------- Signals ----------

  predicate FastAbove(b: Bars, c: Config, i: nat)
    requires Ready(b, c) && i < |b.close|
  {
    Ema(b.close, c.fast, i) > Ema(b.close, c.slow, i)
  }

  predicate Entry(b: Bars, c: Config, i: nat)
    requires Ready(b, c) && i < |b.close|
  {
    i >= 1 && FastAbove(b, c, i) && !FastAbove(b, c, i - 1)
  }

  predicate Exit(b: Bars, c: Config, i: nat)
    requires Ready(b, c) && i < |b.close|
  {
    i >= 1 && !FastAbove(b, c, i) && FastAbove(b, c, i - 1)
  }

  predicate HasStops(c: Config) {
    c.stopMult > 0.0
  }

  function StopBelow(price: real, atr: real, mult: real): real {
    price - atr * mult
  }

  /** Stop level of a position opened on bar `i`; 0 means none. */
  function StopAt(b: Bars, c: Config, i: nat): real
    requires Ready(b, c) && i < |b.close|
  {
    if HasStops(c) then
      var a := Atr(b.High(), b.Low(), b.close, ATR_PERIOD, i);
      if a.Some? then StopBelow(b.close[i], a.value, c.stopMult) else 0.0
    else 0.0
  }

  // ---------- Trade pass ----------

  datatype Sim = Sim(
    cash: real, position: real, entryPrice: real, stop: real, lastExit: int,
    trades: seq<Trade>, entryBar: int, invested: real)

  function Start(c: Config): Sim {
    Sim(c.initialCash, 0.0, 0.0, 0.0, -c.cooldown - 1, [], -1, 0.0)
  }

  function Worth(qty: real, price: real): real {
    qty * price
  }

  function Proceeds(qty: real, price: real, fees: real): real {
    qty * price * (1.0 - fees)
  }

  function Invest(cash: real, c: Config): real {
    cash * Min(c.risk, 1.0)
  }

  function Quantity(invest: real, c: Config, price: real): real
    requires price > 0.0
  {
    invest * (1.0 - c.fees) / price
  }

  function Return(entry: real, exit: real): real
    requires entry != 0.0
  {
    (exit - entry) / entry
  }

  function Closed(s: Sim, c: Config, price: real, reason: ExitReason, i: int): Trade
    requires s.entryPrice != 0.0
  {
    Trade(s.entryPrice, price, Proceeds(s.position, price, c.fees) - Worth(s.position, s.entryPrice),
          Return(s.entryPrice, price), reason, s.entryBar, i, s.invested)
  }

  function CloseAt(s: Sim, c: Config, price: real, reason: ExitReason, i: int): Sim
    requires s.entryPrice != 0.0
  {
    s.(cash := s.cash + Proceeds(s.position, price, c.fees), position := 0.0, lastExit := i,
       trades := s.trades + [Closed(s, c, price, reason, i)])
  }

  function OpenAt(b: Bars, c: Config, s: Sim, i: nat): Sim
    requires Ready(b, c) && i < |b.close|
  {
    s.(cash := s.cash - Invest(s.cash, c), position := Quantity(Invest(s.cash, c), c, b.close[i]),
       entryPrice := b.close[i], stop := StopAt(b, c, i), entryBar := i, invested := Invest(s.cash, c))
  }

  predicate Stopped(b: Bars, c: Config, i: nat, position: real, stop: real)
    requires Ready(b, c) && i < |b.close|
  {
    position > 0.0 && HasStops(c) && stop > 0.0 && b.Low()[i] <= stop
  }

  /** A held position was opened at some bar's (positive) close. */
  predicate Priced(s: Sim) {
    s.position > 0.0 ==> s.entryPrice > 0.0
  }

  function Step(b: Bars, c: Config, s: Sim, i: nat): (s': Sim)
    requires Ready(b, c) && i < |b.close| && Priced(s)
    ensures Priced(s')
  {
    if Stopped(b, c, i, s.position, s.stop) then CloseAt(s, c, s.stop, StopLoss, i)
    else if Entry(b, c, i) && s.position == 0.0 then
      if i - s.lastExit < c.cooldown then s else OpenAt(b, c, s, i)
    else if Exit(b, c, i) && s.position > 0.0 then CloseAt(s, c, b.close[i], Signal, i)
    else s
  }

  /** State of the trade pass before bar `k`. */
  function Run(b: Bars, c: Config, k: nat): (s: Sim)
    requires Ready(b, c) && k <= |b.close|
    ensures Priced(s)
  {
    if k == 0 then Start(c) else Step(b, c, Run(b, c, k - 1), k - 1)
  }

  // ---------- Equity pass ----------

  datatype Replay = Replay(cash: real, position: real, stop: real, lastExit: int)

  function ReplayStep(b: Bars, c: Config, r: Replay, i: nat): Replay
    requires Ready(b, c) && i < |b.close|
  {
    if Stopped(b, c, i, r.position, r.stop) then
      r.(cash := r.cash + Proceeds(r.position, r.stop, c.fees), position := 0.0, lastExit := i)
    else if Entry(b, c, i) && r.position == 0.0 && i - r.lastExit >= c.cooldown then
      Replay(r.cash - Invest(r.cash, c), Quantity(Invest(r.cash, c), c, b.close[i]), StopAt(b, c, i), r.lastExit)
    else if Exit(b, c, i) && r.position > 0.0 then
      r.(cash := r.cash + Proceeds(r.position, b.close[i], c.fees), position := 0.0, lastExit := i)
    else r
  }

  function ReplayRun(b: Bars, c: Config, k: nat): Replay
    requires Ready(b, c) && k <= |b.close|
  {
    if k == 0 then Replay(c.initialCash, 0.0, 0.0, -c.cooldown - 1)
    else ReplayStep(b, c, ReplayRun(b, c, k - 1), k - 1)
  }

  /** Value the equity pass writes for bar `i`: cash alone when the stop fired on it. */
  function EquityAt(b: Bars, c: Config, i: nat): real
    requires Ready(b, c) && i < |b.close|
  {
    var before, after := ReplayRun(b, c, i), ReplayRun(b, c, i + 1);
    if Stopped(b, c, i, before.position, before.stop) then after.cash
    else after.cash + Worth(after.position, b.close[i])
  }

  function FinalValue(s: Sim, c: Config, lastClose: real): real {
    if s.position > 0.0 then s.cash + Proceeds(s.position, lastClose, c.fees) else s.cash
  }

  /** What a caller receives as the trade list: nothing on frames too short for the slow average. */
  function Trades(b: Bars, c: Config): seq<Trade>
    requires Ready(b, c)
  {
    if |b.close| < c.slow + 2 then [] else Run(b, c, |b.close|).trades
  }

  // ---------- The engine ----------

  method Signals(b: Bars, c: Config) returns (entries: array<bool>, exits: array<bool>)
    requires Ready(b, c) && |b.close| >= 1
    ensures fresh(entries) && fresh(exits) && entries.Length == exits.Length == |b.close|
    ensures forall i {:trigger entries[i]} :: 0 <= i < |b.close| ==> entries[i] == Entry(b, c, i)
    ensures forall i {:trigger exits[i]} :: 0 <= i < |b.close| ==> exits[i] == Exit(b, c, i)
  {
    var n := |b.close|;
    var fast := ComputeEma(b.close, c.fast);
    var slow := ComputeEma(b.close, c.slow);
    entries := new bool[n](_ => false);
    exits := new bool[n](_ => false);
    for i := 1 to n
      modifies entries, exits
      invariant forall j {:trigger entries[j]} :: 0 <= j < n ==> entries[j] == (j < i && Entry(b, c, j))
      invariant forall j {:trigger exits[j]} :: 0 <= j < n ==> exits[j] == (j < i && Exit(b, c, j))
    {
      var above, wasAbove := fast[i] > slow[i], fast[i - 1] > slow[i - 1];
      entries[i] := above && !wasAbove;
      exits[i] := !above && wasAbove;
    }
  }

  method StopLevels(b: Bars, c: Config) returns (stops: array<real>)
    requires Ready(b, c) && |b.close| >= 1
    ensures fresh(stops) && stops.Length == |b.close|
    ensures forall i {:trigger stops[i]} :: 0 <= i < |b.close| ==> stops[i] == StopAt(b, c, i)
  {
    var n := |b.close|;
    stops := new real[n](_ => 0.0);
    if HasStops(c) {
      var atr := ComputeAtr(b.High(), b.Low(), b.close, ATR_PERIOD);
      for i := 0 to n
        modifies stops
        invariant forall j {:trigger stops[j]} :: 0 <= j < n ==> stops[j] == if j < i then StopAt(b, c, j) else 0.0
      {
        match atr[i]
        case Some(a) => stops[i] := StopBelow(b.close[i], a, c.stopMult);
        case None => stops[i] := 0.0;
      }
    }
  }

  /** First loop: collects the trades. */
  method TradePass(b: Bars, c: Config, entries: array<bool>, exits: array<bool>, stops: array<real>) returns (s: Sim)
    requires Ready(b, c) && entries.Length == exits.Length == stops.Length == |b.close|
    requires forall i {:trigger entries[i]} :: 0 <= i < |b.close| ==> entries[i] == Entry(b, c, i)
    requires forall i {:trigger exits[i]} :: 0 <= i < |b.close| ==> exits[i] == Exit(b, c, i)
    requires forall i {:trigger stops[i]} :: 0 <= i < |b.close| ==> stops[i] == StopAt(b, c, i)
    ensures s == Run(b, c, |b.close|)
  {
    var cash, position, entryPrice, stop, lastExit := c.initialCash, 0.0, 0.0, 0.0, -c.cooldown - 1;
    var trades, entryBar, invested := [], -1, 0.0;
    for i := 0 to |b.close|
      invariant Sim(cash, position, entryPrice, stop, lastExit, trades, entryBar, invested) == Run(b, c, i)
    {
      ghost var before := Run(b, c, i);
      if position > 0.0 && HasStops(c) && stop > 0.0 && b.Low()[i] <= stop {
        var proceeds := Proceeds(position, stop, c.fees);
        var trade := Trade(entryPrice, stop, proceeds - Worth(position, entryPrice),
                           Return(entryPrice, stop), StopLoss, entryBar, i, invested);
        assert trade == Closed(before, c, stop, StopLoss, i);
        trades, cash, position, lastExit := trades + [trade], cash + proceeds, 0.0, i;
        assert Step(b, c, before, i) == CloseAt(before, c, stop, StopLoss, i);
      } else if entries[i] && position == 0.0 {
        if i - lastExit < c.cooldown {
          assert Step(b, c, before, i) == before;
          continue;
        }
        assert Step(b, c, before, i) == OpenAt(b, c, before, i);
        invested := Invest(cash, c);
        position := Quantity(invested, c, b.close[i]);
        entryPrice, cash, entryBar := b.close[i], cash - invested, i;
        stop := stops[i];
      } else if exits[i] && position > 0.0 {
        var proceeds := Proceeds(position, b.close[i], c.fees);
        var trade := Trade(entryPrice, b.close[i], proceeds - Worth(position, entryPrice),
                           Return(entryPrice, b.close[i]), Signal, entryBar, i, invested);
        assert trade == Closed(before, c, b.close[i], Signal, i);
        trades, cash, position, lastExit := trades + [trade], cash + proceeds, 0.0, i;
        assert Step(b, c, before, i) == CloseAt(before, c, b.close[i], Signal, i);
      }
      assert Sim(cash, position, entryPrice, stop, lastExit, trades, entryBar, invested) == Step(b, c, before, i);
    }
    s := Sim(cash, position, entryPrice, stop, lastExit, trades, entryBar, invested);
  }

  /** Second loop: fills the equity array. */
  method EquityPass(
      b: Bars, c: Config, entries: array<bool>, exits: array<bool>, stops: array<real>) returns (equity: array<real>)
    requires Ready(b, c) && entries.Length == exits.Length == stops.Length == |b.close|
    requires forall i {:trigger entries[i]} :: 0 <= i < |b.close| ==> entries[i] == Entry(b, c, i)
    requires forall i {:trigger exits[i]} :: 0 <= i < |b.close| ==> exits[i] == Exit(b, c, i)
    requires forall i {:trigger stops[i]} :: 0 <= i < |b.close| ==> stops[i] == StopAt(b, c, i)
    ensures fresh(equity) && equity.Length == |b.close|
    ensures forall i {:trigger equity[i]} :: 0 <= i < |b.close| ==> equity[i] == EquityAt(b, c, i)
  {
    var n := |b.close|;
    equity := new real[n](_ => c.initialCash);
    var cash, pos, sp, lastExit := c.initialCash, 0.0, 0.0, -c.cooldown - 1;
    for i := 0 to n
      modifies equity
      invariant Replay(cash, pos, sp, lastExit) == ReplayRun(b, c, i)
      invariant forall j {:trigger equity[j]} :: 0 <= j < i ==> equity[j] == EquityAt(b, c, j)
    {
      ghost var before := ReplayRun(b, c, i);
      if pos > 0.0 && HasStops(c) && sp > 0.0 && b.Low()[i] <= sp {
        cash, pos, lastExit := cash + Proceeds(pos, sp, c.fees), 0.0, i;
        assert Replay(cash, pos, sp, lastExit) == ReplayStep(b, c, before, i);
        assert cash == EquityAt(b, c, i);
        equity[i] := cash;
        continue;
      }
      if entries[i] && pos == 0.0 && i - lastExit >= c.cooldown {
        var invest := Invest(cash, c);
        cash, pos, sp := cash - invest, Quantity(invest, c, b.close[i]), stops[i];
      } else if exits[i] && pos > 0.0 {
        cash, pos, lastExit := cash + Proceeds(pos, b.close[i], c.fees), 0.0, i;
      }
      assert Replay(cash, pos, sp, lastExit) == ReplayStep(b, c, before, i);
      assert cash + Worth(pos, b.close[i]) == EquityAt(b, c, i);
      equity[i] := cash + Worth(pos, b.close[i]);
    }
  }

  method Backtest(b: Bars, c: Config) returns (trades: seq<Trade>, finalValue: real, equity: seq<real>)
    requires Ready(b, c)
    ensures trades == Trades(b, c)
    ensures |b.close| < c.slow + 2 ==> trades == [] && finalValue == c.initialCash && equity == [c.initialCash]
    ensures |b.close| >= c.slow + 2 ==>
              && trades == Run(b, c, |b.close|).trades
              && finalValue == FinalValue(Run(b, c, |b.close|), c, b.close[|b.close| - 1])
              && |equity| == |b.close|
              && forall i :: 0 <= i < |b.close| ==> equity[i] == EquityAt(b, c, i)
  {
    var n := |b.close|;
    if n < c.slow + 2 {
      return [], c.initialCash, [c.initialCash];
    }
    var entries, exits := Signals(b, c);
    var stops := StopLevels(b, c);
    var s := TradePass(b, c, entries, exits, stops);
    var curve := EquityPass(b, c, entries, exits, stops);
    trades, finalValue, equity := s.trades, FinalValue(s, c, b.close[n - 1]), curve[..];
  }
}
