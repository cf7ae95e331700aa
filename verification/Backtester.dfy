/** The single-symbol, event-driven backtester of backtesting/backtest.py. The strategy is outside the model:
    `signals` holds what it returns on each bar. */
module Backtester {
  import opened Common

  datatype Signal = StrongBuy | BuySignal | HoldSignal | SellSignal | StrongSell | NoSignal

  datatype TradeSignal = TradeSignal(signal: Signal, confidence: real, stopLoss: Option<real>, takeProfit: Option<real>) {
    predicate IsActionable() {
      signal != HoldSignal && signal != NoSignal && confidence > 0.5
    }

    predicate IsBuy() {
      signal == BuySignal || signal == StrongBuy
    }

    predicate IsSell() {
      signal == SellSignal || signal == StrongSell
    }
  }

  datatype Bar = Bar(high: real, low: real, close: real)

  datatype Side = Long | Short

  datatype Costs = Costs(commission: real, slippage: real)

  datatype Position = Position(
    side: Side, entryPrice: real, qty: real, stopLoss: Option<real>, takeProfit: Option<real>, entryBar: int)

  datatype Trade = Trade(
    side: Side, entryPrice: real, exitPrice: real, qty: real, pnl: real, holdBars: int, entryBar: int)

  datatype Book = Book(capital: real, position: Option<Position>, trades: seq<Trade>)

  /** A level is in force when given and not zero. */
  predicate Active(level: Option<real>) {
    level.Some? && level.value != 0.0
  }

  function Pnl(side: Side, entry: real, exit: real, qty: real): real {
    if side == Long then Scale(exit - entry, qty) else Scale(entry - exit, qty)
  }

  function Commission(qty: real, price: real, rate: real): real {
    Scale(Scale(qty, price), rate)
  }

  function Slipped(price: real, up: bool, slippage: real): real {
    Scale(price, if up then 1.0 + slippage else 1.0 - slippage)
  }

  /** Price at which an open position leaves on this bar: stop first, then target, then an opposite signal. */
  function ExitLevel(p: Position, b: Bar, s: Option<TradeSignal>): Option<real> {
    if Active(p.stopLoss) && (if p.side == Long then b.low <= p.stopLoss.value else b.high >= p.stopLoss.value) then
      p.stopLoss
    else if Active(p.takeProfit) && (if p.side == Long then b.high >= p.takeProfit.value else b.low <= p.takeProfit.value) then
      p.takeProfit
    else if s.Some? && (if p.side == Long then s.value.IsSell() else s.value.IsBuy()) then Some(b.close)
    else None
  }

  function ClosedTrade(p: Position, exit: real, hold: int): Trade {
    Trade(p.side, p.entryPrice, exit, p.qty, Pnl(p.side, p.entryPrice, exit, p.qty), hold, p.entryBar)
  }

  function Close(k: Costs, book: Book, exit: real, hold: int): Book
    requires book.position.Some?
  {
    var t := ClosedTrade(book.position.value, exit, hold);
    Book(book.capital + (t.pnl - Commission(t.qty, exit, k.commission)), None, book.trades + [t])
  }

  /** Units bought: two percent of capital at risk to the stop, or a tenth of the capital. */
  function Size(capital: real, price: real, stop: Option<real>): real
    requires price != 0.0
  {
    if Active(stop) && Abs(price - stop.value) > 0.0 then Scale(capital, 0.02) / Abs(price - stop.value)
    else Scale(capital, 0.1) / price
  }

  function Open(k: Costs, book: Book, b: Bar, s: TradeSignal, i: int): Book
    requires b.close != 0.0
  {
    var side := if s.IsBuy() then Long else Short;
    var qty := Size(book.capital, b.close, s.stopLoss);
    var entry := Slipped(b.close, side == Long, k.slippage);
    Book(book.capital - Commission(qty, entry, k.commission),
         Some(Position(side, entry, qty, s.stopLoss, s.takeProfit, i)), book.trades)
  }

  function Step(k: Costs, book: Book, b: Bar, s: Option<TradeSignal>, i: int): Book
    requires b.close != 0.0
  {
    if book.position.Some? then
      var p := book.position.value;
      var exit := ExitLevel(p, b, s);
      if exit.Some? then Close(k, book, Slipped(exit.value, p.side == Short, k.slippage), i - p.entryBar) else book
    else if s.Some? && s.value.IsActionable() then Open(k, book, b, s.value, i)
    else book
  }

  function Marked(book: Book, price: real): real {
    if book.position.None? then book.capital
    else book.capital + Pnl(book.position.value.side, book.position.value.entryPrice, price, book.position.value.qty)
  }

  ghost predicate ValidData(data: seq<Bar>, signals: seq<Option<TradeSignal>>, lookback: nat) {
    |signals| == |data| && forall i :: 0 <= i < |data| ==> data[i].close != 0.0
  }

  /** The book before bar `n`. */
  function Run(k: Costs, initial: real, data: seq<Bar>, signals: seq<Option<TradeSignal>>, lookback: nat, n: nat): Book
    requires ValidData(data, signals, lookback) && lookback <= n <= |data|
    decreases n
  {
    if n == lookback then Book(initial, None, [])
    else Step(k, Run(k, initial, data, signals, lookback, n - 1), data[n - 1], signals[n - 1], n - 1)
  }

  /** A position still open after the last bar is closed at its close, without slippage. */
  function Finish(k: Costs, book: Book, data: seq<Bar>): Book
    requires |data| >= 1
  {
    if book.position.Some? then Close(k, book, data[|data| - 1].close, |data| - book.position.value.entryBar) else book
  }

  method RunBar(k: Costs, book: Book, b: Bar, s: Option<TradeSignal>, i: int) returns (r: Book, point: real)
    requires b.close != 0.0
    ensures r == Step(k, book, b, s, i) && point == Marked(r, b.close)
  {
    hide Scale, Commission, Slipped, Pnl, Size;
    var capital, position, trades := book.capital, book.position, book.trades;
    if position.Some? {
      var p := position.value;
      var shouldExit, exitPrice := false, b.close;
      if Active(p.stopLoss) {
        if p.side == Long && b.low <= p.stopLoss.value {
          shouldExit, exitPrice := true, p.stopLoss.value;
        } else if p.side == Short && b.high >= p.stopLoss.value {
          shouldExit, exitPrice := true, p.stopLoss.value;
        }
      }
      if !shouldExit && Active(p.takeProfit) {
        if p.side == Long && b.high >= p.takeProfit.value {
          shouldExit, exitPrice := true, p.takeProfit.value;
        } else if p.side == Short && b.low <= p.takeProfit.value {
          shouldExit, exitPrice := true, p.takeProfit.value;
        }
      }
      if !shouldExit && s.Some? {
        if (p.side == Long && s.value.IsSell()) || (p.side == Short && s.value.IsBuy()) {
          shouldExit := true;
        }
      }
      assert ExitLevel(p, b, s) == if shouldExit then Some(exitPrice) else None;
      if shouldExit {
        exitPrice := Slipped(exitPrice, p.side == Short, k.slippage);
        var trade := Trade(p.side, p.entryPrice, exitPrice, p.qty, Pnl(p.side, p.entryPrice, exitPrice, p.qty),
                           i - p.entryBar, p.entryBar);
        trades := trades + [trade];
        capital := capital + (trade.pnl - Commission(trade.qty, exitPrice, k.commission));
        position := None;
      }
    } else if s.Some? && s.value.IsActionable() {
      var side := if s.value.IsBuy() then Long else Short;
      var qty := Size(capital, b.close, s.value.stopLoss);
      var entry := Slipped(b.close, side == Long, k.slippage);
      capital := capital - Commission(qty, entry, k.commission);
      position := Some(Position(side, entry, qty, s.value.stopLoss, s.value.takeProfit, i));
    }
    r := Book(capital, position, trades);
    point := Marked(r, b.close);
  }

  /** The equity curve before bar `n`: the initial capital, then the marked book after every bar. */
  ghost predicate Curve(k: Costs, initial: real, data: seq<Bar>, signals: seq<Option<TradeSignal>>, lookback: nat,
                        n: nat, curve: seq<real>)
    requires ValidData(data, signals, lookback) && lookback <= n <= |data|
  {
    && |curve| == 1 + (n - lookback) && curve[0] == initial
    && forall i :: lookback <= i < n ==>
         curve[1 + i - lookback] == Marked(Run(k, initial, data, signals, lookback, i + 1), data[i].close)
  }

  lemma CurveGrows(k: Costs, initial: real, data: seq<Bar>, signals: seq<Option<TradeSignal>>, lookback: nat,
                   n: nat, curve: seq<real>, point: real)
    requires ValidData(data, signals, lookback) && lookback <= n < |data|
    requires Curve(k, initial, data, signals, lookback, n, curve)
    requires point == Marked(Run(k, initial, data, signals, lookback, n + 1), data[n].close)
    ensures Curve(k, initial, data, signals, lookback, n + 1, curve + [point])
  {
    hide Run, Marked;
  }

  method BarLoop(k: Costs, initial: real, data: seq<Bar>, signals: seq<Option<TradeSignal>>, lookback: nat)
    returns (book: Book, curve: seq<real>)
    requires ValidData(data, signals, lookback) && lookback <= |data|
    ensures book == Run(k, initial, data, signals, lookback, |data|)
    ensures Curve(k, initial, data, signals, lookback, |data|, curve)
  {
    book, curve := Book(initial, None, []), [initial];
    for i := lookback to |data|
      invariant book == Run(k, initial, data, signals, lookback, i)
      invariant Curve(k, initial, data, signals, lookback, i, curve)
    {
      hide Step, Marked, Curve;
      var next, point := RunBar(k, book, data[i], signals[i], i);
      CurveGrows(k, initial, data, signals, lookback, i, curve, point);
      book, curve := next, curve + [point];
    }
  }

  method CloseAtEnd(k: Costs, book: Book, data: seq<Bar>) returns (capital: real, trades: seq<Trade>)
    requires |data| >= 1
    ensures capital == Finish(k, book, data).capital && trades == Finish(k, book, data).trades
  {
    hide Pnl, Commission;
    capital, trades := book.capital, book.trades;
    if book.position.Some? {
      var p, last := book.position.value, data[|data| - 1].close;
      var trade := Trade(p.side, p.entryPrice, last, p.qty, Pnl(p.side, p.entryPrice, last, p.qty),
                         |data| - p.entryBar, p.entryBar);
      trades := trades + [trade];
      capital := capital + (trade.pnl - Commission(trade.qty, last, k.commission));
    }
  }

  /** Final capital, trades and equity curve. With no more bars than the lookback nothing is traded. */
  method Backtest(k: Costs, initial: real, data: seq<Bar>, signals: seq<Option<TradeSignal>>, lookback: nat)
    returns (capital: real, trades: seq<Trade>, curve: seq<real>)
    requires ValidData(data, signals, lookback)
    ensures |data| <= lookback ==> capital == initial && trades == [] && curve == []
    ensures |data| > lookback ==>
              var book := Finish(k, Run(k, initial, data, signals, lookback, |data|), data);
              && capital == book.capital && trades == book.trades
              && Curve(k, initial, data, signals, lookback, |data|, curve)
  {
    hide Run, Finish, Curve;
    if |data| <= lookback {
      return initial, [], [];
    }
    var book: Book;
    book, curve := BarLoop(k, initial, data, signals, lookback);
    capital, trades := CloseAtEnd(k, book, data);
  }
}
