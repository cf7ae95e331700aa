/** Which trades the single-symbol backtester makes, told from the bars, the signals and the parameters. */
module BacktesterTrades {
  import opened Common
  import opened Backtester

  // ---------- Reading bars and signals ----------

  predicate Buys(s: TradeSignal) {
    s.signal == BuySignal || s.signal == StrongBuy
  }

  predicate Sells(s: TradeSignal) {
    s.signal == SellSignal || s.signal == StrongSell
  }

  /** A signal that opens a position when none is held. */
  predicate Calls(s: Option<TradeSignal>) {
    s.Some? && (Buys(s.value) || Sells(s.value)) && s.value.confidence > 0.5
  }

  /** The bar touches a level that lies against the position; a level of zero is none. */
  predicate MeetsStop(side: Side, stop: Option<real>, b: Bar) {
    stop.Some? && stop.value != 0.0 && (side == Long ==> b.low <= stop.value) && (side == Short ==> b.high >= stop.value)
  }

  /** The bar touches a level that lies in favour of the position. */
  predicate MeetsTarget(side: Side, target: Option<real>, b: Bar) {
    target.Some? && target.value != 0.0
    && (side == Long ==> b.high >= target.value) && (side == Short ==> b.low <= target.value)
  }

  predicate Opposes(side: Side, s: Option<TradeSignal>) {
    s.Some? && (side == Long ==> Sells(s.value)) && (side == Short ==> Buys(s.value))
  }

  /** A price moved by the slippage against someone who buys or sells. */
  function Against(price: real, buying: bool, slippage: real): real {
    if buying then Scale(price, 1.0 + slippage) else Scale(price, 1.0 - slippage)
  }

  // ---------- Capital told from the trades ----------

  /** Commission on both sides of a trade. */
  function FeesOf(k: Costs, t: Trade): real {
    Scale(Scale(t.qty, t.entryPrice), k.commission) + Scale(Scale(t.qty, t.exitPrice), k.commission)
  }

  /** Capital after these trades, nothing held. */
  function CapitalAfter(k: Costs, initial: real, trades: seq<Trade>): real {
    if trades == [] then initial
    else
      var t := trades[|trades| - 1];
      CapitalAfter(k, initial, trades[..|trades| - 1]) + t.pnl - FeesOf(k, t)
  }

  lemma CapitalSnoc(k: Costs, initial: real, trades: seq<Trade>, t: Trade)
    ensures CapitalAfter(k, initial, trades + [t]) == CapitalAfter(k, initial, trades) + t.pnl - FeesOf(k, t)
  {
    assert (trades + [t])[..|trades|] == trades;
  }

  // ---------- Legal trades ----------

  datatype Setup = Setup(k: Costs, initial: real, data: seq<Bar>, signals: seq<Option<TradeSignal>>, lookback: nat) {
    ghost predicate Valid() {
      ValidData(data, signals, lookback)
    }

    ghost predicate Traded(e: int)
      requires Valid()
    {
      lookback <= e < |data| && signals[e].Some?
    }
  }

  /** The quantity risks two percent of the capital down to the stop if there is one away from the close, and is
      a tenth of the capital at the close otherwise. */
  predicate Sized(capital: real, close: real, stop: Option<real>, qty: real) {
    if stop.Some? && stop.value != 0.0 && stop.value != close then
      Scale(if close > stop.value then close - stop.value else stop.value - close, qty) == Scale(capital, 0.02)
    else Scale(close, qty) == Scale(capital, 0.1)
  }

  /** A position taken on bar `e` with this much capital. */
  ghost predicate TakenOn(r: Setup, e: int, side: Side, entryPrice: real, qty: real, capital: real)
    requires r.Valid()
  {
    && r.Traded(e) && Calls(r.signals[e])
    && side == (if Buys(r.signals[e].value) then Long else Short)
    && entryPrice == Against(r.data[e].close, side == Long, r.k.slippage)
    && Sized(capital, r.data[e].close, r.signals[e].value.stopLoss, qty)
  }

  /** Bar `j` gives a position taken on bar `e` no reason to leave. */
  ghost predicate Quiet(r: Setup, e: int, side: Side, j: int)
    requires r.Valid() && r.Traded(e) && r.lookback <= j < |r.data|
  {
    var s := r.signals[e].value;
    && !MeetsStop(side, s.stopLoss, r.data[j]) && !MeetsTarget(side, s.takeProfit, r.data[j])
    && !Opposes(side, r.signals[j])
  }

  ghost predicate QuietBetween(r: Setup, e: int, side: Side, to: int)
    requires r.Valid() && r.Traded(e) && to <= |r.data|
  {
    forall j :: e < j < to ==> Quiet(r, e, side, j)
  }

  /** Leaving on bar `x`: at the stop if the bar meets it, else at the target if it meets that, else at the close
      on an opposite signal; slipped against the position. */
  ghost predicate LeftOn(r: Setup, e: int, side: Side, x: int, exitPrice: real)
    requires r.Valid() && r.Traded(e) && r.lookback <= x < |r.data|
  {
    var s := r.signals[e].value;
    if MeetsStop(side, s.stopLoss, r.data[x]) then exitPrice == Against(s.stopLoss.value, side == Short, r.k.slippage)
    else if MeetsTarget(side, s.takeProfit, r.data[x]) then
      exitPrice == Against(s.takeProfit.value, side == Short, r.k.slippage)
    else Opposes(side, r.signals[x]) && exitPrice == Against(r.data[x].close, side == Short, r.k.slippage)
  }

  /** What every trade's record says: taken with the capital the trades before it left, and its profit. */
  ghost predicate Recorded(r: Setup, t: Trade, capital: real)
    requires r.Valid()
  {
    && TakenOn(r, t.entryBar, t.side, t.entryPrice, t.qty, capital)
    && t.pnl == Scale(if t.side == Long then t.exitPrice - t.entryPrice else t.entryPrice - t.exitPrice, t.qty)
  }

  /** A trade that ended on a bar before `n`. */
  ghost predicate Legal(r: Setup, t: Trade, capital: real, n: int)
    requires r.Valid() && n <= |r.data|
  {
    var x := t.entryBar + t.holdBars;
    && Recorded(r, t, capital) && t.entryBar < x < n
    && QuietBetween(r, t.entryBar, t.side, x)
    && LeftOn(r, t.entryBar, t.side, x, t.exitPrice)
  }

  /** A trade that was still open after the last bar: closed at its close, without slippage. */
  ghost predicate ClosedAtEnd(r: Setup, t: Trade, capital: real)
    requires r.Valid() && |r.data| >= 1
  {
    && Recorded(r, t, capital) && t.entryBar + t.holdBars == |r.data|
    && QuietBetween(r, t.entryBar, t.side, |r.data|)
    && t.exitPrice == r.data[|r.data| - 1].close
  }

  ghost predicate AllLegal(r: Setup, trades: seq<Trade>, n: int)
    requires r.Valid() && n <= |r.data|
  {
    forall i :: 0 <= i < |trades| ==> Legal(r, trades[i], CapitalAfter(r.k, r.initial, trades[..i]), n)
  }

  /** A calling signal on bar `j` is not lost: a position was held on that bar. */
  ghost predicate Answered(book: Book, j: int) {
    || (book.position.Some? && book.position.value.entryBar <= j)
    || exists i :: 0 <= i < |book.trades| && Spans(book.trades[i], j)
  }

  predicate Spans(t: Trade, j: int) {
    t.entryBar <= j <= t.entryBar + t.holdBars
  }

  ghost predicate AllAnswered(r: Setup, book: Book, n: int)
    requires r.Valid() && n <= |r.data|
  {
    forall j :: r.lookback <= j < n && Calls(r.signals[j]) ==> Answered(book, j)
  }

  /** The book before bar `n`. */
  ghost predicate Shape(r: Setup, book: Book, n: int)
    requires r.Valid() && r.lookback <= n <= |r.data|
  {
    && AllLegal(r, book.trades, n) && AllAnswered(r, book, n)
    && var flat := CapitalAfter(r.k, r.initial, book.trades);
    if book.position.None? then book.capital == flat
    else
      var p := book.position.value;
      && p.entryBar < n
      && TakenOn(r, p.entryBar, p.side, p.entryPrice, p.qty, flat)
      && p.stopLoss == r.signals[p.entryBar].value.stopLoss && p.takeProfit == r.signals[p.entryBar].value.takeProfit
      && QuietBetween(r, p.entryBar, p.side, n)
      && book.capital == flat - Scale(Scale(p.qty, p.entryPrice), r.k.commission)
  }

  // ---------- One bar ----------

  lemma LegalLonger(r: Setup, trades: seq<Trade>, n: int)
    requires r.Valid() && n < |r.data| && AllLegal(r, trades, n)
    ensures AllLegal(r, trades, n + 1)
  {
    hide Recorded, LeftOn, QuietBetween, CapitalAfter;
  }

  lemma LegalSnoc(r: Setup, trades: seq<Trade>, t: Trade, n: int)
    requires r.Valid() && n <= |r.data| && AllLegal(r, trades, n)
    requires Legal(r, t, CapitalAfter(r.k, r.initial, trades), n)
    ensures AllLegal(r, trades + [t], n)
  {
    hide Legal, CapitalAfter;
    var all := trades + [t];
    forall i | 0 <= i < |all| ensures Legal(r, all[i], CapitalAfter(r.k, r.initial, all[..i]), n) {
      assert all[..i] == if i < |trades| then trades[..i] else trades;
    }
  }

  lemma ExitMeans(p: Position, b: Bar, s: Option<TradeSignal>)
    ensures var exit := ExitLevel(p, b, s);
            && (exit.None? <==> !MeetsStop(p.side, p.stopLoss, b) && !MeetsTarget(p.side, p.takeProfit, b) && !Opposes(p.side, s))
            && (exit.Some? ==>
                 exit.value == if MeetsStop(p.side, p.stopLoss, b) then p.stopLoss.value
                               else if MeetsTarget(p.side, p.takeProfit, b) then p.takeProfit.value else b.close)
  {
  }

  lemma SlipsAgainst(price: real, up: bool, slippage: real)
    ensures Slipped(price, up, slippage) == Against(price, up, slippage)
  {
  }

  lemma SizeMeans(capital: real, close: real, stop: Option<real>)
    requires close != 0.0
    ensures Sized(capital, close, stop, Size(capital, close, stop))
  {
    if stop.Some? && stop.value != 0.0 && stop.value != close {
      DivMul(Scale(capital, 0.02), Abs(close - stop.value));
    } else {
      DivMul(Scale(capital, 0.1), close);
    }
  }

  lemma PnlMeans(side: Side, entry: real, exit: real, qty: real)
    ensures Pnl(side, entry, exit, qty) == Scale(if side == Long then exit - entry else entry - exit, qty)
  {
  }

  lemma CommissionMeans(qty: real, price: real, rate: real)
    ensures Commission(qty, price, rate) == Scale(Scale(qty, price), rate)
  {
  }

  /** A calling signal on a bar without a position opens one. */
  lemma OpenKeepsShape(r: Setup, book: Book, n: int)
    requires r.Valid() && r.lookback <= n < |r.data| && Shape(r, book, n)
    requires book.position.None? && Calls(r.signals[n])
    ensures Shape(r, Open(r.k, book, r.data[n], r.signals[n].value, n), n + 1)
  {
    var s, b := r.signals[n].value, r.data[n];
    SizeMeans(book.capital, b.close, s.stopLoss);
    SlipsAgainst(b.close, Buys(s), r.k.slippage);
    CommissionMeans(Size(book.capital, b.close, s.stopLoss), Against(b.close, Buys(s), r.k.slippage), r.k.commission);
    LegalLonger(r, book.trades, n);
    hide AllLegal, CapitalAfter, Sized, Against, Size, Slipped, Commission, Scale, Quiet, Calls, Spans;
    assert s.IsBuy() == Buys(s);
  }

  lemma ClosedMeans(k: Costs, book: Book, exit: real, hold: int, initial: real)
    requires book.position.Some?
    requires var p := book.position.value;
             book.capital == CapitalAfter(k, initial, book.trades) - Scale(Scale(p.qty, p.entryPrice), k.commission)
    ensures var p, book' := book.position.value, Close(k, book, exit, hold);
            var t := ClosedTrade(p, exit, hold);
            && book' == Book(CapitalAfter(k, initial, book.trades + [t]), None, book.trades + [t])
            && t.side == p.side && t.entryPrice == p.entryPrice && t.exitPrice == exit && t.qty == p.qty
            && t.holdBars == hold && t.entryBar == p.entryBar
            && t.pnl == Scale(if p.side == Long then exit - p.entryPrice else p.entryPrice - exit, p.qty)
  {
    hide Pnl, Commission, CapitalAfter, Scale;
    var p := book.position.value;
    PnlMeans(p.side, p.entryPrice, exit, p.qty);
    CommissionMeans(p.qty, exit, k.commission);
    CapitalSnoc(k, initial, book.trades, ClosedTrade(p, exit, hold));
  }

  lemma AnsweredKept(r: Setup, book: Book, t: Trade, n: int)
    requires r.Valid() && r.lookback <= n < |r.data| && AllAnswered(r, book, n)
    requires book.position.Some? && t.entryBar == book.position.value.entryBar && t.entryBar + t.holdBars >= n
    requires t.entryBar < n
    ensures forall capital: real :: AllAnswered(r, Book(capital, None, book.trades + [t]), n + 1)
  {
    var trades := book.trades + [t];
    forall capital: real, j | r.lookback <= j < n + 1 && Calls(r.signals[j])
      ensures Answered(Book(capital, None, trades), j)
    {
      if j < n && !(t.entryBar <= j) {
        var i :| 0 <= i < |book.trades| && Spans(book.trades[i], j);
        assert Spans(trades[i], j);
      } else {
        assert Spans(trades[|book.trades|], j);
      }
    }
  }

  /** A bar that meets stop or target or brings an opposite signal ends the position. */
  lemma ExitKeepsShape(r: Setup, book: Book, n: int, level: real)
    requires r.Valid() && r.lookback <= n < |r.data| && Shape(r, book, n) && book.position.Some?
    requires ExitLevel(book.position.value, r.data[n], r.signals[n]) == Some(level)
    ensures var p := book.position.value;
            Shape(r, Close(r.k, book, Slipped(level, p.side == Short, r.k.slippage), n - p.entryBar), n + 1)
  {
    hide ExitLevel, Slipped, Against, CapitalAfter, Close, ClosedTrade, Scale, AllLegal, AllAnswered;
    hide MeetsStop, MeetsTarget, Opposes, Sized, Calls, Spans, Answered;
    var p := book.position.value;
    var exit := Slipped(level, p.side == Short, r.k.slippage);
    ExitMeans(p, r.data[n], r.signals[n]);
    SlipsAgainst(level, p.side == Short, r.k.slippage);
    ClosedMeans(r.k, book, exit, n - p.entryBar, r.initial);
    var t := ClosedTrade(p, exit, n - p.entryBar);
    assert Legal(r, t, CapitalAfter(r.k, r.initial, book.trades), n + 1);
    LegalLonger(r, book.trades, n);
    hide Legal;
    LegalSnoc(r, book.trades, t, n + 1);
    AnsweredKept(r, book, t, n);
  }

  lemma HoldKeepsShape(r: Setup, book: Book, n: int)
    requires r.Valid() && r.lookback <= n < |r.data| && Shape(r, book, n)
    requires if book.position.Some? then Quiet(r, book.position.value.entryBar, book.position.value.side, n)
             else !Calls(r.signals[n])
    ensures Shape(r, book, n + 1)
  {
    LegalLonger(r, book.trades, n);
    hide AllLegal, CapitalAfter, Scale, Calls, TakenOn, Spans;
    if book.position.Some? {
      assert QuietBetween(r, book.position.value.entryBar, book.position.value.side, n + 1);
      hide Quiet;
    }
  }

  lemma ActionableMeans(s: Option<TradeSignal>)
    ensures s.Some? && s.value.IsActionable() <==> Calls(s)
  {
  }

  lemma StepKeepsShape(r: Setup, book: Book, n: int)
    requires r.Valid() && r.lookback <= n < |r.data| && Shape(r, book, n)
    ensures Shape(r, Step(r.k, book, r.data[n], r.signals[n], n), n + 1)
  {
    ActionableMeans(r.signals[n]);
    if book.position.Some? {
      var p := book.position.value;
      var exit := ExitLevel(p, r.data[n], r.signals[n]);
      ExitMeans(p, r.data[n], r.signals[n]);
      if exit.Some? {
        ExitKeepsShape(r, book, n, exit.value);
      } else {
        assert Quiet(r, p.entryBar, p.side, n);
        HoldKeepsShape(r, book, n);
      }
    } else if Calls(r.signals[n]) {
      OpenKeepsShape(r, book, n);
    } else {
      HoldKeepsShape(r, book, n);
    }
    hide *;
    StepCases(r, book, n);
  }

  lemma StepCases(r: Setup, book: Book, n: int)
    requires r.Valid() && r.lookback <= n < |r.data|
    ensures Step(r.k, book, r.data[n], r.signals[n], n)
         == if book.position.Some? then
              var exit := ExitLevel(book.position.value, r.data[n], r.signals[n]);
              if exit.Some? then
                Close(r.k, book, Slipped(exit.value, book.position.value.side == Short, r.k.slippage),
                      n - book.position.value.entryBar)
              else book
            else if Calls(r.signals[n]) then Open(r.k, book, r.data[n], r.signals[n].value, n)
            else book
  {
    hide ExitLevel, Close, Open, Slipped;
  }

  // ---------- Whole runs ----------

  lemma {:induction false} RunHasShape(r: Setup, n: nat)
    requires r.Valid() && r.lookback <= n <= |r.data|
    ensures Shape(r, Run(r.k, r.initial, r.data, r.signals, r.lookback, n), n)
    decreases n
  {
    hide Step, Shape;
    if n == r.lookback {
      StartHasShape(r);
    } else {
      RunHasShape(r, n - 1);
      StepKeepsShape(r, Run(r.k, r.initial, r.data, r.signals, r.lookback, n - 1), n - 1);
    }
  }

  lemma StartHasShape(r: Setup)
    requires r.Valid() && r.lookback <= |r.data|
    ensures Shape(r, Book(r.initial, None, []), r.lookback)
  {
  }

  /** The trades of a finished run: each taken on a calling signal at that bar's close, slipped, sized from the
      capital the earlier trades left; held while no bar meets its stop, its target or an opposite signal; and
      left on the first one that does, the stop going before the target and the target before the signal.
      Only the last trade may have been closed at the final close instead. */
  ghost predicate LegalRun(r: Setup, trades: seq<Trade>)
    requires r.Valid() && |r.data| >= 1
  {
    forall i :: 0 <= i < |trades| ==>
      var capital := CapitalAfter(r.k, r.initial, trades[..i]);
      || Legal(r, trades[i], capital, |r.data|)
      || (i == |trades| - 1 && ClosedAtEnd(r, trades[i], capital))
  }

  lemma LegalThenLast(r: Setup, trades: seq<Trade>, t: Trade)
    requires r.Valid() && |r.data| >= 1 && AllLegal(r, trades, |r.data|)
    requires ClosedAtEnd(r, t, CapitalAfter(r.k, r.initial, trades))
    ensures LegalRun(r, trades + [t])
  {
    hide Legal, ClosedAtEnd, CapitalAfter;
    var all := trades + [t];
    forall i | 0 <= i < |all| ensures all[..i] == if i < |trades| then trades[..i] else trades {
    }
  }

  lemma TradesAreLegal(r: Setup)
    requires r.Valid() && |r.data| > r.lookback
    ensures var book := Finish(r.k, Run(r.k, r.initial, r.data, r.signals, r.lookback, |r.data|), r.data);
            && LegalRun(r, book.trades)
            && book.position == None && book.capital == CapitalAfter(r.k, r.initial, book.trades)
  {
    hide Run, Shape, Close, ClosedTrade, CapitalAfter, AllLegal, ClosedAtEnd, Scale;
    var n := |r.data|;
    var book := Run(r.k, r.initial, r.data, r.signals, r.lookback, n);
    RunHasShape(r, n);
    ShapeAtEnd(r, book);
    if book.position.Some? {
      var p, last := book.position.value, r.data[n - 1].close;
      ClosedMeans(r.k, book, last, n - p.entryBar, r.initial);
      LegalThenLast(r, book.trades, ClosedTrade(p, last, n - p.entryBar));
    } else {
      AllLegalRun(r, book.trades);
    }
  }

  /** What the book before the end allows: the open position closed at the last close is a legal last trade. */
  lemma ShapeAtEnd(r: Setup, book: Book)
    requires r.Valid() && |r.data| > r.lookback && Shape(r, book, |r.data|)
    ensures AllLegal(r, book.trades, |r.data|)
    ensures var flat := CapitalAfter(r.k, r.initial, book.trades);
            if book.position.None? then book.capital == flat
            else
              var p, last := book.position.value, r.data[|r.data| - 1].close;
              && book.capital == flat - Scale(Scale(p.qty, p.entryPrice), r.k.commission)
              && ClosedAtEnd(r, ClosedTrade(p, last, |r.data| - p.entryBar), flat)
  {
    hide AllLegal, AllAnswered, CapitalAfter, Scale, TakenOn, QuietBetween, Pnl;
    if book.position.Some? {
      var p := book.position.value;
      PnlMeans(p.side, p.entryPrice, r.data[|r.data| - 1].close, p.qty);
    }
  }

  lemma AllLegalRun(r: Setup, trades: seq<Trade>)
    requires r.Valid() && |r.data| >= 1 && AllLegal(r, trades, |r.data|)
    ensures LegalRun(r, trades)
  {
    hide Legal, ClosedAtEnd, CapitalAfter;
  }

  /** No calling signal on a traded bar is lost: a position is held on it, or was until it. */
  lemma EverySignalAnswered(r: Setup, n: nat, j: int)
    requires r.Valid() && r.lookback <= j < n <= |r.data| && Calls(r.signals[j])
    ensures Answered(Run(r.k, r.initial, r.data, r.signals, r.lookback, n), j)
  {
    RunHasShape(r, n);
    hide Run, Answered, AllLegal;
  }

  /** Every point of the equity curve: the capital the closed trades left and, while a position is held, less
      its entry commission and plus its profit at the bar's close. */
  lemma CurveMeans(r: Setup, curve: seq<real>, i: int)
    requires r.Valid() && r.lookback <= i < |r.data|
    requires Curve(r.k, r.initial, r.data, r.signals, r.lookback, |r.data|, curve)
    ensures var book := Run(r.k, r.initial, r.data, r.signals, r.lookback, i + 1);
            var flat, price := CapitalAfter(r.k, r.initial, book.trades), r.data[i].close;
            curve[1 + i - r.lookback]
            == if book.position.None? then flat
               else
                 var p := book.position.value;
                 flat - Scale(Scale(p.qty, p.entryPrice), r.k.commission)
                 + Scale(if p.side == Long then price - p.entryPrice else p.entryPrice - price, p.qty)
  {
    hide Run, Shape, CapitalAfter, Scale, Pnl, Marked;
    var book := Run(r.k, r.initial, r.data, r.signals, r.lookback, i + 1);
    RunHasShape(r, i + 1);
    MarkMeans(r, book, i + 1, r.data[i].close);
    assert curve[1 + i - r.lookback] == Marked(book, r.data[i].close);
  }

  lemma MarkMeans(r: Setup, book: Book, n: int, price: real)
    requires r.Valid() && r.lookback <= n <= |r.data| && Shape(r, book, n)
    ensures var flat := CapitalAfter(r.k, r.initial, book.trades);
            Marked(book, price)
            == if book.position.None? then flat
               else
                 var p := book.position.value;
                 flat - Scale(Scale(p.qty, p.entryPrice), r.k.commission)
                 + Scale(if p.side == Long then price - p.entryPrice else p.entryPrice - price, p.qty)
  {
    hide AllLegal, AllAnswered, CapitalAfter, Scale, Pnl, TakenOn, QuietBetween;
    if book.position.Some? {
      PnlMeans(book.position.value.side, book.position.value.entryPrice, price, book.position.value.qty);
    }
  }
}
