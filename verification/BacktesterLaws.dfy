/** Accounting, exposure and metrics of the single-symbol backtester. */
module BacktesterLaws {
  import opened Common
  import opened Backtester

  // ---------- Accounting ----------

  function Commissions(k: Costs, t: Trade): real {
    Commission(t.qty, t.entryPrice, k.commission) + Commission(t.qty, t.exitPrice, k.commission)
  }

  function NetProfit(k: Costs, trades: seq<Trade>): real {
    if trades == [] then 0.0
    else
      var t := trades[|trades| - 1];
      NetProfit(k, trades[..|trades| - 1]) + (t.pnl - Commissions(k, t))
  }

  function HeldBars(trades: seq<Trade>): int {
    if trades == [] then 0 else HeldBars(trades[..|trades| - 1]) + trades[|trades| - 1].holdBars
  }

  lemma AppendTrade(k: Costs, trades: seq<Trade>, t: Trade)
    ensures NetProfit(k, trades + [t]) == NetProfit(k, trades) + (t.pnl - Commissions(k, t))
    ensures HeldBars(trades + [t]) == HeldBars(trades) + t.holdBars
  {
    assert (trades + [t])[..|trades|] == trades;
  }

  /** Commission already paid on a position still open. */
  function Prepaid(k: Costs, book: Book): real {
    if book.position.Some? then Commission(book.position.value.qty, book.position.value.entryPrice, k.commission) else 0.0
  }

  ghost predicate Accounted(k: Costs, initial: real, book: Book) {
    book.capital == initial + NetProfit(k, book.trades) - Prepaid(k, book)
  }

  /** Holding intervals [entry, entry + hold) follow one another and stay inside the traded bars. */
  ghost predicate Disjoint(trades: seq<Trade>, from: int, to: int) {
    && (forall i :: 0 <= i < |trades| ==>
         from <= trades[i].entryBar && trades[i].holdBars >= 1 && trades[i].entryBar + trades[i].holdBars <= to)
    && forall i :: 0 < i < |trades| ==> trades[i - 1].entryBar + trades[i - 1].holdBars < trades[i].entryBar
  }

  /** Invariant of the bar loop on holding times, before bar `n`. */
  ghost predicate Timed(book: Book, lookback: int, n: int) {
    && Disjoint(book.trades, lookback, n - 1)
    && (book.position.Some? ==>
         && lookback <= book.position.value.entryBar < n
         && (book.trades != [] ==>
              var t := book.trades[|book.trades| - 1]; t.entryBar + t.holdBars < book.position.value.entryBar))
  }

  lemma CloseAccounts(k: Costs, initial: real, book: Book, exit: real, hold: int)
    requires book.position.Some? && Accounted(k, initial, book)
    ensures Accounted(k, initial, Close(k, book, exit, hold))
  {
    hide Commission, Pnl;
    AppendTrade(k, book.trades, ClosedTrade(book.position.value, exit, hold));
  }

  lemma CloseIsTimed(k: Costs, book: Book, exit: real, lookback: int, hold: int, n: int)
    requires book.position.Some? && Timed(book, lookback, n) && hold >= 1 && book.position.value.entryBar + hold <= n
    ensures Disjoint(Close(k, book, exit, hold).trades, lookback, n)
    ensures Timed(Close(k, book, exit, hold), lookback, n + 1)
  {
    hide Commission, Pnl;
    var t := ClosedTrade(book.position.value, exit, hold);
    var trades := book.trades + [t];
    assert Close(k, book, exit, hold).trades == trades;
    forall i | 0 < i < |trades| ensures trades[i - 1].entryBar + trades[i - 1].holdBars < trades[i].entryBar {
      assert trades[i - 1] == book.trades[i - 1];
    }
  }

  lemma StepKeeps(k: Costs, initial: real, book: Book, b: Bar, s: Option<TradeSignal>, lookback: nat, i: nat)
    requires b.close != 0.0 && lookback <= i && Accounted(k, initial, book) && Timed(book, lookback, i)
    ensures Accounted(k, initial, Step(k, book, b, s, i)) && Timed(Step(k, book, b, s, i), lookback, i + 1)
  {
    if book.position.Some? {
      var p := book.position.value;
      var exit := ExitLevel(p, b, s);
      if exit.Some? {
        var price := Slipped(exit.value, p.side == Short, k.slippage);
        CloseAccounts(k, initial, book, price, i - p.entryBar);
        CloseIsTimed(k, book, price, lookback, i - p.entryBar, i);
      }
      hide Accounted, ExitLevel, Close, Slipped;
    }
    hide Commission, Size, Slipped, ExitLevel, Pnl, NetProfit, Scale;
  }

  lemma {:induction false} RunKeeps(
      k: Costs, initial: real, data: seq<Bar>, signals: seq<Option<TradeSignal>>, lookback: nat, n: nat)
    requires ValidData(data, signals, lookback) && lookback <= n <= |data|
    ensures var book := Run(k, initial, data, signals, lookback, n);
            Accounted(k, initial, book) && Timed(book, lookback, n)
    decreases n
  {
    hide Step, Commission;
    if n > lookback {
      RunKeeps(k, initial, data, signals, lookback, n - 1);
      StepKeeps(k, initial, Run(k, initial, data, signals, lookback, n - 1), data[n - 1], signals[n - 1], lookback, n - 1);
      hide Accounted, Timed;
    }
  }

  /** Final capital is the initial capital plus all profits, less the entry and exit commission of every trade. */
  lemma FinalCapital(k: Costs, initial: real, data: seq<Bar>, signals: seq<Option<TradeSignal>>, lookback: nat)
    requires ValidData(data, signals, lookback) && |data| > lookback
    ensures var book := Finish(k, Run(k, initial, data, signals, lookback, |data|), data);
            book.position == None && book.capital == initial + NetProfit(k, book.trades)
  {
    hide Run, Finish, NetProfit, Accounted, Timed;
    RunKeeps(k, initial, data, signals, lookback, |data|);
    FinishAccounts(k, initial, Run(k, initial, data, signals, lookback, |data|), data);
  }

  lemma FinishAccounts(k: Costs, initial: real, book: Book, data: seq<Bar>)
    requires |data| >= 1 && Accounted(k, initial, book)
    ensures var done := Finish(k, book, data);
            done.position == None && done.capital == initial + NetProfit(k, done.trades)
  {
    hide NetProfit, Commission, Pnl;
    if book.position.Some? {
      CloseAccounts(k, initial, book, data[|data| - 1].close, |data| - book.position.value.entryBar);
    }
  }

  /** The final capital is the last point of the equity curve, less the closing commission if a position
      had to be closed. */
  lemma FinalCapitalVersusCurve(
      k: Costs, initial: real, data: seq<Bar>, signals: seq<Option<TradeSignal>>, lookback: nat, curve: seq<real>)
    requires ValidData(data, signals, lookback) && |data| > lookback
    requires Curve(k, initial, data, signals, lookback, |data|, curve)
    ensures var book, last := Run(k, initial, data, signals, lookback, |data|), data[|data| - 1].close;
            Finish(k, book, data).capital
            == curve[|curve| - 1]
             - if book.position.Some? then Commission(book.position.value.qty, last, k.commission) else 0.0
  {
    hide Run, Commission, Pnl;
    var i := |data| - 1;
    assert curve[1 + i - lookback] == Marked(Run(k, initial, data, signals, lookback, i + 1), data[i].close);
  }

  // ---------- Exposure ----------

  lemma {:induction false} DisjointBarsFit(trades: seq<Trade>, from: int, to: int)
    requires Disjoint(trades, from, to) && from <= to
    ensures 0 <= HeldBars(trades)
    ensures HeldBars(trades) <= if trades == [] then 0 else trades[|trades| - 1].entryBar + trades[|trades| - 1].holdBars - from
  {
    if trades != [] {
      var front := trades[..|trades| - 1];
      DisjointBarsFit(front, from, to);
    }
  }

  lemma FinishIsTimed(k: Costs, book: Book, data: seq<Bar>, lookback: int)
    requires |data| >= 1 && Timed(book, lookback, |data|)
    ensures Disjoint(Finish(k, book, data).trades, lookback, |data|)
  {
    hide Commission, Pnl;
    if book.position.Some? {
      CloseIsTimed(k, book, data[|data| - 1].close, lookback, |data| - book.position.value.entryBar, |data|);
    }
  }

  /** Holding intervals are disjoint and inside the traded bars, so together they never exceed them: the
      exposure is at most one before it is clamped. */
  lemma ExposureClampNeverBinds(
      k: Costs, initial: real, data: seq<Bar>, signals: seq<Option<TradeSignal>>, lookback: nat)
    requires ValidData(data, signals, lookback) && |data| > lookback
    ensures var trades := Finish(k, Run(k, initial, data, signals, lookback, |data|), data).trades;
            var total := |data| - lookback;
            && Disjoint(trades, lookback, |data|)
            && 0 <= HeldBars(trades) <= total
            && 0.0 <= HeldBars(trades) as real / total as real <= 1.0
  {
    var book := Run(k, initial, data, signals, lookback, |data|);
    RunKeeps(k, initial, data, signals, lookback, |data|);
    FinishIsTimed(k, book, data, lookback);
    var trades := Finish(k, book, data).trades;
    DisjointBarsFit(trades, lookback, |data|);
    assert HeldBars(trades) <= |data| - lookback;
    hide *;
    FractionBounds(HeldBars(trades), |data| - lookback);
  }

  lemma FractionBounds(n: int, d: int)
    requires 0 <= n <= d && d >= 1
    ensures 0.0 <= n as real / d as real <= 1.0
  {
    DivNonneg(n as real, d as real);
    DivNonneg((d - n) as real, d as real);
    assert n as real / d as real + (d - n) as real / d as real == 1.0;
  }
}
