/** What the crossover simulator guarantees over whole runs: no look-ahead, agreement of its
    two passes, exact fee accounting and the shape of its trade list. */
module CrossoverLaws {
  import opened Common
  import opened Indicators
  import opened Crossover

  // ---------- Causality ----------

  ghost predicate SamePast(x: Bars, y: Bars, k: nat)
    requires x.Valid() && y.Valid()
  {
    && k <= |x.close| && k <= |y.close|
    && x.close[..k] == y.close[..k]
    && x.High()[..k] == y.High()[..k]
    && x.Low()[..k] == y.Low()[..k]
  }

  lemma SamePastShorter(x: Bars, y: Bars, k: nat, m: nat)
    requires x.Valid() && y.Valid() && SamePast(x, y, k) && m <= k
    ensures SamePast(x, y, m)
  {
    assert x.close[..m] == x.close[..k][..m] && y.close[..m] == y.close[..k][..m];
    assert x.High()[..m] == x.High()[..k][..m] && y.High()[..m] == y.High()[..k][..m];
    assert x.Low()[..m] == x.Low()[..k][..m] && y.Low()[..m] == y.Low()[..k][..m];
  }

  lemma FastAboveCausal(x: Bars, y: Bars, c: Config, i: nat)
    requires Ready(x, c) && Ready(y, c) && SamePast(x, y, i + 1)
    ensures FastAbove(x, c, i) == FastAbove(y, c, i)
  {
    forall j | 0 <= j <= i ensures x.close[j] == y.close[j] {
      assert x.close[..i + 1][j] == y.close[..i + 1][j];
    }
    EmaCausal(x.close, y.close, c.fast, i);
    EmaCausal(x.close, y.close, c.slow, i);
  }

  lemma SignalsCausal(x: Bars, y: Bars, c: Config, i: nat)
    requires Ready(x, c) && Ready(y, c) && SamePast(x, y, i + 1)
    ensures Entry(x, c, i) == Entry(y, c, i) && Exit(x, c, i) == Exit(y, c, i)
  {
    hide FastAbove;
    FastAboveCausal(x, y, c, i);
    if i >= 1 {
      SamePastShorter(x, y, i + 1, i);
      FastAboveCausal(x, y, c, i - 1);
    }
  }

  lemma StopCausal(x: Bars, y: Bars, c: Config, i: nat)
    requires Ready(x, c) && Ready(y, c) && SamePast(x, y, i + 1)
    ensures x.close[i] == y.close[i] && x.Low()[i] == y.Low()[i]
    ensures StopAt(x, c, i) == StopAt(y, c, i)
  {
    hide Atr, StopBelow;
    assert x.close[..i + 1][i] == y.close[..i + 1][i] && x.Low()[..i + 1][i] == y.Low()[..i + 1][i];
    AtrCausal(x.High(), x.Low(), x.close, y.High(), y.Low(), y.close, ATR_PERIOD, i);
  }

  /** The whole simulator state before bar `k` is decided by the first `k` bars. */
  lemma {:induction false} RunCausal(x: Bars, y: Bars, c: Config, k: nat)
    requires Ready(x, c) && Ready(y, c) && SamePast(x, y, k)
    ensures Run(x, c, k) == Run(y, c, k)
  {
    if k > 0 {
      SamePastShorter(x, y, k, k - 1);
      RunCausal(x, y, c, k - 1);
      SignalsCausal(x, y, c, k - 1);
      StopCausal(x, y, c, k - 1);
      hide Entry, Exit, StopAt, Worth, Proceeds, Return, Quantity, Invest;
    }
  }

  function ExitedBefore(trades: seq<Trade>, k: int): seq<Trade> {
    if trades == [] then []
    else
      var front, last := ExitedBefore(trades[..|trades| - 1], k), trades[|trades| - 1];
      if last.exitBar < k then front + [last] else front
  }

  /** One bar adds at most one trade, stamped with that bar. */
  lemma StepTrades(b: Bars, c: Config, s: Sim, i: nat)
    requires Ready(b, c) && i < |b.close| && Priced(s)
    ensures var after := Step(b, c, s, i).trades;
            after == s.trades || (after != [] && after[..|after| - 1] == s.trades && after[|after| - 1].exitBar == i)
  {
    hide Entry, Exit, StopAt, Worth, Proceeds, Return, Quantity, Invest;
  }

  lemma {:induction false} ExitedBeforeAll(b: Bars, c: Config, k: nat, bound: int)
    requires Ready(b, c) && k <= |b.close| && k <= bound
    ensures ExitedBefore(Run(b, c, k).trades, bound) == Run(b, c, k).trades
  {
    if k > 0 {
      ExitedBeforeAll(b, c, k - 1, bound);
      StepTrades(b, c, Run(b, c, k - 1), k - 1);
      hide Step;
    }
  }

  /** Cutting the trade list of a longer run at bar `k` gives the list the run had at bar `k`. */
  lemma {:induction false} TradesUpTo(b: Bars, c: Config, k: nat, n: nat)
    requires Ready(b, c) && k <= n <= |b.close|
    ensures ExitedBefore(Run(b, c, n).trades, k) == Run(b, c, k).trades
    decreases n
  {
    if k == n {
      ExitedBeforeAll(b, c, k, k);
    } else {
      TradesUpTo(b, c, k, n - 1);
      StepTrades(b, c, Run(b, c, n - 1), n - 1);
      hide Step;
    }
  }

  /** No look-ahead: a backtest of the first `k` bars reports exactly the trades of the
      full backtest that were closed by then, in the same order. */
  lemma NoLookAhead(b: Bars, c: Config, k: nat)
    requires Ready(b, c) && c.slow + 2 <= k <= |b.close|
    ensures b.Prefix(k).Valid()
    ensures Trades(b.Prefix(k), c) == ExitedBefore(Trades(b, c), k)
  {
    var p := b.Prefix(k);
    assert p.close[..k] == b.close[..k] && p.High()[..k] == b.High()[..k] && p.Low()[..k] == b.Low()[..k];
    RunCausal(p, b, c, k);
    TradesUpTo(b, c, k, |b.close|);
  }

  // ---------- Lockstep of the two passes ----------

  lemma {:induction false} Lockstep(b: Bars, c: Config, k: nat)
    requires Ready(b, c) && k <= |b.close|
    ensures var s := Run(b, c, k); ReplayRun(b, c, k) == Replay(s.cash, s.position, s.stop, s.lastExit)
  {
    if k > 0 {
      Lockstep(b, c, k - 1);
    }
  }

  // ---------- Money ----------

  ghost predicate Sane(c: Config) {
    c.fees < 1.0 && c.risk >= 0.0 && c.initialCash >= 0.0
  }

  function TotalPnl(trades: seq<Trade>): real {
    if trades == [] then 0.0 else TotalPnl(trades[..|trades| - 1]) + trades[|trades| - 1].pnl
  }

  function TotalInvested(trades: seq<Trade>): real {
    if trades == [] then 0.0 else TotalInvested(trades[..|trades| - 1]) + trades[|trades| - 1].invested
  }

  lemma TotalsAppend(trades: seq<Trade>, t: Trade)
    ensures TotalPnl(trades + [t]) == TotalPnl(trades) + t.pnl
    ensures TotalInvested(trades + [t]) == TotalInvested(trades) + t.invested
  {
    assert (trades + [t])[..|trades|] == trades;
  }

  /** Money still tied up in the open position, at what was committed to it. */
  function Committed(s: Sim): real {
    if s.position > 0.0 then s.invested else 0.0
  }

  function FeesOn(invested: real, fees: real): real {
    fees * invested
  }

  ghost predicate Books(c: Config, s: Sim) {
    && s.cash >= 0.0 && s.position >= 0.0
    && (s.position > 0.0 ==> Worth(s.position, s.entryPrice) == s.invested - FeesOn(s.invested, c.fees))
    && s.cash + Committed(s) == c.initialCash + TotalPnl(s.trades) - FeesOn(TotalInvested(s.trades), c.fees)
  }

  lemma InvestBounds(cash: real, c: Config)
    requires Sane(c) && cash >= 0.0
    ensures 0.0 <= Invest(cash, c) <= cash
    ensures cash > 0.0 && c.risk > 0.0 ==> Invest(cash, c) > 0.0
  {
    var m := Min(c.risk, 1.0);
    MulNonneg(cash, m);
    MulNonneg(cash, 1.0 - m);
    assert cash * m + cash * (1.0 - m) == cash;
    if cash > 0.0 && c.risk > 0.0 {
      MulPos(cash, m);
    }
  }

  lemma QuantityBounds(invest: real, c: Config, price: real)
    requires Sane(c) && invest >= 0.0 && price > 0.0
    ensures Quantity(invest, c, price) >= 0.0
    ensures invest > 0.0 <==> Quantity(invest, c, price) > 0.0
    ensures Worth(Quantity(invest, c, price), price) == invest - FeesOn(invest, c.fees)
  {
    MulNonneg(invest, 1.0 - c.fees);
    DivNonneg(invest * (1.0 - c.fees), price);
    if invest > 0.0 {
      MulPos(invest, 1.0 - c.fees);
      DivPos(invest * (1.0 - c.fees), price);
    }
    DivMul(invest * (1.0 - c.fees), price);
  }

  lemma ProceedsPositive(qty: real, price: real, fees: real)
    requires qty > 0.0 && price > 0.0 && fees < 1.0
    ensures Proceeds(qty, price, fees) > 0.0
  {
    MulPos(qty, price);
    MulPos(qty * price, 1.0 - fees);
  }

  lemma FeesAdd(a: real, b: real, fees: real)
    ensures FeesOn(a + b, fees) == FeesOn(a, fees) + FeesOn(b, fees)
  {
  }

  lemma CloseKeepsBooks(c: Config, s: Sim, price: real, reason: ExitReason, i: int)
    requires Sane(c) && Books(c, s) && s.position > 0.0 && s.entryPrice != 0.0 && price > 0.0
    ensures Books(c, CloseAt(s, c, price, reason, i))
    ensures CloseAt(s, c, price, reason, i).cash > 0.0
  {
    hide Worth, Proceeds, FeesOn, Return;
    ProceedsPositive(s.position, price, c.fees);
    var t := Closed(s, c, price, reason, i);
    TotalsAppend(s.trades, t);
    FeesAdd(TotalInvested(s.trades), s.invested, c.fees);
    assert CloseAt(s, c, price, reason, i).trades == s.trades + [t];
  }

  lemma OpenKeepsBooks(b: Bars, c: Config, s: Sim, i: nat)
    requires Ready(b, c) && i < |b.close| && Sane(c) && Books(c, s) && s.position == 0.0
    ensures Books(c, OpenAt(b, c, s, i))
    ensures s.cash > 0.0 && c.risk > 0.0 ==> OpenAt(b, c, s, i).position > 0.0
  {
    InvestBounds(s.cash, c);
    QuantityBounds(Invest(s.cash, c), c, b.close[i]);
  }

  lemma {:induction false} BooksBalance(b: Bars, c: Config, k: nat)
    requires Ready(b, c) && k <= |b.close| && Sane(c)
    ensures Books(c, Run(b, c, k))
    ensures c.initialCash > 0.0 && c.risk > 0.0 && Run(b, c, k).position == 0.0 ==> Run(b, c, k).cash > 0.0
  {
    if k > 0 {
      BooksBalance(b, c, k - 1);
      var s, i := Run(b, c, k - 1), k - 1;
      if Stopped(b, c, i, s.position, s.stop) {
        CloseKeepsBooks(c, s, s.stop, StopLoss, i);
      } else if Entry(b, c, i) && s.position == 0.0 {
        OpenKeepsBooks(b, c, s, i);
      } else if Exit(b, c, i) && s.position > 0.0 {
        CloseKeepsBooks(c, s, b.close[i], Signal, i);
      }
    }
  }

  /** Exact fee accounting: whenever nothing is held, the cash is the starting cash plus the
      recorded profits, less the entry fees, which the recorded profits leave out. */
  lemma FlatCash(b: Bars, c: Config, k: nat)
    requires Ready(b, c) && k <= |b.close| && Sane(c) && Run(b, c, k).position == 0.0
    ensures var s := Run(b, c, k);
            s.cash == c.initialCash + TotalPnl(s.trades) - FeesOn(TotalInvested(s.trades), c.fees)
  {
    BooksBalance(b, c, k);
    hide Run, FeesOn, Worth;
  }

  /** The last point of the equity curve and the reported final value differ by exactly the
      exit fee on the position still held; flat, they are equal. */
  lemma FinalValueVersusEquity(b: Bars, c: Config)
    requires Ready(b, c) && |b.close| >= 1 && Sane(c)
    ensures var n, s := |b.close|, Run(b, c, |b.close|);
            EquityAt(b, c, n - 1)
            == FinalValue(s, c, b.close[n - 1])
             + if s.position > 0.0 then FeesOn(Worth(s.position, b.close[n - 1]), c.fees) else 0.0
  {
    var n := |b.close|;
    var s := Run(b, c, n);
    Lockstep(b, c, n - 1);
    Lockstep(b, c, n);
    BooksBalance(b, c, n);
    assert s.position >= 0.0;
    SplitProceeds(s.position, b.close[n - 1], c.fees);
    hide Books, Proceeds, Worth, FeesOn, Entry, Exit, StopAt, Invest, Quantity;
    assert ReplayRun(b, c, n) == ReplayStep(b, c, ReplayRun(b, c, n - 1), n - 1);
  }

  lemma SplitProceeds(qty: real, price: real, fees: real)
    ensures Worth(qty, price) == Proceeds(qty, price, fees) + FeesOn(Worth(qty, price), fees)
    ensures qty == 0.0 ==> Worth(qty, price) == 0.0
  {
  }

  // ---------- Shape of the trade list ----------

  /** The stop placed on bar `entered` is touched on bar `i`. */
  predicate StopHit(b: Bars, c: Config, entered: nat, i: nat)
    requires Ready(b, c) && entered < |b.close| && i < |b.close|
  {
    HasStops(c) && StopAt(b, c, entered) > 0.0 && b.Low()[i] <= StopAt(b, c, entered)
  }

  ghost predicate HeldThrough(b: Bars, c: Config, entered: nat, k: nat)
    requires Ready(b, c) && entered < k <= |b.close|
  {
    forall j :: entered < j < k ==> !StopHit(b, c, entered, j) && !Exit(b, c, j)
  }

  /** A trade opens at the close of an upward cross and ends on the first later bar that touches
      its stop (at the stop) or crosses downward (at the close), the stop taking precedence. */
  ghost predicate Legal(b: Bars, c: Config, t: Trade)
    requires Ready(b, c)
  {
    && 0 <= t.entryBar < t.exitBar < |b.close|
    && Entry(b, c, t.entryBar)
    && t.entryPrice == b.close[t.entryBar]
    && HeldThrough(b, c, t.entryBar, t.exitBar)
    && t.ret == Return(t.entryPrice, t.exitPrice)
    && if StopHit(b, c, t.entryBar, t.exitBar)
       then t.reason == StopLoss && t.exitPrice == StopAt(b, c, t.entryBar)
       else t.reason == Signal && Exit(b, c, t.exitBar) && t.exitPrice == b.close[t.exitBar]
  }

  ghost predicate Spaced(c: Config, trades: seq<Trade>) {
    forall j :: 0 < j < |trades| ==>
      trades[j - 1].exitBar < trades[j].entryBar && trades[j].entryBar - trades[j - 1].exitBar >= c.cooldown
  }

  ghost predicate Shape(b: Bars, c: Config, s: Sim, k: nat)
    requires Ready(b, c) && k <= |b.close|
  {
    && (forall t :: t in s.trades ==> Legal(b, c, t) && t.exitBar < k)
    && Spaced(c, s.trades)
    && (s.trades != [] ==> s.lastExit == s.trades[|s.trades| - 1].exitBar)
    && (s.position > 0.0 ==>
         && 0 <= s.entryBar < k
         && Entry(b, c, s.entryBar) && s.entryPrice == b.close[s.entryBar]
         && s.stop == StopAt(b, c, s.entryBar)
         && HeldThrough(b, c, s.entryBar, k)
         && (s.trades != [] ==> s.lastExit < s.entryBar && s.entryBar - s.lastExit >= c.cooldown))
  }

  lemma ClosedIsLegal(b: Bars, c: Config, s: Sim, price: real, reason: ExitReason, i: nat)
    requires Ready(b, c) && i < |b.close| && Shape(b, c, s, i) && s.position > 0.0 && Priced(s)
    requires reason == StopLoss ==> StopHit(b, c, s.entryBar, i) && price == s.stop
    requires reason == Signal ==> !StopHit(b, c, s.entryBar, i) && Exit(b, c, i) && price == b.close[i]
    ensures Legal(b, c, Closed(s, c, price, reason, i))
  {
    hide Entry, Exit, StopAt, HeldThrough, Worth, Proceeds, Return, Spaced;
  }

  lemma CloseKeepsShape(b: Bars, c: Config, s: Sim, price: real, reason: ExitReason, i: nat)
    requires Ready(b, c) && i < |b.close| && Shape(b, c, s, i) && s.position > 0.0 && Priced(s)
    requires reason == StopLoss ==> StopHit(b, c, s.entryBar, i) && price == s.stop
    requires reason == Signal ==> !StopHit(b, c, s.entryBar, i) && Exit(b, c, i) && price == b.close[i]
    ensures Shape(b, c, CloseAt(s, c, price, reason, i), i + 1)
  {
    hide Legal;
    ClosedIsLegal(b, c, s, price, reason, i);
    var t := Closed(s, c, price, reason, i);
    hide Entry, Exit, StopAt, HeldThrough, Worth, Proceeds, Return, StopHit;
    var trades := s.trades + [t];
    forall j | 0 < j < |trades|
      ensures trades[j - 1].exitBar < trades[j].entryBar && trades[j].entryBar - trades[j - 1].exitBar >= c.cooldown
    {
      assert j < |s.trades| ==> trades[j - 1] == s.trades[j - 1] && trades[j] == s.trades[j];
    }
  }

  lemma HoldKeepsShape(b: Bars, c: Config, s: Sim, i: nat)
    requires Ready(b, c) && i < |b.close| && Shape(b, c, s, i)
    requires s.position > 0.0 ==> !StopHit(b, c, s.entryBar, i) && !Exit(b, c, i)
    ensures Shape(b, c, s, i + 1)
  {
  }

  lemma OpenKeepsShape(b: Bars, c: Config, s: Sim, i: nat)
    requires Ready(b, c) && i < |b.close| && Shape(b, c, s, i) && s.position == 0.0
    requires Entry(b, c, i) && i - s.lastExit >= c.cooldown
    ensures Shape(b, c, OpenAt(b, c, s, i), i + 1)
  {
    if s.trades != [] {
      assert s.trades[|s.trades| - 1] in s.trades;
    }
  }

  lemma StepKeepsShape(b: Bars, c: Config, s: Sim, i: nat)
    requires Ready(b, c) && i < |b.close| && Shape(b, c, s, i) && Priced(s)
    ensures Shape(b, c, Step(b, c, s, i), i + 1)
  {
    hide Entry, Exit, StopAt, HeldThrough, Spaced, CloseAt, OpenAt;
    if Stopped(b, c, i, s.position, s.stop) {
      CloseKeepsShape(b, c, s, s.stop, StopLoss, i);
    } else if Entry(b, c, i) && s.position == 0.0 && i - s.lastExit >= c.cooldown {
      OpenKeepsShape(b, c, s, i);
    } else if Exit(b, c, i) && s.position > 0.0 {
      CloseKeepsShape(b, c, s, b.close[i], Signal, i);
    } else {
      HoldKeepsShape(b, c, s, i);
    }
  }

  lemma StartHasShape(b: Bars, c: Config)
    requires Ready(b, c)
    ensures Shape(b, c, Start(c), 0)
  {
  }

  lemma {:induction false} TradeShape(b: Bars, c: Config, k: nat)
    requires Ready(b, c) && k <= |b.close|
    ensures Shape(b, c, Run(b, c, k), k)
  {
    hide Shape, Step;
    if k == 0 {
      StartHasShape(b, c);
    } else {
      TradeShape(b, c, k - 1);
      StepKeepsShape(b, c, Run(b, c, k - 1), k - 1);
    }
  }

  /** Every reported trade is legal, trades are disjoint in time and respect the cooldown. */
  lemma TradesAreLegalAndSpaced(b: Bars, c: Config)
    requires Ready(b, c)
    ensures forall t :: t in Trades(b, c) ==> Legal(b, c, t)
    ensures Spaced(c, Trades(b, c))
  {
    TradeShape(b, c, |b.close|);
  }

  /** An upward cross on bar `i` is not lost: it falls into a position held on that bar, or into
      the span or the cooldown of a closed trade. */
  ghost predicate Accounted(c: Config, s: Sim, i: int) {
    || (s.position > 0.0 && s.entryBar <= i)
    || exists t :: t in s.trades && t.entryBar <= i && (i <= t.exitBar || i - t.exitBar < c.cooldown)
  }

  lemma AccountedGrows(c: Config, s: Sim, s': Sim, i: int)
    requires Accounted(c, s, i)
    requires s.trades <= s'.trades
    requires s.position > 0.0 && s.entryBar <= i ==>
               || (s'.position > 0.0 && s'.entryBar == s.entryBar)
               || exists t :: t in s'.trades && t.entryBar == s.entryBar && i <= t.exitBar
    ensures Accounted(c, s', i)
  {
    if !(s.position > 0.0 && s.entryBar <= i) {
      var t :| t in s.trades && t.entryBar <= i && (i <= t.exitBar || i - t.exitBar < c.cooldown);
      assert t in s'.trades;
    }
  }

  lemma StepAccounts(b: Bars, c: Config, s: Sim, i: nat)
    requires Ready(b, c) && i < |b.close| && Priced(s) && Shape(b, c, s, i) && s.position >= 0.0
    requires s.trades == [] ==> s.lastExit <= -c.cooldown - 1 || s.position > 0.0
    requires s.position == 0.0 ==> OpenAt(b, c, s, i).position > 0.0
    requires forall j :: 0 <= j < i && Entry(b, c, j) ==> Accounted(c, s, j)
    ensures forall j :: 0 <= j <= i && Entry(b, c, j) ==> Accounted(c, Step(b, c, s, i), j)
  {
    hide Entry, Exit, StopAt, Worth, Proceeds, Return, Quantity, Invest;
    var s' := Step(b, c, s, i);
    forall j | 0 <= j <= i && Entry(b, c, j) ensures Accounted(c, s', j) {
      if s'.trades != s.trades {
        assert s'.trades[|s.trades|] in s'.trades;
      }
      if j < i {
        AccountedGrows(c, s, s', j);
      } else if s.position == 0.0 && i - s.lastExit < c.cooldown {
        assert s.trades[|s.trades| - 1] in s.trades;
      }
    }
  }

  lemma {:induction false} FirstExitSentinel(b: Bars, c: Config, k: nat)
    requires Ready(b, c) && k <= |b.close|
    ensures Run(b, c, k).trades == [] ==> Run(b, c, k).lastExit == -c.cooldown - 1
  {
    if k > 0 {
      FirstExitSentinel(b, c, k - 1);
      hide Entry, Exit, StopAt, Worth, Proceeds, Return, Quantity, Invest;
    }
  }

  /** No upward cross is ignored for any reason other than a position or a cooldown. */
  lemma {:induction false} EveryEntrySignalAccounted(b: Bars, c: Config, k: nat)
    requires Ready(b, c) && k <= |b.close| && Sane(c) && c.initialCash > 0.0 && c.risk > 0.0
    ensures forall i :: 0 <= i < k && Entry(b, c, i) ==> Accounted(c, Run(b, c, k), i)
  {
    if k == 0 {
      return;
    }
    var s := Run(b, c, k - 1);
    EveryEntrySignalAccounted(b, c, k - 1);
    BooksBalance(b, c, k - 1);
    assert s.position >= 0.0;
    TradeShape(b, c, k - 1);
    FirstExitSentinel(b, c, k - 1);
    hide Shape, Books, OpenAt, Entry, Accounted;
    if s.position == 0.0 {
      OpenKeepsBooks(b, c, s, k - 1);
    }
    StepAccounts(b, c, s, k - 1);
    hide Step;
  }

  /** A stop never fills above the entry, provided the first bar's low is not above its high. */
  lemma StopsFillBelowEntry(b: Bars, c: Config, t: Trade)
    requires Ready(b, c) && t in Trades(b, c) && t.reason == StopLoss
    requires b.Low()[0] <= b.High()[0]
    ensures 0.0 < t.exitPrice <= t.entryPrice && t.ret <= 0.0
  {
    TradesAreLegalAndSpaced(b, c);
    hide Trades;
    StopBelowClose(b, c, t.entryBar);
    LossReturn(t.entryPrice, t.exitPrice);
  }

  lemma StopBelowClose(b: Bars, c: Config, i: nat)
    requires Ready(b, c) && i < |b.close| && b.Low()[0] <= b.High()[0] && StopAt(b, c, i) > 0.0
    ensures StopAt(b, c, i) <= b.close[i]
  {
    AtrNonneg(b.High(), b.Low(), b.close, ATR_PERIOD, i);
    var a := Atr(b.High(), b.Low(), b.close, ATR_PERIOD, i);
    hide Atr;
    MulNonneg(a.value, c.stopMult);
  }

  lemma LossReturn(entry: real, exit: real)
    requires entry > 0.0 && exit <= entry
    ensures (exit - entry) / entry <= 0.0
  {
    var r := (exit - entry) / entry;
    DivMul(exit - entry, entry);
    if r > 0.0 {
      MulPos(r, entry);
    }
  }
}
