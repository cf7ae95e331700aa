/** How the crossover simulator compounds: its cash over any run, told from the trade records, the risk
    fraction and the fee rate alone. */
module CrossoverGrowth {
  import opened Common
  import opened Crossover
  import opened CrossoverLaws

  /** Share of the cash an entry commits. */
  function Stake(c: Config): real {
    if c.risk <= 1.0 then c.risk else 1.0
  }

  /** What comes back per unit of money committed: the price ratio less a fee on either side. */
  function Back(c: Config, entry: real, exit: real): real
    requires entry != 0.0
  {
    (1.0 - c.fees) * (1.0 - c.fees) * exit / entry
  }

  /** Factor by which one round trip multiplies the flat cash. */
  function Factor(c: Config, entry: real, exit: real): real
    requires entry != 0.0
  {
    1.0 - Stake(c) + Scale(Stake(c), Back(c, entry, exit))
  }

  ghost predicate Entered(trades: seq<Trade>) {
    forall i :: 0 <= i < |trades| ==> trades[i].entryPrice > 0.0
  }

  function Growth(c: Config, trades: seq<Trade>): real
    requires forall i :: 0 <= i < |trades| ==> trades[i].entryPrice > 0.0
  {
    if trades == [] then 1.0
    else
      var t := trades[|trades| - 1];
      Scale(Growth(c, trades[..|trades| - 1]), Factor(c, t.entryPrice, t.exitPrice))
  }

  /** Flat cash after these trades. */
  function FlatCashAfter(c: Config, trades: seq<Trade>): real
    requires forall i :: 0 <= i < |trades| ==> trades[i].entryPrice > 0.0
  {
    Scale(c.initialCash, Growth(c, trades))
  }

  /** Every trade committed its stake of the flat cash before it, and its profit is what came back of the
      money that bought the position, less that money. */
  ghost predicate Staked(c: Config, trades: seq<Trade>)
    requires Entered(trades)
  {
    forall i :: 0 <= i < |trades| ==>
      var t := trades[i];
      && t.invested == Scale(Stake(c), FlatCashAfter(c, trades[..i]))
      && t.pnl == Scale(t.invested, Back(c, t.entryPrice, t.exitPrice)) - Scale(t.invested, 1.0 - c.fees)
  }

  ghost predicate Compounds(c: Config, s: Sim) {
    && Entered(s.trades) && Staked(c, s.trades)
    && var flat := FlatCashAfter(c, s.trades);
    if s.position > 0.0 then
      && s.entryPrice > 0.0
      && s.invested == Scale(Stake(c), flat) && s.cash == flat - s.invested
      && Worth(s.position, s.entryPrice) == Scale(s.invested, 1.0 - c.fees)
    else s.cash == flat
  }

  lemma GrowthSnoc(c: Config, trades: seq<Trade>, t: Trade)
    requires Entered(trades) && t.entryPrice > 0.0
    ensures Entered(trades + [t])
    ensures FlatCashAfter(c, trades + [t]) == Scale(FlatCashAfter(c, trades), Factor(c, t.entryPrice, t.exitPrice))
  {
    hide Factor;
    assert (trades + [t])[..|trades|] == trades;
    MulAssoc(c.initialCash, Growth(c, trades), Factor(c, t.entryPrice, t.exitPrice));
  }

  lemma StakedSnoc(c: Config, trades: seq<Trade>, t: Trade)
    requires Entered(trades) && Staked(c, trades) && t.entryPrice > 0.0
    requires t.invested == Scale(Stake(c), FlatCashAfter(c, trades))
    requires t.pnl == Scale(t.invested, Back(c, t.entryPrice, t.exitPrice)) - Scale(t.invested, 1.0 - c.fees)
    ensures Entered(trades + [t]) && Staked(c, trades + [t])
  {
    hide FlatCashAfter, Back, Stake, Scale;
    forall i | 0 <= i < |trades + [t]| ensures (trades + [t])[..i] == if i < |trades| then trades[..i] else trades {
    }
  }

  /** What a position bought with `invested`, entry fee off, fetches at another price. */
  lemma SaleBack(c: Config, qty: real, entry: real, invested: real, exit: real)
    requires entry > 0.0 && Worth(qty, entry) == Scale(invested, 1.0 - c.fees)
    ensures Proceeds(qty, exit, c.fees) == Scale(invested, Back(c, entry, exit))
  {
    SaleRatio(qty, entry, invested, 1.0 - c.fees, exit);
  }

  lemma SaleRatio(qty: real, entry: real, invested: real, k: real, exit: real)
    requires entry > 0.0 && qty * entry == invested * k
    ensures qty * exit * k == invested * (k * k * exit / entry)
  {
    var back := k * k * exit / entry;
    DivMul(k * k * exit, entry);
    assert qty * exit * k * entry == qty * entry * (exit * k);
    assert invested * k * (exit * k) == invested * (k * k * exit);
    MulAssoc(invested, back, entry);
    CancelFactor(qty * exit * k, invested * back, entry);
  }

  lemma CancelFactor(x: real, y: real, d: real)
    requires d > 0.0 && x * d == y * d
    ensures x == y
  {
    if x < y {
      MulPos(y - x, d);
    } else if y < x {
      MulPos(x - y, d);
    }
  }

  lemma FactorOut(flat: real, r: real, back: real)
    ensures flat - Scale(r, flat) + Scale(Scale(r, flat), back) == Scale(flat, 1.0 - r + Scale(r, back))
  {
    assert r * flat * back == flat * (r * back);
    MulDistributes(flat, 1.0 - r, r * back);
    MulDistributes(flat, 1.0, -r);
  }

  lemma CloseCompounds(c: Config, s: Sim, price: real, reason: ExitReason, i: int)
    requires Compounds(c, s) && s.position > 0.0
    ensures Compounds(c, CloseAt(s, c, price, reason, i))
  {
    hide Scale, Proceeds, Worth, Return, Back, Stake, FlatCashAfter, Staked;
    var t := Closed(s, c, price, reason, i);
    SaleBack(c, s.position, s.entryPrice, s.invested, price);
    FactorOut(FlatCashAfter(c, s.trades), Stake(c), Back(c, s.entryPrice, price));
    StakedSnoc(c, s.trades, t);
    GrowthSnoc(c, s.trades, t);
    assert CloseAt(s, c, price, reason, i).trades == s.trades + [t];
  }

  lemma EntryMoney(b: Bars, c: Config, cash: real, i: nat)
    requires Ready(b, c) && i < |b.close| && Sane(c) && cash >= 0.0
    ensures var invest := Scale(Stake(c), cash);
            && Invest(cash, c) == invest && invest >= 0.0
            && Worth(Quantity(invest, c, b.close[i]), b.close[i]) == Scale(invest, 1.0 - c.fees)
            && Quantity(invest, c, b.close[i]) >= 0.0
            && (Quantity(invest, c, b.close[i]) == 0.0 <==> invest == 0.0)
  {
    var invest := Invest(cash, c);
    InvestBounds(cash, c);
    QuantityBounds(invest, c, b.close[i]);
    assert invest - FeesOn(invest, c.fees) == Scale(invest, 1.0 - c.fees);
    assert invest == Scale(Stake(c), cash);
  }

  lemma OpenCompounds(b: Bars, c: Config, s: Sim, i: nat)
    requires Ready(b, c) && i < |b.close| && Sane(c) && Compounds(c, s) && s.position == 0.0 && s.cash >= 0.0
    ensures Compounds(c, OpenAt(b, c, s, i))
  {
    hide Invest, Quantity, StopAt, FlatCashAfter, Stake, Staked, Scale, Worth;
    EntryMoney(b, c, s.cash, i);
  }

  lemma {:induction false} RunCompounds(b: Bars, c: Config, k: nat)
    requires Ready(b, c) && k <= |b.close| && Sane(c)
    ensures Compounds(c, Run(b, c, k))
  {
    if k > 0 {
      RunCompounds(b, c, k - 1);
      BooksBalance(b, c, k - 1);
      var s, i := Run(b, c, k - 1), k - 1;
      assert s.cash >= 0.0 && s.position >= 0.0;
      hide Compounds, Books, OpenAt, CloseAt, Entry, Exit, StopAt;
      if Stopped(b, c, i, s.position, s.stop) {
        CloseCompounds(c, s, s.stop, StopLoss, i);
      } else if Entry(b, c, i) && s.position == 0.0 {
        OpenCompounds(b, c, s, i);
      } else if Exit(b, c, i) && s.position > 0.0 {
        CloseCompounds(c, s, b.close[i], Signal, i);
      }
    }
  }

  /** Whenever flat, cash is the initial cash times the product of the factors of all closed trades. */
  lemma FlatCashCompounds(b: Bars, c: Config, k: nat)
    requires Ready(b, c) && k <= |b.close| && Sane(c) && Run(b, c, k).position == 0.0
    ensures Entered(Run(b, c, k).trades)
    ensures Run(b, c, k).cash == c.initialCash * Growth(c, Run(b, c, k).trades)
  {
    hide Run, Growth, Staked;
    RunCompounds(b, c, k);
  }

  /** While a position is held, the cash left is the flat cash less its stake, so none with a risk fraction of
      one or more. */
  lemma CashWhileInvested(b: Bars, c: Config, k: nat)
    requires Ready(b, c) && k <= |b.close| && Sane(c) && Run(b, c, k).position > 0.0
    ensures var s := Run(b, c, k);
            && Entered(s.trades)
            && s.invested == Scale(Stake(c), FlatCashAfter(c, s.trades))
            && s.cash == FlatCashAfter(c, s.trades) - s.invested
            && s.position * s.entryPrice == s.invested * (1.0 - c.fees)
            && (c.risk >= 1.0 ==> s.cash == 0.0)
  {
    hide Run, Growth, Staked, FlatCashAfter;
    RunCompounds(b, c, k);
  }

  /** What every reported trade committed and earned. */
  lemma TradesAreStaked(b: Bars, c: Config)
    requires Ready(b, c) && Sane(c)
    ensures Entered(Trades(b, c)) && Staked(c, Trades(b, c))
  {
    hide Run, Staked;
    RunCompounds(b, c, |b.close|);
    NothingStaked(c);
  }

  lemma NothingStaked(c: Config)
    ensures Staked(c, [])
  {
  }

  /** The reported final value: flat cash, with a position still held counted as sold at the last close. */
  lemma FinalValueCompounds(b: Bars, c: Config)
    requires Ready(b, c) && |b.close| >= 1 && Sane(c)
    ensures var n, s := |b.close|, Run(b, c, |b.close|);
            && Entered(s.trades) && (s.position > 0.0 ==> s.entryPrice > 0.0)
            && FinalValue(s, c, b.close[n - 1])
            == Scale(FlatCashAfter(c, s.trades),
                     if s.position > 0.0 then Factor(c, s.entryPrice, b.close[n - 1]) else 1.0)
  {
    var n, s := |b.close|, Run(b, c, |b.close|);
    RunCompounds(b, c, n);
    var flat := FlatCashAfter(c, s.trades);
    assert Scale(flat, 1.0) == flat;
    hide Run, FlatCashAfter, Staked, Scale, Back, Stake, Worth, Proceeds;
    if s.position > 0.0 {
      SaleBack(c, s.position, s.entryPrice, s.invested, b.close[n - 1]);
      FactorOut(flat, Stake(c), Back(c, s.entryPrice, b.close[n - 1]));
    }
  }

  /** Every point of the equity curve is the cash of the trade pass after that bar plus the position held then
      at that bar's close. */
  lemma EquityMarksTradePass(b: Bars, c: Config, i: nat)
    requires Ready(b, c) && i < |b.close|
    ensures var s := Run(b, c, i + 1); EquityAt(b, c, i) == s.cash + s.position * b.close[i]
  {
    hide Run, Worth, Stopped, Entry, Exit, StopAt, Proceeds, Invest, Quantity, Step, ReplayRun;
    Lockstep(b, c, i + 1);
    var before, after := ReplayRun(b, c, i), ReplayRun(b, c, i + 1);
    StoppedIsFlat(b, c, i);
    WorthIs(after.position, b.close[i]);
  }

  lemma StoppedIsFlat(b: Bars, c: Config, i: nat)
    requires Ready(b, c) && i < |b.close|
    ensures var before := ReplayRun(b, c, i);
            Stopped(b, c, i, before.position, before.stop) ==> ReplayRun(b, c, i + 1).position == 0.0
  {
    hide Stopped, Entry, Exit, StopAt, Proceeds, Invest, Quantity;
    assert ReplayRun(b, c, i + 1) == ReplayStep(b, c, ReplayRun(b, c, i), i);
  }

  lemma WorthIs(qty: real, price: real)
    ensures Worth(qty, price) == qty * price && (qty == 0.0 ==> Worth(qty, price) == 0.0)
  {
  }
}
