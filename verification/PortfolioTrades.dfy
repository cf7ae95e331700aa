/** Which trades the multi-symbol backtester makes, told from the price columns: entries on upward crosses, exits
    on the first downward cross seen with a price. */
module PortfolioTrades {
  import opened Common
  import opened Indicators
  import opened Portfolio

  // ---------- Columns with gaps ----------

  /** Forward filling gives the last price at or before a bar, and none before the first price. */
  lemma {:induction false} FilledMeans(x: seq<Option<real>>, i: nat)
    requires i < |x|
    ensures Filled(x, i).Some? <==> exists j :: 0 <= j <= i && x[j].Some?
    ensures forall j :: 0 <= j <= i && x[j].Some? && (forall m :: j < m <= i ==> x[m].None?) ==> Filled(x, i) == x[j]
  {
    if i > 0 && x[i].None? {
      FilledMeans(x, i - 1);
    }
  }

  function PricedBars(x: seq<Option<real>>): set<nat> {
    set j: nat | j < |x| && x[j].Some?
  }

  lemma {:induction false} ValidCountMeans(x: seq<Option<real>>)
    ensures ValidCount(x) == |PricedBars(x)|
  {
    if x != [] {
      var front := x[..|x| - 1];
      ValidCountMeans(front);
      assert PricedBars(x) == PricedBars(front) + if x[|x| - 1].Some? then {|x| - 1} else {};
    } else {
      assert PricedBars(x) == {};
    }
  }

  /** A symbol has averages exactly if its first bar is priced and at least `slow` bars are; each is then the
      exponential average of the forward-filled prices. */
  lemma AverageMeans(x: seq<Option<real>>, span: int, slow: int, i: nat)
    requires span >= 1 && i < |x|
    ensures Average(x, span, slow, i).Some? <==> |PricedBars(x)| >= slow && x[0].Some?
    ensures Average(x, span, slow, i).Some? ==> Average(x, span, slow, i) == Some(Ema(FilledPrices(x), span, i))
  {
    ValidCountMeans(x);
    hide ValidCount, Ema, FilledPrices, PricedBars;
  }

  // ---------- Crosses ----------

  /** The symbol can be traded on this bar: priced on it, and with averages. */
  predicate Readable(f: Feed, slow: int, s: string, bar: int)
    requires f.Valid() && s in f.close && 0 <= bar < f.bars
  {
    f.close[s][bar].Some? && f.close[s][0].Some? && |PricedBars(f.close[s])| >= slow
  }

  function Gap(f: Feed, fast: int, slow: int, s: string, bar: int): real
    requires f.Valid() && fast >= 1 && slow >= 1 && s in f.close && 0 <= bar < f.bars
  {
    Ema(FilledPrices(f.close[s]), fast, bar) - Ema(FilledPrices(f.close[s]), slow, bar)
  }

  /** The fast average comes above the slow one on this bar, having been at or below it. */
  predicate CrossesUp(f: Feed, fast: int, slow: int, s: string, bar: int)
    requires f.Valid() && fast >= 1 && slow >= 1 && s in f.close && 0 <= bar < f.bars
  {
    bar >= 1 && Readable(f, slow, s, bar) && Gap(f, fast, slow, s, bar - 1) <= 0.0 < Gap(f, fast, slow, s, bar)
  }

  /** The fast average comes below the slow one on this bar, having been at or above it. */
  predicate CrossesDown(f: Feed, fast: int, slow: int, s: string, bar: int)
    requires f.Valid() && fast >= 1 && slow >= 1 && s in f.close && 0 <= bar < f.bars
  {
    bar >= 1 && Readable(f, slow, s, bar) && Gap(f, fast, slow, s, bar - 1) >= 0.0 > Gap(f, fast, slow, s, bar)
  }

  lemma CrossMeans(f: Feed, fast: int, slow: int, s: string, bar: nat)
    requires f.Valid() && fast >= 1 && slow >= 1 && s in f.close && 1 <= bar < f.bars
    ensures CrossOf(f, fast, slow, s, bar) == Up <==> CrossesUp(f, fast, slow, s, bar)
    ensures CrossOf(f, fast, slow, s, bar) == Down <==> CrossesDown(f, fast, slow, s, bar)
  {
    var x := f.close[s];
    hide Average, Ema, FilledPrices, PricedBars;
    AverageMeans(x, fast, slow, bar);
    AverageMeans(x, slow, slow, bar);
    AverageMeans(x, fast, slow, bar - 1);
    AverageMeans(x, slow, slow, bar - 1);
  }

  // ---------- Legal positions and trades ----------

  ghost predicate NoDownBetween(f: Feed, fast: int, slow: int, s: string, from: int, to: int)
    requires f.Valid() && fast >= 1 && slow >= 1 && s in f.close && 0 <= from && to <= f.bars
  {
    forall j :: from < j < to ==> !CrossesDown(f, fast, slow, s, j)
  }

  /** Entered on an upward cross after the warm-up, at that bar's price, and not crossed down before bar `k`. */
  ghost predicate HeldWell(f: Feed, fast: int, slow: int, s: string, h: Held, k: int)
    requires f.Valid() && fast >= 1 && slow >= 1 && 0 <= k <= f.bars
  {
    && s in f.close && slow <= h.entryBar < k
    && CrossesUp(f, fast, slow, s, h.entryBar) && f.close[s][h.entryBar] == Some(h.entryPrice)
    && NoDownBetween(f, fast, slow, s, h.entryBar, k)
  }

  /** Entered like that on bar `e`, left at the price of the first later bar that crosses down; fees are taken
      on both fills and the profit is net of them. */
  ghost predicate LegalTrade(p: Params, f: Feed, fast: int, slow: int, t: Trade, e: int, k: int)
    requires f.Valid() && fast >= 1 && slow >= 1 && 0 <= k <= f.bars
  {
    var x := e + t.holdBars;
    && t.symbol in f.close && slow <= e < x < k
    && CrossesUp(f, fast, slow, t.symbol, e) && f.close[t.symbol][e] == Some(t.entryPrice)
    && CrossesDown(f, fast, slow, t.symbol, x) && f.close[t.symbol][x] == Some(t.exitPrice)
    && NoDownBetween(f, fast, slow, t.symbol, e, x)
    && Settles(p, t)
  }

  predicate Settles(p: Params, t: Trade) {
    && t.feesPaid == Scale(p.fee(t.symbol), Scale(t.entryPrice, t.qty)) + Scale(p.fee(t.symbol), Scale(t.exitPrice, t.qty))
    && t.pnl == Scale(t.exitPrice, t.qty) - Scale(t.entryPrice, t.qty) - t.feesPaid
  }

  ghost predicate IsLegal(p: Params, f: Feed, fast: int, slow: int, t: Trade, k: int)
    requires f.Valid() && fast >= 1 && slow >= 1 && 0 <= k <= f.bars
  {
    exists e :: LegalTrade(p, f, fast, slow, t, e, k)
  }

  /** The account before bar `k`. */
  ghost predicate Shape(p: Params, f: Feed, fast: int, slow: int, a: Account, k: int)
    requires f.Valid() && fast >= 1 && slow >= 1 && 0 <= k <= f.bars
  {
    && (forall s :: s in a.positions ==> HeldWell(f, fast, slow, s, a.positions[s], k))
    && (forall i :: 0 <= i < |a.trades| ==> IsLegal(p, f, fast, slow, a.trades[i], k))
  }

  /** The account in the middle of bar `k`'s exits: what is left to exit crosses down on it. */
  ghost predicate ShapeAmid(p: Params, f: Feed, fast: int, slow: int, a: Account, k: int)
    requires f.Valid() && fast >= 1 && slow >= 1 && 0 <= k < f.bars
  {
    && (forall s :: s in a.positions ==> HeldWell(f, fast, slow, s, a.positions[s], k))
    && (forall i :: 0 <= i < |a.trades| ==> IsLegal(p, f, fast, slow, a.trades[i], k + 1))
  }

  lemma LegalLonger(p: Params, f: Feed, fast: int, slow: int, t: Trade, k: int, m: int)
    requires f.Valid() && fast >= 1 && slow >= 1 && 0 <= k <= m <= f.bars && IsLegal(p, f, fast, slow, t, k)
    ensures IsLegal(p, f, fast, slow, t, m)
  {
    hide CrossesUp, CrossesDown, NoDownBetween, Settles;
    var e :| LegalTrade(p, f, fast, slow, t, e, k);
    assert LegalTrade(p, f, fast, slow, t, e, m);
  }

  lemma TradeSettles(p: Params, s: string, h: Held, exit: real, bar: int)
    ensures Settles(p, TradeOf(s, h, exit, p.fee(s), bar))
  {
    ScaleMinus(h.qty, exit, h.entryPrice);
    hide Scale;
  }

  lemma ExitIsLegal(p: Params, f: Feed, fast: int, slow: int, a: Account, s: string, k: int)
    requires f.Valid() && fast >= 1 && slow >= 1 && slow <= k < f.bars && ShapeAmid(p, f, fast, slow, a, k)
    requires s in a.positions && s in f.close && CrossesDown(f, fast, slow, s, k)
    requires f.close[s][k].Some?
    ensures ShapeAmid(p, f, fast, slow, ExitOne(p, a, s, f.close[s][k].value, k), k)
  {
    hide CrossesUp, CrossesDown, NoDownBetween, Settles, Scale, IsLegal;
    var h, price := a.positions[s], f.close[s][k].value;
    assert HeldWell(f, fast, slow, s, h, k);
    var t := TradeOf(s, h, price, p.fee(s), k);
    TradeSettles(p, s, h, price, k);
    LegalWitness(p, f, fast, slow, t, h.entryBar, k + 1);
    hide TradeOf, HeldWell;
  }

  lemma LegalWitness(p: Params, f: Feed, fast: int, slow: int, t: Trade, e: int, k: int)
    requires f.Valid() && fast >= 1 && slow >= 1 && 0 <= k <= f.bars && LegalTrade(p, f, fast, slow, t, e, k)
    ensures IsLegal(p, f, fast, slow, t, k)
  {
  }

  lemma {:induction false} ExitsAreLegal(p: Params, f: Feed, fast: int, slow: int, a: Account, exits: seq<string>, k: int)
    requires f.Valid() && fast >= 1 && slow >= 1 && slow <= k < f.bars && ShapeAmid(p, f, fast, slow, a, k)
    requires forall s :: s in exits ==> s in a.positions && s in f.close && s in f.QuotesAt(k)
    requires forall s :: s in exits ==> CrossesDown(f, fast, slow, s, k)
    requires forall i, j :: 0 <= i < j < |exits| ==> exits[i] != exits[j]
    ensures ShapeAmid(p, f, fast, slow, ExitAll(p, a, exits, f.QuotesAt(k), k), k)
    ensures forall s :: s in ExitAll(p, a, exits, f.QuotesAt(k), k).positions ==> s !in exits
  {
    hide CrossesDown, ShapeAmid, ExitOne;
    if exits != [] {
      var front, s := exits[..|exits| - 1], exits[|exits| - 1];
      ExitsAreLegal(p, f, fast, slow, a, front, k);
      var mid := ExitAll(p, a, front, f.QuotesAt(k), k);
      assert s in exits;
      ExitIsLegal(p, f, fast, slow, mid, s, k);
    }
  }

  /** After the exits of bar `k` nothing held crosses down on it. */
  lemma ExitsDone(p: Params, f: Feed, fast: int, slow: int, a: Account, k: int)
    requires f.Valid() && fast >= 1 && slow >= 1 && slow <= k < f.bars && ShapeAmid(p, f, fast, slow, a, k)
    requires forall s :: s in a.positions && s in f.close ==> !CrossesDown(f, fast, slow, s, k)
    ensures Shape(p, f, fast, slow, a, k + 1)
  {
    hide CrossesUp, CrossesDown, IsLegal;
  }

  lemma EntryIsLegal(p: Params, f: Feed, fast: int, slow: int, a: Account, s: string, k: int)
    requires f.Valid() && fast >= 1 && slow >= 1 && slow <= k < f.bars && Shape(p, f, fast, slow, a, k + 1)
    requires s in f.close && CrossesUp(f, fast, slow, s, k) && s in f.QuotesAt(k)
    requires EnterOne(p, a, s, f.QuotesAt(k), k).Some?
    ensures Shape(p, f, fast, slow, EnterOne(p, a, s, f.QuotesAt(k), k).value, k + 1)
  {
    hide CrossesUp, CrossesDown, IsLegal, PricedValue, Allocation, Ratio, Units, FeeOn, Scale;
  }

  lemma {:induction false} EntriesAreLegal(p: Params, f: Feed, fast: int, slow: int, a: Account, cs: seq<string>, k: int)
    requires f.Valid() && fast >= 1 && slow >= 1 && slow <= k < f.bars && Shape(p, f, fast, slow, a, k + 1)
    requires forall s :: s in cs ==> s in f.close && s in f.QuotesAt(k)
    requires forall s :: s in cs ==> CrossesUp(f, fast, slow, s, k)
    ensures Shape(p, f, fast, slow, EnterAll(p, a, cs, f.QuotesAt(k), k), k + 1)
    decreases |cs|
  {
    hide CrossesUp, Shape, EnterOne, Feed.QuotesAt;
    if cs != [] {
      var next := EnterOne(p, a, cs[0], f.QuotesAt(k), k);
      if next.Some? {
        EntryIsLegal(p, f, fast, slow, a, cs[0], k);
        EntriesAreLegal(p, f, fast, slow, next.value, cs[1..], k);
      }
    }
  }

  lemma ShapeIdle(p: Params, f: Feed, fast: int, slow: int, a: Account, k: int)
    requires f.Valid() && fast >= 1 && slow >= 1 && 0 <= k < slow && k < f.bars && Shape(p, f, fast, slow, a, k)
    ensures Shape(p, f, fast, slow, a, k + 1)
  {
    hide IsLegal, CrossesUp, NoDownBetween;
    forall i | 0 <= i < |a.trades| ensures IsLegal(p, f, fast, slow, a.trades[i], k + 1) {
      LegalLonger(p, f, fast, slow, a.trades[i], k, k + 1);
    }
  }

  lemma ShapeEntersBar(p: Params, f: Feed, fast: int, slow: int, a: Account, k: int)
    requires f.Valid() && fast >= 1 && slow >= 1 && slow <= k < f.bars && Shape(p, f, fast, slow, a, k)
    ensures ShapeAmid(p, f, fast, slow, a, k)
    ensures forall s :: s in a.positions ==> s in f.close
  {
    hide IsLegal, CrossesUp, NoDownBetween;
    forall i | 0 <= i < |a.trades| ensures IsLegal(p, f, fast, slow, a.trades[i], k + 1) {
      LegalLonger(p, f, fast, slow, a.trades[i], k, k + 1);
    }
  }

  /** The candidates of a bar, told from the prices: symbols not held that cross up on it; and the exits: symbols
      held that cross down. */
  lemma CrossingMeans(f: Feed, fast: int, slow: int, bar: nat, held: set<string>)
    requires f.Valid() && fast >= 1 && slow >= 1 && 1 <= bar < f.bars
    ensures forall s :: s in Crossing(f, fast, slow, f.symbols, bar, Up, held, false) <==>
              s in f.close && s !in held && CrossesUp(f, fast, slow, s, bar)
    ensures forall s :: s in Crossing(f, fast, slow, f.symbols, bar, Down, held, true) <==>
              s in f.close && s in held && CrossesDown(f, fast, slow, s, bar)
  {
    CrossingFacts(f, fast, slow, f.symbols, bar, Up, held, false);
    CrossingFacts(f, fast, slow, f.symbols, bar, Down, held, true);
    hide CrossOf, CrossesUp, CrossesDown, Crossing;
    forall s | s in f.close
      ensures CrossOf(f, fast, slow, s, bar) == Up <==> CrossesUp(f, fast, slow, s, bar)
      ensures CrossOf(f, fast, slow, s, bar) == Down <==> CrossesDown(f, fast, slow, s, bar)
    {
      CrossMeans(f, fast, slow, s, bar);
    }
  }

  lemma BarKeepsShape(p: Params, f: Feed, fast: int, slow: int, a: Account, k: nat)
    requires f.Valid() && fast >= 1 && slow >= 1 && k < f.bars && Shape(p, f, fast, slow, a, k)
    ensures Shape(p, f, fast, slow, Bar(p, f, fast, slow, a, k), k + 1)
  {
    if k < slow {
      ShapeIdle(p, f, fast, slow, a, k);
    } else {
      var held := a.positions.Keys;
      ShapeEntersBar(p, f, fast, slow, a, k);
      CrossingFacts(f, fast, slow, f.symbols, k, Down, held, true);
      CrossingFacts(f, fast, slow, f.symbols, k, Up, held, false);
      CrossingMeans(f, fast, slow, k, held);
      BarSteps(p, f, fast, slow, a, k, Crossing(f, fast, slow, f.symbols, k, Down, held, true),
        Crossing(f, fast, slow, f.symbols, k, Up, held, false));
    }
  }

  lemma BarSteps(p: Params, f: Feed, fast: int, slow: int, a: Account, k: nat, exits: seq<string>, cs: seq<string>)
    requires f.Valid() && fast >= 1 && slow >= 1 && slow <= k < f.bars && ShapeAmid(p, f, fast, slow, a, k)
    requires forall s :: s in exits ==> s in f.QuotesAt(k)
    requires forall s :: s in cs ==> s in f.QuotesAt(k)
    requires forall i, j :: 0 <= i < j < |exits| ==> exits[i] != exits[j]
    requires forall s :: s in exits <==> s in f.close && s in a.positions && CrossesDown(f, fast, slow, s, k)
    requires forall s :: s in cs <==> s in f.close && s !in a.positions && CrossesUp(f, fast, slow, s, k)
    ensures Shape(p, f, fast, slow, EnterAll(p, ExitAll(p, a, exits, f.QuotesAt(k), k), cs, f.QuotesAt(k), k), k + 1)
  {
    hide CrossesUp, CrossesDown, Shape, ShapeAmid, ExitAll, EnterAll, Feed.QuotesAt;
    ExitsAreLegal(p, f, fast, slow, a, exits, k);
    var mid := ExitAll(p, a, exits, f.QuotesAt(k), k);
    ExitsDone(p, f, fast, slow, mid, k);
    EntriesAreLegal(p, f, fast, slow, mid, cs, k);
  }

  /** On every run: each closed trade was entered on an upward cross and left at the first later priced bar that
      crosses down, each open position was entered on one and has not crossed down since. */
  lemma {:induction false} RunTradesAreLegal(p: Params, f: Feed, fast: int, slow: int, k: nat)
    requires f.Valid() && fast >= 1 && slow >= 1 && k <= f.bars
    ensures Shape(p, f, fast, slow, Run(p, f, fast, slow, k), k)
  {
    hide Bar, HeldWell, IsLegal;
    if k > 0 {
      RunTradesAreLegal(p, f, fast, slow, k - 1);
      hide Shape;
      BarKeepsShape(p, f, fast, slow, Run(p, f, fast, slow, k - 1), k - 1);
    }
  }

  // ---------- The end of a run ----------

  /** `price` is the last price of the column, quoted on bar `from` or later. */
  ghost predicate LastQuote(x: seq<Option<real>>, from: int, price: real) {
    exists j :: 0 <= from <= j < |x| && x[j] == Some(price) && forall m :: j < m < |x| ==> x[m].None?
  }

  lemma {:induction false} FilledIsLastQuote(x: seq<Option<real>>, from: nat)
    requires from < |x| && x[from].Some?
    ensures Filled(x, |x| - 1).Some? && LastQuote(x, from, Filled(x, |x| - 1).value)
    decreases |x|
  {
    var last := |x| - 1;
    if x[last].None? {
      FilledIsLastQuote(x[..last], from);
      FilledOfPrefix(x, last, last - 1);
      LastQuoteLonger(x, from, Filled(x[..last], last - 1).value);
      hide LastQuote;
    } else {
      assert x[last] == Some(Filled(x, last).value);
    }
  }

  lemma LastQuoteLonger(x: seq<Option<real>>, from: int, price: real)
    requires x != [] && x[|x| - 1].None? && LastQuote(x[..|x| - 1], from, price)
    ensures LastQuote(x, from, price)
  {
    var front := x[..|x| - 1];
    var j :| 0 <= from <= j < |front| && front[j] == Some(price) && forall m :: j < m < |front| ==> front[m].None?;
    assert x[j] == Some(price);
    assert forall m :: j < m < |front| ==> x[m] == front[m];
  }

  lemma {:induction false} FilledOfPrefix(x: seq<Option<real>>, n: nat, i: nat)
    requires i < n <= |x|
    ensures Filled(x[..n], i) == Filled(x, i)
  {
    if i > 0 {
      FilledOfPrefix(x, n, i - 1);
    }
  }

  /** What the closing trades report: the position still open, entered on an upward cross and not crossed down
      since, at the last price its symbol ever had, held to the final bar. */
  lemma ClosingTradesMean(p: Params, f: Feed, fast: int, slow: int, order: seq<string>, i: nat)
    requires f.Valid() && fast >= 1 && slow >= 1 && f.bars >= 1 && i < |order|
    requires forall s :: s in order ==> s in Run(p, f, fast, slow, f.bars).positions
    ensures var a := Run(p, f, fast, slow, f.bars);
            && (forall s :: s in a.positions ==> s in f.close)
            && var t, h := Closings(p, a, Marks(f, a.positions), order, f.bars - 1)[i], a.positions[order[i]];
               && HeldWell(f, fast, slow, order[i], h, f.bars)
               && t.symbol == order[i] && t.entryPrice == h.entryPrice && t.qty == h.qty
               && t.holdBars == f.bars - 1 - h.entryBar && Settles(p, t)
               && LastQuote(f.close[order[i]], h.entryBar, t.exitPrice)
  {
    hide Run, Shape, Settles, LastQuote, TradeOf, LastPrice;
    RunTradesAreLegal(p, f, fast, slow, f.bars);
    var a, s := Run(p, f, fast, slow, f.bars), order[i];
    ShapeHolds(p, f, fast, slow, a);
    assert s in order;
    var h := a.positions[s];
    LastPriceMeans(f, fast, slow, s, h);
    hide HeldWell;
    TradeSettles(p, s, h, LastPrice(f, s, h), f.bars - 1);
    TradeOfMeans(s, h, LastPrice(f, s, h), p.fee(s), f.bars - 1);
  }

  lemma ShapeHolds(p: Params, f: Feed, fast: int, slow: int, a: Account)
    requires f.Valid() && fast >= 1 && slow >= 1 && Shape(p, f, fast, slow, a, f.bars)
    ensures forall s :: s in a.positions ==> s in f.close && HeldWell(f, fast, slow, s, a.positions[s], f.bars)
  {
    hide CrossesUp, NoDownBetween, IsLegal;
  }

  lemma LastPriceMeans(f: Feed, fast: int, slow: int, s: string, h: Held)
    requires f.Valid() && fast >= 1 && slow >= 1 && f.bars >= 1 && HeldWell(f, fast, slow, s, h, f.bars)
    ensures LastQuote(f.close[s], h.entryBar, LastPrice(f, s, h))
  {
    hide CrossesUp, NoDownBetween, LastQuote;
    FilledIsLastQuote(f.close[s], h.entryBar);
  }

  lemma TradeOfMeans(s: string, h: Held, exit: real, fee: real, bar: int)
    ensures var t := TradeOf(s, h, exit, fee, bar);
            t.symbol == s && t.entryPrice == h.entryPrice && t.exitPrice == exit && t.qty == h.qty
            && t.holdBars == bar - h.entryBar
  {
    hide Scale;
  }

  /** Every point of the equity curve, those of the warm-up included, is the account after that bar: its cash
      and the positions quoted on the bar. */
  lemma CurveIsMarkedAccount(p: Params, f: Feed, fast: int, slow: int, equity: seq<real>, i: nat)
    requires f.Valid() && fast >= 1 && slow >= 1 && i < f.bars && Traces(p, f, fast, slow, equity, f.bars)
    ensures equity[i] == Equity(Run(p, f, fast, slow, i + 1), f.QuotesAt(i))
  {
    hide Run, Equity;
    if i < slow {
      WarmUpIsIdle(p, f, fast, slow, i + 1);
      CashAlone(p, f.QuotesAt(i));
    }
  }

  lemma CashAlone(p: Params, px: Quotes)
    ensures Equity(Account(p.initialCash, map[], []), px) == p.initialCash
  {
    assert Values(map[], px) == map[];
  }
}
