/** Constraints and reconciliation of the multi-symbol backtester, for every run. */
module PortfolioLaws {
  import opened Common
  import opened MapTotals
  import opened Portfolio

  /** A held position was paid for: what was invested is the allocation less the entry fee. */
  ghost predicate Solid(p: Params, s: string, h: Held) {
    && h.qty > 0.0 && h.entryPrice > 0.0 && h.alloc > 0.0
    && Scale(h.entryPrice, h.qty) == h.invested == h.alloc - FeeOn(p.fee(s), h.alloc)
  }

  ghost predicate Constrained(p: Params, a: Account) {
    && a.cash >= 0.0
    && |a.positions| <= p.maxPositions
    && forall s :: s in a.positions ==> Solid(p, s, a.positions[s])
  }

  function Allocs(positions: map<string, Held>): map<string, real> {
    map s | s in positions :: positions[s].alloc
  }

  /** Recorded profit corrected for the entry fee: it is paid on the allocation but recorded on the
      amount invested, which is smaller by the fee. */
  function Net(p: Params, t: Trade): real {
    t.pnl - FeeOn(p.fee(t.symbol), FeeOn(p.fee(t.symbol), t.alloc))
  }

  function TotalNet(p: Params, trades: seq<Trade>): real {
    if trades == [] then 0.0 else TotalNet(p, trades[..|trades| - 1]) + Net(p, trades[|trades| - 1])
  }

  ghost predicate Reconciled(p: Params, a: Account) {
    a.cash + Total(Allocs(a.positions)) == p.initialCash + TotalNet(p, a.trades)
  }

  ghost predicate NonnegQuotes(px: Quotes) {
    forall s :: s in px ==> px[s] >= 0.0
  }

  lemma ScaleNonneg(a: real, b: real)
    requires a >= 0.0 && b >= 0.0
    ensures Scale(a, b) >= 0.0
  {
    MulNonneg(a, b);
  }

  lemma TotalNetAppend(p: Params, trades: seq<Trade>, t: Trade)
    ensures TotalNet(p, trades + [t]) == TotalNet(p, trades) + Net(p, t)
  {
    assert (trades + [t])[..|trades|] == trades;
  }

  /** The corrected profit of a round trip is exactly the cash it moved. */
  lemma NetIsCashFlow(p: Params, s: string, h: Held, exit: real, bar: int)
    requires Solid(p, s, h)
    ensures var gross := Scale(exit, h.qty);
            Net(p, TradeOf(s, h, exit, p.fee(s), bar)) == gross - FeeOn(p.fee(s), gross) - h.alloc
  {
    var f := p.fee(s);
    ScaleMinus(h.qty, exit, h.entryPrice);
    ScaleMinus(f, h.alloc, FeeOn(f, h.alloc));
    hide Scale;
  }

  lemma ValuesDrop(positions: map<string, Held>, px: Quotes, s: string)
    requires s in positions
    ensures PricedValue(positions - {s}, px)
         == PricedValue(positions, px) - if s in px then Scale(px[s], positions[s].qty) else 0.0
    ensures Total(Allocs(positions - {s})) == Total(Allocs(positions)) - positions[s].alloc
  {
    hide Scale;
    TotalDrop(Values(positions, px), s);
    assert Values(positions - {s}, px) == Values(positions, px) - {s};
    TotalDrop(Allocs(positions), s);
    assert Allocs(positions - {s}) == Allocs(positions) - {s};
  }

  lemma ValuesAdd(positions: map<string, Held>, px: Quotes, s: string, h: Held)
    requires s !in positions && s in px
    ensures PricedValue(positions[s := h], px) == PricedValue(positions, px) + Scale(px[s], h.qty)
    ensures Total(Allocs(positions[s := h])) == Total(Allocs(positions)) + h.alloc
  {
    hide Scale;
    ValuesDrop(positions[s := h], px, s);
    assert positions[s := h] - {s} == positions;
  }

  lemma ValueNonneg(p: Params, positions: map<string, Held>, px: Quotes)
    requires NonnegQuotes(px) && forall s :: s in positions ==> Solid(p, s, positions[s])
    ensures PricedValue(positions, px) >= 0.0
  {
    forall s | s in positions && s in px ensures Values(positions, px)[s] >= 0.0 {
      ScaleNonneg(px[s], positions[s].qty);
    }
    TotalNonneg(Values(positions, px));
  }

  /** Only fees below one let a position be opened at all. */
  lemma FeeBelowOne(p: Params, s: string, h: Held)
    requires Solid(p, s, h)
    ensures p.fee(s) < 1.0
  {
    MulPos(h.entryPrice, h.qty);
    if p.fee(s) >= 1.0 {
      MulNonneg(p.fee(s) - 1.0, h.alloc);
    }
  }

  // ---------- Exits ----------

  lemma ExitKeepsConstraints(p: Params, a: Account, s: string, price: real, bar: int)
    requires s in a.positions && Constrained(p, a) && price >= 0.0
    ensures Constrained(p, ExitOne(p, a, s, price, bar))
  {
    var h := a.positions[s];
    var gross := Scale(price, h.qty);
    assert gross - FeeOn(p.fee(s), gross) >= 0.0 by {
      FeeBelowOne(p, s, h);
      ScaleNonneg(price, h.qty);
      MulNonneg(1.0 - p.fee(s), gross);
      ScaleMinus(gross, 1.0, p.fee(s));
    }
    assert |a.positions - {s}| == |a.positions| - 1 by {
      assert (a.positions - {s}).Keys == a.positions.Keys - {s};
    }
    hide Scale, FeeOn, Solid;
  }

  /** An exit books its cash flow and lowers the equity by exactly its fee. */
  lemma ExitReconciles(p: Params, a: Account, s: string, bar: int, px: Quotes)
    requires s in a.positions && Constrained(p, a) && s in px
    ensures var a' := ExitOne(p, a, s, px[s], bar);
            && Equity(a', px) == Equity(a, px) - FeeOn(p.fee(s), Scale(px[s], a.positions[s].qty))
            && (Reconciled(p, a) ==> Reconciled(p, a'))
  {
    hide Scale, FeeOn, Net, TradeOf, TotalNet, PricedValue, Total, Allocs, Solid;
    var h := a.positions[s];
    ValuesDrop(a.positions, px, s);
    NetIsCashFlow(p, s, h, px[s], bar);
    TotalNetAppend(p, a.trades, TradeOf(s, h, px[s], p.fee(s), bar));
    var a' := ExitOne(p, a, s, px[s], bar);
    assert a'.positions == a.positions - {s} && a'.trades == a.trades + [TradeOf(s, h, px[s], p.fee(s), bar)];
  }

  // ---------- Entries ----------

  lemma AllocationBounds(p: Params, cash: real, value: real)
    requires cash >= 0.0 && value >= 0.0 && Allocation(p, cash, value) > 0.0
    ensures Allocation(p, cash, value) <= cash
    ensures cash + value > 0.0
    ensures Allocation(p, cash, value) <= Scale(p.maxExposure, cash + value) - value
  {
    var e := cash + value;
    var r := Ratio(value, e);
    assert e > 0.0;
    DivMul(value, e);
    assert Scale(r, e) == value;
    ScaleMinus(e, p.maxExposure, r);
    hide Scale, Ratio;
  }

  lemma OpenedIsSolid(p: Params, s: string, price: real, bar: int, alloc: real)
    requires alloc > 0.0 && price > 0.0 && Units(alloc - FeeOn(p.fee(s), alloc), price) > 0.0
    ensures var invest := alloc - FeeOn(p.fee(s), alloc);
            Solid(p, s, Held(price, Units(invest, price), invest, bar, alloc))
  {
    var invest := alloc - FeeOn(p.fee(s), alloc);
    DivMul(invest, price);
    assert Scale(price, Units(invest, price)) == invest;
    hide Scale, FeeOn, Units;
  }

  /** With the new position the priced exposure stays within its share of the equity left after the fee,
      whatever the limit is: above one, because the entry leaves no debt; below, by the budget. */
  lemma ExposureWithinLimit(m: real, value: real, cash: real, alloc: real, fee: real)
    requires value >= 0.0 && 0.0 < alloc <= cash && alloc <= Scale(m, cash + value) - value && 0.0 <= fee
    requires alloc - FeeOn(fee, alloc) >= 0.0
    ensures value + (alloc - FeeOn(fee, alloc)) <= Scale(m, cash + value - FeeOn(fee, alloc))
  {
    var e, paid := cash + value, FeeOn(fee, alloc);
    ScaleNonneg(fee, alloc);
    ScaleMinus(m, e, paid);
    if m <= 1.0 {
      ScaleNonneg(1.0 - m, paid);
      ScaleMinus(paid, 1.0, m);
      assert Scale(1.0, paid) == paid;
    } else {
      ScaleNonneg(m - 1.0, e - paid);
      ScaleMinus(e - paid, m, 1.0);
      assert Scale(1.0, e - paid) == e - paid;
    }
  }

  lemma EntryOpens(p: Params, a: Account, s: string, px: Quotes, bar: int) returns (alloc: real)
    requires s in px
    requires EnterOne(p, a, s, px, bar).Some? && EnterOne(p, a, s, px, bar).value != a
    ensures alloc == Allocation(p, a.cash, PricedValue(a.positions, px)) && alloc > 0.0 && px[s] > 0.0
    ensures Units(alloc - FeeOn(p.fee(s), alloc), px[s]) > 0.0
    ensures EnterOne(p, a, s, px, bar) == Some(Open(p, a, s, px[s], bar, alloc))
    ensures |a.positions| < p.maxPositions
  {
    hide Scale, FeeOn, Allocation, Units, PricedValue, Ratio, Open;
    alloc := Allocation(p, a.cash, PricedValue(a.positions, px));
  }

  /** Opening a position keeps the constraints, given a sound allocation. */
  lemma OpenConstrained(p: Params, a: Account, s: string, price: real, bar: int, alloc: real)
    requires Constrained(p, a) && s !in a.positions && price != 0.0
    requires alloc <= a.cash && |a.positions| < p.maxPositions
    requires var invest := alloc - FeeOn(p.fee(s), alloc);
             Solid(p, s, Held(price, Units(invest, price), invest, bar, alloc))
    ensures Constrained(p, Open(p, a, s, price, bar, alloc))
  {
    hide Scale, FeeOn, Units, Solid;
    var invest := alloc - FeeOn(p.fee(s), alloc);
    var h := Held(price, Units(invest, price), invest, bar, alloc);
    assert |a.positions[s := h]| == |a.positions| + 1 by {
      assert a.positions[s := h].Keys == a.positions.Keys + {s};
    }
  }

  lemma OpenMoney(p: Params, a: Account, s: string, px: Quotes, bar: int, alloc: real)
    requires s in px && s !in a.positions && px[s] != 0.0
    requires var invest := alloc - FeeOn(p.fee(s), alloc); Scale(px[s], Units(invest, px[s])) == invest
    ensures var a' := Open(p, a, s, px[s], bar, alloc);
            && a'.cash == a.cash - alloc && a'.positions.Keys == a.positions.Keys + {s}
            && a'.positions[s].alloc == alloc
            && PricedValue(a'.positions, px) == PricedValue(a.positions, px) + (alloc - FeeOn(p.fee(s), alloc))
            && (Reconciled(p, a) ==> Reconciled(p, a'))
  {
    hide Scale, FeeOn, Units, PricedValue, Total, Allocs, TotalNet;
    var invest := alloc - FeeOn(p.fee(s), alloc);
    ValuesAdd(a.positions, px, s, Held(px[s], Units(invest, px[s]), invest, bar, alloc));
  }

  /** What the sizing formula promises about the amount it takes. */
  lemma AllocationIsSound(p: Params, a: Account, px: Quotes)
    requires Constrained(p, a) && NonnegQuotes(px) && Allocation(p, a.cash, PricedValue(a.positions, px)) > 0.0
    ensures var value := PricedValue(a.positions, px);
            var alloc := Allocation(p, a.cash, value);
            value >= 0.0 && alloc <= a.cash && alloc <= Scale(p.maxExposure, a.cash + value) - value
  {
    ValueNonneg(p, a.positions, px);
    AllocationBounds(p, a.cash, PricedValue(a.positions, px));
    hide Scale, Allocation, PricedValue, Solid;
  }

  lemma OpenFitsExposure(p: Params, a: Account, s: string, px: Quotes, alloc: real)
    requires Constrained(p, a) && NonnegQuotes(px) && s in px && p.fee(s) >= 0.0
    requires alloc == Allocation(p, a.cash, PricedValue(a.positions, px)) && alloc > 0.0
    requires alloc - FeeOn(p.fee(s), alloc) >= 0.0
    ensures PricedValue(a.positions, px) + (alloc - FeeOn(p.fee(s), alloc))
         <= Scale(p.maxExposure, a.cash + PricedValue(a.positions, px) - FeeOn(p.fee(s), alloc))
  {
    hide *;
    AllocationIsSound(p, a, px);
    ExposureWithinLimit(p.maxExposure, PricedValue(a.positions, px), a.cash, alloc, p.fee(s));
  }

  /** An entry keeps cash and position limits, books its allocation, lowers the equity by exactly its
      fee and leaves the exposure within the limit. */
  lemma EntryKeepsLimits(p: Params, a: Account, s: string, px: Quotes, bar: int)
    requires Constrained(p, a) && NonnegQuotes(px) && s in px && s !in a.positions && p.fee(s) >= 0.0
    requires EnterOne(p, a, s, px, bar).Some? && EnterOne(p, a, s, px, bar).value != a
    ensures var a' := EnterOne(p, a, s, px, bar).value;
            && Constrained(p, a')
            && a'.positions.Keys == a.positions.Keys + {s}
            && Equity(a', px) == Equity(a, px) - FeeOn(p.fee(s), a'.positions[s].alloc)
            && PricedValue(a'.positions, px) <= Scale(p.maxExposure, Equity(a', px))
            && (Reconciled(p, a) ==> Reconciled(p, a'))
  {
    hide *;
    var alloc := EntryOpens(p, a, s, px, bar);
    var invest := alloc - FeeOn(p.fee(s), alloc);
    AllocationIsSound(p, a, px);
    OpenedIsSolid(p, s, px[s], bar, alloc);
    SolidInvests(p, s, Held(px[s], Units(invest, px[s]), invest, bar, alloc));
    OpenFitsExposure(p, a, s, px, alloc);
    OpenConstrained(p, a, s, px[s], bar, alloc);
    OpenMoney(p, a, s, px, bar, alloc);
    EquityOf(a, px);
    EquityOf(Open(p, a, s, px[s], bar, alloc), px);
    var e' := Equity(Open(p, a, s, px[s], bar, alloc), px);
    assert e' == a.cash + PricedValue(a.positions, px) - FeeOn(p.fee(s), alloc);
  }

  lemma EquityOf(a: Account, px: Quotes)
    ensures Equity(a, px) == a.cash + PricedValue(a.positions, px)
  {
  }

  lemma SolidInvests(p: Params, s: string, h: Held)
    requires Solid(p, s, h)
    ensures h.invested > 0.0 && Scale(h.entryPrice, h.qty) == h.invested
  {
    MulPos(h.entryPrice, h.qty);
  }

  // ---------- Whole runs ----------

  ghost predicate Usable(p: Params, f: Feed) {
    && f.Valid() && p.initialCash >= 0.0 && p.maxPositions >= 0
    && (forall s :: p.fee(s) >= 0.0)
    && forall s, i :: s in f.close && 0 <= i < |f.close[s]| && f.close[s][i].Some? ==> f.close[s][i].value >= 0.0
  }

  lemma {:induction false} ExitsKeep(p: Params, a: Account, exits: seq<string>, px: Quotes, bar: int)
    requires (forall s :: s in exits ==> s in a.positions && s in px)
    requires forall i, j :: 0 <= i < j < |exits| ==> exits[i] != exits[j]
    requires Constrained(p, a) && Reconciled(p, a) && NonnegQuotes(px)
    ensures var a' := ExitAll(p, a, exits, px, bar); Constrained(p, a') && Reconciled(p, a')
  {
    hide ExitOne, Constrained, Reconciled, Equity;
    if exits != [] {
      var front, s := exits[..|exits| - 1], exits[|exits| - 1];
      ExitsKeep(p, a, front, px, bar);
      var m := ExitAll(p, a, front, px, bar);
      assert s in m.positions;
      ExitKeepsConstraints(p, m, s, px[s], bar);
      ExitReconciles(p, m, s, bar, px);
    }
  }

  lemma EntryKeeps(p: Params, a: Account, s: string, px: Quotes, bar: int)
    requires s in px && s !in a.positions && p.fee(s) >= 0.0
    requires Constrained(p, a) && Reconciled(p, a) && NonnegQuotes(px)
    ensures var next := EnterOne(p, a, s, px, bar);
            next.Some? ==>
              && Constrained(p, next.value) && Reconciled(p, next.value)
              && next.value.positions.Keys <= a.positions.Keys + {s}
  {
    hide EnterOne, Constrained, Reconciled, Equity, PricedValue, Scale, FeeOn;
    var next := EnterOne(p, a, s, px, bar);
    if next.Some? && next.value != a {
      EntryKeepsLimits(p, a, s, px, bar);
    }
  }

  lemma {:induction false} EntriesKeep(p: Params, a: Account, candidates: seq<string>, px: Quotes, bar: int)
    requires forall s :: s in candidates ==> s in px && s !in a.positions && p.fee(s) >= 0.0
    requires forall i, j :: 0 <= i < j < |candidates| ==> candidates[i] != candidates[j]
    requires Constrained(p, a) && Reconciled(p, a) && NonnegQuotes(px)
    ensures var a' := EnterAll(p, a, candidates, px, bar); Constrained(p, a') && Reconciled(p, a')
    decreases |candidates|
  {
    hide EnterOne, Constrained, Reconciled, NonnegQuotes;
    if candidates != [] {
      var s := candidates[0];
      var next := EnterOne(p, a, s, px, bar);
      EntryKeeps(p, a, s, px, bar);
      if next.Some? {
        forall x | x in candidates[1..] ensures x !in next.value.positions {
          assert x != s && x in candidates;
        }
        EntriesKeep(p, next.value, candidates[1..], px, bar);
      }
    }
  }

  lemma BarKeeps(p: Params, f: Feed, fast: int, slow: int, a: Account, bar: nat)
    requires Usable(p, f) && fast >= 1 && slow >= 1 && bar < f.bars
    requires Constrained(p, a) && Reconciled(p, a)
    ensures var a' := Bar(p, f, fast, slow, a, bar); Constrained(p, a') && Reconciled(p, a')
  {
    if bar < slow {
      return;
    }
    var held, px := a.positions.Keys, f.QuotesAt(bar);
    CrossingFacts(f, fast, slow, f.symbols, bar, Down, held, true);
    CrossingFacts(f, fast, slow, f.symbols, bar, Up, held, false);
    hide Constrained, Reconciled, Crossing, ExitAll, EnterAll;
    var exits := Crossing(f, fast, slow, f.symbols, bar, Down, held, true);
    var entries := Crossing(f, fast, slow, f.symbols, bar, Up, held, false);
    ExitsKeep(p, a, exits, px, bar);
    EntriesKeep(p, ExitAll(p, a, exits, px, bar), entries, px, bar);
  }

  /** On every run, after every bar: cash never negative, never more than max_positions positions, and
      cash equals the start plus corrected profits less what is allocated to open positions. */
  lemma {:induction false} RunKeepsConstraints(p: Params, f: Feed, fast: int, slow: int, k: nat)
    requires Usable(p, f) && fast >= 1 && slow >= 1 && k <= f.bars
    ensures Constrained(p, Run(p, f, fast, slow, k)) && Reconciled(p, Run(p, f, fast, slow, k))
  {
    hide Bar, Constrained, Reconciled;
    if k == 0 {
      StartKeeps(p);
    } else {
      RunKeepsConstraints(p, f, fast, slow, k - 1);
      BarKeeps(p, f, fast, slow, Run(p, f, fast, slow, k - 1), k - 1);
    }
  }

  lemma StartKeeps(p: Params)
    requires p.initialCash >= 0.0 && p.maxPositions >= 0
    ensures var a := Account(p.initialCash, map[], []); Constrained(p, a) && Reconciled(p, a)
  {
    assert Allocs(map[]) == map[];
  }

  /** Whenever the book is flat, cash is the start plus the recorded profits less fee squared times the
      allocation of each closed trade. */
  lemma FlatCash(p: Params, f: Feed, fast: int, slow: int, k: nat)
    requires Usable(p, f) && fast >= 1 && slow >= 1 && k <= f.bars
    requires Run(p, f, fast, slow, k).positions == map[]
    ensures var a := Run(p, f, fast, slow, k); a.cash == p.initialCash + TotalNet(p, a.trades)
  {
    RunKeepsConstraints(p, f, fast, slow, k);
    assert Allocs(map[]) == map[];
    hide Run, TotalNet, Constrained;
  }

  // ---------- Every entry of every run ----------

  /** Once the limits stop one candidate they stop every later one. */
  lemma StopIgnoresCandidate(p: Params, a: Account, s: string, t: string, px: Quotes, bar: int)
    requires s in px && t in px && EnterOne(p, a, s, px, bar).None?
    ensures EnterOne(p, a, t, px, bar).None?
  {
    hide Scale, PricedValue, Allocation, Ratio, Units, FeeOn, Open;
  }

  /** The account after the entry loop has dealt with one more candidate. */
  lemma {:induction false} EntriesSnoc(p: Params, a: Account, cs: seq<string>, c: string, px: Quotes, bar: int)
    requires (forall s :: s in cs ==> s in px) && c in px
    ensures forall s :: s in cs + [c] ==> s in px
    ensures var before := EnterAll(p, a, cs, px, bar);
            EnterAll(p, a, cs + [c], px, bar) == EnterOne(p, before, c, px, bar).GetOr(before)
    decreases |cs|
  {
    hide EnterOne;
    if cs == [] {
      assert cs + [c] == [c] && [c][1..] == [];
    } else {
      assert (cs + [c])[1..] == cs[1..] + [c];
      var next := EnterOne(p, a, cs[0], px, bar);
      if next.Some? {
        EntriesSnoc(p, next.value, cs[1..], c, px, bar);
      } else {
        StopIgnoresCandidate(p, a, cs[0], c, px, bar);
      }
    }
  }

  /** The four amounts an entry is limited by: normalised risk, single-position share, exposure budget, cash. */
  ghost predicate IsLeastAmount(p: Params, cash: real, value: real, alloc: real) {
    var equity := cash + value;
    && alloc <= Scale(p.riskPerTrade, equity) / 0.02
    && alloc <= Scale(p.maxSinglePct, equity)
    && alloc <= Scale(p.maxExposure, equity) - value
    && alloc <= cash
    && (alloc == Scale(p.riskPerTrade, equity) / 0.02 || alloc == Scale(p.maxSinglePct, equity)
        || alloc == Scale(p.maxExposure, equity) - value || alloc == cash)
  }

  /** An entry is possible: a position is free, all four amounts and the price are positive, and the fee leaves
      something to invest. */
  ghost predicate CanEnter(p: Params, a: Account, s: string, px: Quotes)
    requires s in px
  {
    var value := PricedValue(a.positions, px);
    var equity := a.cash + value;
    && |a.positions| < p.maxPositions
    && Scale(p.riskPerTrade, equity) / 0.02 > 0.0 && Scale(p.maxSinglePct, equity) > 0.0
    && Scale(p.maxExposure, equity) - value > 0.0 && a.cash > 0.0
    && px[s] > 0.0 && p.fee(s) < 1.0
  }

  /** What holds of an entry of `s` on this bar that takes the account from `a` to `a'`. */
  ghost predicate SoundEntry(p: Params, a: Account, a': Account, s: string, px: Quotes, bar: int)
    requires s in px
  {
    && s !in a.positions && a'.positions.Keys == a.positions.Keys + {s}
    && (forall t :: t in a.positions ==> a'.positions[t] == a.positions[t]) && a'.trades == a.trades
    && Constrained(p, a')
    && var h := a'.positions[s];
    && IsLeastAmount(p, a.cash, PricedValue(a.positions, px), h.alloc)
    && a'.cash == a.cash - h.alloc
    && h.entryPrice == px[s] && h.entryBar == bar
    && h.invested == h.alloc - Scale(p.fee(s), h.alloc) && Scale(px[s], h.qty) == h.invested
    && Equity(a', px) == Equity(a, px) - Scale(p.fee(s), h.alloc)
    && PricedValue(a'.positions, px) <= Scale(p.maxExposure, Equity(a', px))
  }

  lemma BudgetTimesEquity(m: real, value: real, equity: real)
    requires equity > 0.0 || value == equity == 0.0
    ensures Scale(m - Ratio(value, equity), equity) == Scale(m, equity) - value
    ensures equity > 0.0 ==> (Ratio(value, equity) >= m <==> Scale(m, equity) - value <= 0.0)
  {
    var r := Ratio(value, equity);
    if equity > 0.0 {
      DivMul(value, equity);
      if r > m {
        MulPos(r - m, equity);
      } else if r < m {
        MulPos(m - r, equity);
      }
    }
    assert Scale(r, equity) == value;
    ScaleMinus(equity, m, r);
  }

  lemma AllocationIsLeast(p: Params, cash: real, value: real)
    requires cash >= 0.0 && value >= 0.0
    ensures IsLeastAmount(p, cash, value, Allocation(p, cash, value))
  {
    BudgetTimesEquity(p.maxExposure, value, cash + value);
    hide Scale, Ratio;
  }

  lemma UnitsPositiveExactlyWhen(alloc: real, fee: real, price: real)
    requires alloc > 0.0 && price > 0.0
    ensures Units(alloc - FeeOn(fee, alloc), price) > 0.0 <==> fee < 1.0
  {
    var invest := alloc - FeeOn(fee, alloc);
    assert invest == (1.0 - fee) * alloc;
    DivMul(invest, price);
    var q := Units(invest, price);
    if fee < 1.0 {
      MulPos(1.0 - fee, alloc);
      DivPos(invest, price);
    } else {
      MulNonneg(fee - 1.0, alloc);
      if q > 0.0 {
        MulPos(q, price);
      }
    }
  }

  lemma LeastIsPositiveExactlyWhen(p: Params, cash: real, value: real, alloc: real)
    requires IsLeastAmount(p, cash, value, alloc)
    ensures alloc > 0.0 <==>
              && Scale(p.riskPerTrade, cash + value) / 0.02 > 0.0 && Scale(p.maxSinglePct, cash + value) > 0.0
              && Scale(p.maxExposure, cash + value) - value > 0.0 && cash > 0.0
  {
    hide Scale;
  }

  lemma OpensNewKey(p: Params, a: Account, s: string, price: real, bar: int, alloc: real)
    requires s !in a.positions && price != 0.0
    ensures Open(p, a, s, price, bar, alloc) != a
  {
    assert s in Open(p, a, s, price, bar, alloc).positions;
  }

  /** The cases of the entry step. */
  lemma EntryCases(p: Params, a: Account, s: string, px: Quotes, bar: int)
    requires s in px && s !in a.positions
    ensures var value := PricedValue(a.positions, px);
            var alloc := Allocation(p, a.cash, value);
            EnterOne(p, a, s, px, bar).GetOr(a) != a <==>
              && |a.positions| < p.maxPositions && Ratio(value, a.cash + value) < p.maxExposure
              && alloc > 0.0 && px[s] > 0.0 && Units(alloc - FeeOn(p.fee(s), alloc), px[s]) > 0.0
  {
    hide PricedValue, Allocation, Ratio, Units, FeeOn, Open;
    if px[s] != 0.0 {
      OpensNewKey(p, a, s, px[s], bar, Allocation(p, a.cash, PricedValue(a.positions, px)));
    }
  }

  /** The entry step against the amounts: it opens exactly when an entry is possible. */
  lemma EntersExactlyWhen(p: Params, a: Account, s: string, px: Quotes, bar: int)
    requires Constrained(p, a) && NonnegQuotes(px) && s in px && s !in a.positions
    ensures EnterOne(p, a, s, px, bar).GetOr(a) != a <==> CanEnter(p, a, s, px)
  {
    hide *;
    MoneyNonneg(p, a, px);
    var value := PricedValue(a.positions, px);
    var equity, alloc := a.cash + value, Allocation(p, a.cash, value);
    AllocationIsLeast(p, a.cash, value);
    LeastIsPositiveExactlyWhen(p, a.cash, value, alloc);
    BudgetTimesEquity(p.maxExposure, value, equity);
    EntryCases(p, a, s, px, bar);
    CanEnterMeans(p, a, s, px);
    if alloc > 0.0 && px[s] > 0.0 {
      UnitsPositiveExactlyWhen(alloc, p.fee(s), px[s]);
    }
  }

  lemma MoneyNonneg(p: Params, a: Account, px: Quotes)
    requires Constrained(p, a) && NonnegQuotes(px)
    ensures a.cash >= 0.0 && PricedValue(a.positions, px) >= 0.0
  {
    ValueNonneg(p, a.positions, px);
  }

  lemma CanEnterMeans(p: Params, a: Account, s: string, px: Quotes)
    requires s in px
    ensures var value := PricedValue(a.positions, px);
            var equity := a.cash + value;
            CanEnter(p, a, s, px) <==>
              && |a.positions| < p.maxPositions
              && Scale(p.riskPerTrade, equity) / 0.02 > 0.0 && Scale(p.maxSinglePct, equity) > 0.0
              && Scale(p.maxExposure, equity) - value > 0.0 && a.cash > 0.0
              && px[s] > 0.0 && p.fee(s) < 1.0
  {
    hide PricedValue, Scale;
  }

  lemma EntryIsSound(p: Params, a: Account, s: string, px: Quotes, bar: int)
    requires Constrained(p, a) && NonnegQuotes(px) && s in px && s !in a.positions && p.fee(s) >= 0.0
    requires EnterOne(p, a, s, px, bar).Some? && EnterOne(p, a, s, px, bar).value != a
    ensures SoundEntry(p, a, EnterOne(p, a, s, px, bar).value, s, px, bar)
  {
    ValueNonneg(p, a.positions, px);
    assert a.cash >= 0.0;
    hide EnterOne, Constrained, Equity, PricedValue, Scale, FeeOn, Open, Allocation, IsLeastAmount, Units;
    var alloc := EntryOpens(p, a, s, px, bar);
    AllocationIsLeast(p, a.cash, PricedValue(a.positions, px));
    EntryKeepsLimits(p, a, s, px, bar);
    OpenedHolds(p, a, s, px[s], bar, alloc);
    FeeIsScale(p.fee(s), alloc);
  }

  lemma FeeIsScale(fee: real, alloc: real)
    ensures FeeOn(fee, alloc) == Scale(fee, alloc)
  {
  }

  lemma OpenedHolds(p: Params, a: Account, s: string, price: real, bar: int, alloc: real)
    requires s !in a.positions && price != 0.0
    ensures var a' := Open(p, a, s, price, bar, alloc);
            && s in a'.positions && (forall t :: t in a.positions ==> t in a'.positions && a'.positions[t] == a.positions[t])
            && a'.trades == a.trades && a'.cash == a.cash - alloc
            && var h := a'.positions[s];
            && h.alloc == alloc && h.entryPrice == price && h.entryBar == bar
            && h.invested == alloc - Scale(p.fee(s), alloc) && Scale(price, h.qty) == h.invested
  {
    DivMul(alloc - Scale(p.fee(s), alloc), price);
  }

  /** The candidates of a bar of a run, and the account its entry loop starts from. */
  ghost function Candidates(p: Params, f: Feed, fast: int, slow: int, bar: nat): seq<string>
    requires f.Valid() && fast >= 1 && 1 <= slow <= bar < f.bars
  {
    Crossing(f, fast, slow, f.symbols, bar, Up, Run(p, f, fast, slow, bar).positions.Keys, false)
  }

  lemma CandidatesQuoted(p: Params, f: Feed, fast: int, slow: int, bar: nat)
    requires f.Valid() && fast >= 1 && 1 <= slow <= bar < f.bars
    ensures var cs, held := Candidates(p, f, fast, slow, bar), Run(p, f, fast, slow, bar).positions.Keys;
            && (forall s :: s in cs ==> s in f.QuotesAt(bar) && s !in held)
            && (forall i, j :: 0 <= i < j < |cs| ==> cs[i] != cs[j])
  {
    hide Run, Crossing;
    var cs, held := Candidates(p, f, fast, slow, bar), Run(p, f, fast, slow, bar).positions.Keys;
    CrossingFacts(f, fast, slow, f.symbols, bar, Up, held, false);
    assert cs == Crossing(f, fast, slow, f.symbols, bar, Up, held, false);
    forall i, j | 0 <= i < j < |cs| ensures cs[i] != cs[j] {
    }
  }

  ghost function AfterExits(p: Params, f: Feed, fast: int, slow: int, bar: nat): Account
    requires f.Valid() && fast >= 1 && 1 <= slow <= bar < f.bars
  {
    var a := Run(p, f, fast, slow, bar);
    CrossingFacts(f, fast, slow, f.symbols, bar, Down, a.positions.Keys, true);
    ExitAll(p, a, Crossing(f, fast, slow, f.symbols, bar, Down, a.positions.Keys, true), f.QuotesAt(bar), bar)
  }

  /** The account after the entry loop of a bar has dealt with its first `i` candidates; after all of them it
      is the account of the run after the bar. */
  ghost function AfterCandidates(p: Params, f: Feed, fast: int, slow: int, bar: nat, i: nat): Account
    requires f.Valid() && fast >= 1 && 1 <= slow <= bar < f.bars && i <= |Candidates(p, f, fast, slow, bar)|
  {
    CandidatesQuoted(p, f, fast, slow, bar);
    EnterAll(p, AfterExits(p, f, fast, slow, bar), Candidates(p, f, fast, slow, bar)[..i], f.QuotesAt(bar), bar)
  }

  lemma AllCandidatesMakeTheBar(p: Params, f: Feed, fast: int, slow: int, bar: nat)
    requires f.Valid() && fast >= 1 && 1 <= slow <= bar < f.bars
    ensures AfterCandidates(p, f, fast, slow, bar, |Candidates(p, f, fast, slow, bar)|) == Run(p, f, fast, slow, bar + 1)
  {
    hide ExitAll, EnterAll, Crossing;
    var cs := Candidates(p, f, fast, slow, bar);
    assert cs[..|cs|] == cs;
    CandidatesQuoted(p, f, fast, slow, bar);
    assert Run(p, f, fast, slow, bar + 1) == Bar(p, f, fast, slow, Run(p, f, fast, slow, bar), bar);
  }

  lemma NextCandidate(p: Params, f: Feed, fast: int, slow: int, bar: nat, i: nat)
    requires f.Valid() && fast >= 1 && 1 <= slow <= bar < f.bars && i < |Candidates(p, f, fast, slow, bar)|
    ensures Candidates(p, f, fast, slow, bar)[i] in f.QuotesAt(bar)
    ensures var before, c := AfterCandidates(p, f, fast, slow, bar, i), Candidates(p, f, fast, slow, bar)[i];
            AfterCandidates(p, f, fast, slow, bar, i + 1)
            == EnterOne(p, before, c, f.QuotesAt(bar), bar).GetOr(before)
  {
    hide ExitAll, EnterAll, Crossing, Candidates, AfterExits, EnterOne, Feed.QuotesAt;
    var cs := Candidates(p, f, fast, slow, bar);
    CandidatesQuoted(p, f, fast, slow, bar);
    assert cs[..i + 1] == cs[..i] + [cs[i]];
    EntriesSnoc(p, AfterExits(p, f, fast, slow, bar), cs[..i], cs[i], f.QuotesAt(bar), bar);
  }

  lemma ExitsStartEntries(p: Params, f: Feed, fast: int, slow: int, bar: nat)
    requires Usable(p, f) && fast >= 1 && 1 <= slow <= bar < f.bars
    ensures var a := AfterExits(p, f, fast, slow, bar);
            Constrained(p, a) && Reconciled(p, a) && a.positions.Keys <= Run(p, f, fast, slow, bar).positions.Keys
  {
    RunKeepsConstraints(p, f, fast, slow, bar);
    var a, px := Run(p, f, fast, slow, bar), f.QuotesAt(bar);
    CrossingFacts(f, fast, slow, f.symbols, bar, Down, a.positions.Keys, true);
    hide Run, Constrained, Reconciled, Crossing, ExitAll;
    ExitsKeep(p, a, Crossing(f, fast, slow, f.symbols, bar, Down, a.positions.Keys, true), px, bar);
  }

  /** What the entry loop has kept so far: limits hold, and none of the candidates to come is held. */
  lemma {:induction false} CandidatesKeepLimits(p: Params, f: Feed, fast: int, slow: int, bar: nat, i: nat)
    requires Usable(p, f) && fast >= 1 && 1 <= slow <= bar < f.bars && i <= |Candidates(p, f, fast, slow, bar)|
    ensures var a, cs := AfterCandidates(p, f, fast, slow, bar, i), Candidates(p, f, fast, slow, bar);
            Constrained(p, a) && Reconciled(p, a) && forall j :: i <= j < |cs| ==> cs[j] !in a.positions
  {
    var cs, px := Candidates(p, f, fast, slow, bar), f.QuotesAt(bar);
    CandidatesQuoted(p, f, fast, slow, bar);
    QuotesNonneg(p, f, bar);
    hide Run, Constrained, Reconciled, Crossing, Candidates, AfterExits, EnterOne, NonnegQuotes, Feed.QuotesAt;
    if i == 0 {
      ExitsStartEntries(p, f, fast, slow, bar);
      assert cs[..0] == [];
    } else {
      CandidatesKeepLimits(p, f, fast, slow, bar, i - 1);
      NextCandidate(p, f, fast, slow, bar, i - 1);
      hide AfterCandidates;
      EntryKeeps(p, AfterCandidates(p, f, fast, slow, bar, i - 1), cs[i - 1], px, bar);
    }
  }

  lemma QuotesNonneg(p: Params, f: Feed, bar: nat)
    requires Usable(p, f) && bar < f.bars
    ensures NonnegQuotes(f.QuotesAt(bar)) && forall s :: p.fee(s) >= 0.0
  {
  }

  /** Every entry of every run: with each candidate of each bar the loop opens that position exactly when an
      entry is possible, and otherwise leaves the account as it is. An entry takes the least of the four
      amounts, keeps the limits, lowers the equity by exactly its fee and leaves the priced exposure within
      max_exposure of it. */
  lemma EveryEntryIsSound(p: Params, f: Feed, fast: int, slow: int, bar: nat, i: nat)
    requires Usable(p, f) && fast >= 1 && 1 <= slow <= bar < f.bars && i < |Candidates(p, f, fast, slow, bar)|
    ensures Candidates(p, f, fast, slow, bar)[i] in f.QuotesAt(bar)
    ensures var c, px := Candidates(p, f, fast, slow, bar)[i], f.QuotesAt(bar);
            var before, after := AfterCandidates(p, f, fast, slow, bar, i), AfterCandidates(p, f, fast, slow, bar, i + 1);
            && (after != before <==> CanEnter(p, before, c, px))
            && (after != before ==> SoundEntry(p, before, after, c, px, bar))
  {
    CandidatesKeepLimits(p, f, fast, slow, bar, i);
    NextCandidate(p, f, fast, slow, bar, i);
    QuotesNonneg(p, f, bar);
    hide *;
    var before, c, px := AfterCandidates(p, f, fast, slow, bar, i), Candidates(p, f, fast, slow, bar)[i], f.QuotesAt(bar);
    var next := EnterOne(p, before, c, px, bar);
    EntersExactlyWhen(p, before, c, px, bar);
    if next.Some? && next.value != before {
      EntryIsSound(p, before, c, px, bar);
      SomeGets(next, before);
    } else {
      NoneGets(next, before);
    }
  }

  /** Once the positions are full or the exposure budget is used up, the bar ends with the account as it is. */
  lemma {:induction false} FullBookEndsEntries(p: Params, f: Feed, fast: int, slow: int, bar: nat, i: nat)
    requires Usable(p, f) && fast >= 1 && 1 <= slow <= bar < f.bars && i <= |Candidates(p, f, fast, slow, bar)|
    requires var a := AfterCandidates(p, f, fast, slow, bar, i);
             var value := PricedValue(a.positions, f.QuotesAt(bar));
             |a.positions| >= p.maxPositions || Scale(p.maxExposure, a.cash + value) - value <= 0.0
    ensures Run(p, f, fast, slow, bar + 1) == AfterCandidates(p, f, fast, slow, bar, i)
    decreases |Candidates(p, f, fast, slow, bar)| - i
  {
    hide Run, Candidates, AfterCandidates, PricedValue, Feed.QuotesAt, SoundEntry;
    if i == |Candidates(p, f, fast, slow, bar)| {
      AllCandidatesMakeTheBar(p, f, fast, slow, bar);
    } else {
      EveryEntryIsSound(p, f, fast, slow, bar, i);
      FullBookEndsEntries(p, f, fast, slow, bar, i + 1);
    }
  }

  lemma SomeGets(o: Option<Account>, a: Account)
    requires o.Some?
    ensures o.GetOr(a) == o.value
  {
  }

  lemma NoneGets(o: Option<Account>, a: Account)
    requires o.Some? ==> o.value == a
    ensures o.GetOr(a) == a
  {
  }

  // ---------- The closing trades ----------

  function ExitFees(p: Params, a: Account, px: Quotes, order: seq<string>): real
    requires forall s :: s in order ==> s in a.positions && s in px
  {
    if order == [] then 0.0
    else
      var s := order[|order| - 1];
      ExitFees(p, a, px, order[..|order| - 1]) + FeeOn(p.fee(s), Scale(px[s], a.positions[s].qty))
  }

  lemma ClosingsStep(p: Params, a: Account, px: Quotes, order: seq<string>, s: string, bar: int)
    requires (forall x :: x in order ==> x in a.positions && x in px) && s in a.positions && s in px
    ensures forall x :: x in order + [s] ==> x in a.positions && x in px
    ensures TotalNet(p, Closings(p, a, px, order + [s], bar))
         == TotalNet(p, Closings(p, a, px, order, bar)) + Net(p, TradeOf(s, a.positions[s], px[s], p.fee(s), bar))
  {
    hide Closings, TotalNet, Net, TradeOf;
    ClosingsSnoc(p, a, px, order, s, bar);
    TotalNetAppend(p, Closings(p, a, px, order, bar), TradeOf(s, a.positions[s], px[s], p.fee(s), bar));
  }

  /** The corrected profits of closing trades at any prices: what the positions are worth there, less exit
      fees and allocations. */
  lemma {:induction false} ClosingsNet(p: Params, a: Account, px: Quotes, order: seq<string>, bar: int)
    requires (forall s :: s in order ==> s in a.positions && s in px) && Lists(order, set s | s in order)
    requires Constrained(p, a)
    ensures var listed := set s | s in order;
            TotalNet(p, Closings(p, a, px, order, bar))
            == Total(Within(Values(a.positions, px), listed)) - ExitFees(p, a, px, order)
             - Total(Within(Allocs(a.positions), listed))
  {
    hide Constrained, Solid, Net, TradeOf, Total, Within, Closings, TotalNet, Scale, FeeOn;
    var values, allocs, listed := Values(a.positions, px), Allocs(a.positions), set s | s in order;
    if order == [] {
      assert listed == {};
      WithinAll(values);
      WithinAll(allocs);
      NoClosings(p, a, px, bar);
    } else {
      var front, s := order[..|order| - 1], order[|order| - 1];
      var rest := set x | x in front;
      assert s !in front && listed - {s} == rest;
      ClosingsNet(p, a, px, front, bar);
      assert order == front + [s];
      ClosingsStep(p, a, px, front, s, bar);
      ClosingFlow(p, a, px, s, bar, listed);
    }
  }

  lemma NoClosings(p: Params, a: Account, px: Quotes, bar: int)
    ensures TotalNet(p, Closings(p, a, px, [], bar)) == 0.0
  {
  }

  /** One closing trade: its corrected profit, and its share of the values and allocations listed. */
  lemma ClosingFlow(p: Params, a: Account, px: Quotes, s: string, bar: int, listed: set<string>)
    requires Constrained(p, a) && s in a.positions && s in px && s in listed
    ensures var value, h := Scale(px[s], a.positions[s].qty), a.positions[s];
            && Net(p, TradeOf(s, h, px[s], p.fee(s), bar)) == value - FeeOn(p.fee(s), value) - h.alloc
            && Total(Within(Values(a.positions, px), listed)) == value + Total(Within(Values(a.positions, px), listed - {s}))
            && Total(Within(Allocs(a.positions), listed)) == h.alloc + Total(Within(Allocs(a.positions), listed - {s}))
  {
    hide Solid, Net, TradeOf, Total, Within, Scale, FeeOn;
    WithinTakes(Values(a.positions, px), listed, s);
    WithinTakes(Allocs(a.positions), listed, s);
    NetIsCashFlow(p, s, a.positions[s], px[s], bar);
  }

  /** With every open position marked at some price, cash plus marks is the start plus all corrected profits,
      closing trades at these prices included, plus their exit fees. */
  lemma MarkedBooks(p: Params, a: Account, px: Quotes, order: seq<string>, bar: int)
    requires Constrained(p, a) && Reconciled(p, a) && Lists(order, a.positions.Keys)
    requires forall s :: s in order ==> s in a.positions && s in px
    ensures a.cash + PricedValue(a.positions, px)
         == p.initialCash + TotalNet(p, a.trades + Closings(p, a, px, order, bar)) + ExitFees(p, a, px, order)
  {
    hide Constrained, Solid, TotalNet, Closings, ExitFees;
    var listed := set s | s in order;
    assert listed == a.positions.Keys;
    ClosingsNet(p, a, px, order, bar);
    assert Values(a.positions, px).Keys == listed && Allocs(a.positions).Keys == listed;
    WithinAll(Values(a.positions, px));
    WithinAll(Allocs(a.positions));
    TotalNetSum(p, a.trades, Closings(p, a, px, order, bar));
    hide Total, Within, Values, Allocs;
  }

  lemma {:induction false} TotalNetSum(p: Params, x: seq<Trade>, y: seq<Trade>)
    ensures TotalNet(p, x + y) == TotalNet(p, x) + TotalNet(p, y)
  {
    hide Net;
    if y == [] {
      assert x + y == x;
    } else {
      var front := y[..|y| - 1];
      assert (x + y)[..|x + y| - 1] == x + front;
      TotalNetSum(p, x, front);
    }
  }

  /** Values at their last known price of the positions without a quote. */
  function UnpricedValues(positions: map<string, Held>, px: Quotes, marks: Quotes): map<string, real>
    requires forall s :: s in positions ==> s in marks
  {
    map s | s in positions && s !in px :: Scale(marks[s], positions[s].qty)
  }

  ghost function UnpricedValue(positions: map<string, Held>, px: Quotes, marks: Quotes): real
    requires forall s :: s in positions ==> s in marks
  {
    Total(UnpricedValues(positions, px, marks))
  }

  lemma MarksSplit(positions: map<string, Held>, px: Quotes, marks: Quotes)
    requires forall s :: s in positions ==> s in marks && (s in px ==> px[s] == marks[s])
    ensures PricedValue(positions, marks) == PricedValue(positions, px) + UnpricedValue(positions, px, marks)
  {
    hide Scale;
    var all, priced, rest := Values(positions, marks), Values(positions, px), UnpricedValues(positions, px, marks);
    TotalSplits(all, priced.Keys);
    assert Within(all, priced.Keys) == priced && all - priced.Keys == rest;
  }

  lemma LastBarMarks(f: Feed, positions: map<string, Held>)
    requires f.Valid() && f.bars >= 1 && forall s :: s in positions ==> s in f.close
    ensures forall s :: s in positions ==>
              && s in Marks(f, positions)
              && (s in f.QuotesAt(f.bars - 1) ==> f.QuotesAt(f.bars - 1)[s] == Marks(f, positions)[s])
  {
  }

  /** The last equity point against the complete trade list: the point, plus the last known value of the open
      positions that have no quote on the last bar and are left out of it, is the start plus all corrected
      profits plus the exit fees of the closing trades, which the equity curve does not charge. Without that
      value the equation holds exactly if it is zero. */
  ghost predicate TradesExplainEquity(p: Params, f: Feed, a: Account, order: seq<string>)
    requires f.Valid() && f.bars >= 1
    requires (forall s :: s in a.positions ==> s in f.close) && forall s :: s in order ==> s in a.positions
  {
    var px, marks := f.QuotesAt(f.bars - 1), Marks(f, a.positions);
    var explained := p.initialCash + TotalNet(p, a.trades + Closings(p, a, marks, order, f.bars - 1))
                   + ExitFees(p, a, marks, order);
    var unpriced := UnpricedValue(a.positions, px, marks);
    Equity(a, px) + unpriced == explained && (Equity(a, px) == explained <==> unpriced == 0.0)
  }

  lemma MarkedBooksExplain(p: Params, f: Feed, a: Account, order: seq<string>)
    requires f.Valid() && f.bars >= 1
    requires (forall s :: s in a.positions ==> s in f.close) && Lists(order, a.positions.Keys)
    requires Constrained(p, a) && Reconciled(p, a)
    ensures TradesExplainEquity(p, f, a, order)
  {
    hide Feed.QuotesAt, Marks, Equity, LastPrice, Feed.Valid, TotalNet, Closings, ExitFees, UnpricedValue;
    hide Constrained, Reconciled;
    LastBarMarks(f, a.positions);
    MarksExplain(p, a, f.QuotesAt(f.bars - 1), Marks(f, a.positions), order, f.bars - 1);
  }

  /** The same for any quotes, and marks that agree with them. */
  lemma MarksExplain(p: Params, a: Account, px: Quotes, marks: Quotes, order: seq<string>, bar: int)
    requires Lists(order, a.positions.Keys) && Constrained(p, a) && Reconciled(p, a)
    requires forall s :: s in a.positions ==> s in marks && (s in px ==> px[s] == marks[s])
    ensures forall s :: s in order ==> s in a.positions && s in marks
    ensures Equity(a, px) + UnpricedValue(a.positions, px, marks)
         == p.initialCash + TotalNet(p, a.trades + Closings(p, a, marks, order, bar)) + ExitFees(p, a, marks, order)
  {
    hide Constrained, Reconciled, TotalNet, Closings, ExitFees, PricedValue, UnpricedValue;
    MarkedBooks(p, a, marks, order, bar);
    MarksSplit(a.positions, px, marks);
    hide Lists;
  }

  /** So it is at the end of every run. */
  lemma FinalEquityVersusTrades(p: Params, f: Feed, fast: int, slow: int, order: seq<string>)
    requires Usable(p, f) && fast >= 1 && slow >= 1 && f.bars >= 1
    requires Lists(order, Run(p, f, fast, slow, f.bars).positions.Keys)
    ensures forall s :: s in Run(p, f, fast, slow, f.bars).positions ==> s in f.close
    ensures TradesExplainEquity(p, f, Run(p, f, fast, slow, f.bars), order)
  {
    hide Run, Constrained, Reconciled, TradesExplainEquity;
    RunKeepsConstraints(p, f, fast, slow, f.bars);
    RunHoldsFeedSymbols(p, f, fast, slow, f.bars);
    MarkedBooksExplain(p, f, Run(p, f, fast, slow, f.bars), order);
  }

  /** That unpriced value is zero exactly if every open position without a quote on the last bar has a last
      known price of zero. */
  lemma NothingUnpricedExactlyWhen(p: Params, a: Account, px: Quotes, marks: Quotes)
    requires Constrained(p, a) && NonnegQuotes(marks) && forall s :: s in a.positions ==> s in marks
    ensures UnpricedValue(a.positions, px, marks) == 0.0
       <==> forall s :: s in a.positions && s !in px ==> marks[s] == 0.0
  {
    var values := UnpricedValues(a.positions, px, marks);
    forall s | s in values ensures values[s] >= 0.0 && (values[s] == 0.0 <==> marks[s] == 0.0) {
      ScaleNonneg(marks[s], a.positions[s].qty);
      if marks[s] > 0.0 {
        MulPos(marks[s], a.positions[s].qty);
      }
    }
    hide Scale, Total;
    TotalZero(values);
  }
}
