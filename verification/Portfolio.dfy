/** The multi-symbol backtester of backtesting/portfolio_backtest.py. A missing price (NaN) is None in the
    aligned columns and absent from a bar's quotes. */
module Portfolio {
  import opened Common
  import opened Indicators
  import opened MapTotals

  /** `fee` is the resolved fee of each symbol. */
  datatype Params = Params(
    initialCash: real, maxPositions: int, riskPerTrade: real, maxExposure: real, maxSinglePct: real,
    fee: string -> real)

  /** `alloc` is bookkeeping of the model: the cash taken for the position, entry fee included. */
  datatype Held = Held(entryPrice: real, qty: real, invested: real, entryBar: int, alloc: real)

  datatype Trade = Trade(
    symbol: string, entryPrice: real, exitPrice: real, qty: real, pnl: real, holdBars: int, feesPaid: real, alloc: real)

  datatype Account = Account(cash: real, positions: map<string, Held>, trades: seq<Trade>)

  type Quotes = map<string, real>

  /** Aligned closes of every symbol; all columns have `bars` entries and symbols are distinct. */
  datatype Feed = Feed(symbols: seq<string>, bars: nat, close: map<string, seq<Option<real>>>) {
    ghost predicate Valid() {
      && (forall i, j :: 0 <= i < j < |symbols| ==> symbols[i] != symbols[j])
      && (forall s :: s in symbols <==> s in close)
      && (forall s :: s in close ==> |close[s]| == bars)
    }

    function QuotesAt(bar: nat): Quotes
      requires Valid() && bar < bars
    {
      map s | s in close && close[s][bar].Some? :: close[s][bar].value
    }
  }

  // ---------- Averages over columns with gaps ----------

  function Filled(x: seq<Option<real>>, i: nat): Option<real>
    requires i < |x|
  {
    if x[i].Some? then x[i] else if i == 0 then None else Filled(x, i - 1)
  }

  function ValidCount(x: seq<Option<real>>): nat {
    if x == [] then 0 else ValidCount(x[..|x| - 1]) + if x[|x| - 1].Some? then 1 else 0
  }

  function FilledPrices(x: seq<Option<real>>): (r: seq<real>)
    ensures |r| == |x|
  {
    seq(|x|, i requires 0 <= i < |x| => Filled(x, i).GetOr(0.0))
  }

  /** Average of one symbol at a bar. A gap in the first bar makes every value NaN, because the recursion
      starts from it; too few valid bars leave the symbol without averages. */
  function Average(x: seq<Option<real>>, span: int, slow: int, i: nat): Option<real>
    requires span >= 1 && i < |x|
  {
    if ValidCount(x) >= slow && x[0].Some? then Some(Ema(FilledPrices(x), span, i)) else None
  }

  method Averages(x: seq<Option<real>>, span: int, slow: int) returns (ema: seq<Option<real>>)
    requires span >= 1 && |x| >= 1
    ensures |ema| == |x| && forall i :: 0 <= i < |x| ==> ema[i] == Average(x, span, slow, i)
  {
    var valid := 0;
    var filled := [];
    for i := 0 to |x|
      invariant valid == ValidCount(x[..i])
      invariant |filled| == i && forall j :: 0 <= j < i ==> filled[j] == Filled(x, j).GetOr(0.0)
    {
      assert x[..i + 1][..i] == x[..i];
      valid := valid + if x[i].Some? then 1 else 0;
      filled := filled + [if x[i].Some? then x[i].value else if i == 0 then 0.0 else filled[i - 1]];
    }
    assert x[..|x|] == x && filled == FilledPrices(x);
    if valid >= slow && x[0].Some? {
      var a := ComputeEma(filled, span);
      ema := seq(|x|, i requires 0 <= i < |x| && i < a.Length reads a => Some(a[i]));
    } else {
      ema := seq(|x|, _ => None);
    }
  }

  // ---------- Signals of one bar ----------

  datatype Cross = Up | Down | NoCross

  function CrossOf(f: Feed, fast: int, slow: int, s: string, bar: nat): Cross
    requires f.Valid() && fast >= 1 && slow >= 1 && s in f.close && 1 <= bar < f.bars
  {
    var x := f.close[s];
    var fv, sv := Average(x, fast, slow, bar), Average(x, slow, slow, bar);
    var pf, ps := Average(x, fast, slow, bar - 1), Average(x, slow, slow, bar - 1);
    if x[bar].None? || fv.None? || pf.None? || ps.None? || sv.None? then NoCross
    else if pf.value <= ps.value && fv.value > sv.value then Up
    else if pf.value >= ps.value && fv.value < sv.value then Down
    else NoCross
  }

  /** Symbols of `symbols` that cross in the given direction and are held, or not held, as asked. */
  function Crossing(
      f: Feed, fast: int, slow: int, symbols: seq<string>, bar: nat, c: Cross, held: set<string>,
      want: bool): seq<string>
    requires f.Valid() && fast >= 1 && slow >= 1 && 1 <= bar < f.bars && forall s :: s in symbols ==> s in f.close
  {
    if symbols == [] then []
    else
      var s := symbols[|symbols| - 1];
      Crossing(f, fast, slow, symbols[..|symbols| - 1], bar, c, held, want)
      + if (s in held) == want && CrossOf(f, fast, slow, s, bar) == c then [s] else []
  }

  // ---------- Money ----------

  function Values(positions: map<string, Held>, px: Quotes): map<string, real> {
    map s | s in positions && s in px :: Scale(px[s], positions[s].qty)
  }

  /** Value of the positions that have a price on this bar. */
  ghost function PricedValue(positions: map<string, Held>, px: Quotes): real {
    Total(Values(positions, px))
  }

  ghost function Equity(a: Account, px: Quotes): real {
    a.cash + PricedValue(a.positions, px)
  }

  function FeeOn(fee: real, amount: real): real {
    Scale(fee, amount)
  }

  function TradeOf(s: string, h: Held, exit: real, fee: real, bar: int): Trade {
    var bought, sold := Scale(h.entryPrice, h.qty), Scale(exit, h.qty);
    var fees := FeeOn(fee, bought) + FeeOn(fee, sold);
    Trade(s, h.entryPrice, exit, h.qty, Scale(exit - h.entryPrice, h.qty) - fees, bar - h.entryBar, fees, h.alloc)
  }

  function ExitOne(p: Params, a: Account, s: string, price: real, bar: int): Account
    requires s in a.positions
  {
    var h := a.positions[s];
    var gross := Scale(price, h.qty);
    Account(a.cash + (gross - FeeOn(p.fee(s), gross)), a.positions - {s},
            a.trades + [TradeOf(s, h, price, p.fee(s), bar)])
  }

  function Ratio(value: real, equity: real): real {
    if equity > 0.0 then value / equity else 0.0
  }

  /** Cash taken for a new position. */
  function Allocation(p: Params, cash: real, value: real): real {
    var equity := cash + value;
    var wanted := Min(Scale(p.riskPerTrade, equity) / 0.02, Scale(p.maxSinglePct, equity));
    Min(Min(wanted, Scale(p.maxExposure - Ratio(value, equity), equity)), cash)
  }

  function Units(invest: real, price: real): real
    requires price != 0.0
  {
    invest / price
  }

  function Open(p: Params, a: Account, s: string, price: real, bar: int, alloc: real): Account
    requires price != 0.0
  {
    var invest := alloc - FeeOn(p.fee(s), alloc);
    Account(a.cash - alloc, a.positions[s := Held(price, Units(invest, price), invest, bar, alloc)], a.trades)
  }

  /** One entry candidate: None ends the entries of this bar, otherwise the account goes on. */
  ghost function EnterOne(p: Params, a: Account, s: string, px: Quotes, bar: int): Option<Account>
    requires s in px
  {
    var value, price := PricedValue(a.positions, px), px[s];
    if |a.positions| >= p.maxPositions then None
    else if Ratio(value, a.cash + value) >= p.maxExposure then None
    else
      var alloc := Allocation(p, a.cash, value);
      if alloc <= 0.0 || price <= 0.0 then Some(a)
      else if Units(alloc - FeeOn(p.fee(s), alloc), price) <= 0.0 then Some(a)
      else Some(Open(p, a, s, price, bar, alloc))
  }

  function ExitAll(p: Params, a: Account, exits: seq<string>, px: Quotes, bar: int): (r: Account)
    requires (forall s :: s in exits ==> s in a.positions && s in px)
    requires forall i, j :: 0 <= i < j < |exits| ==> exits[i] != exits[j]
    ensures r.positions.Keys == a.positions.Keys - (set s | s in exits)
  {
    if exits == [] then a
    else
      var front := exits[..|exits| - 1];
      ExitOne(p, ExitAll(p, a, front, px, bar), exits[|exits| - 1], px[exits[|exits| - 1]], bar)
  }

  ghost function EnterAll(p: Params, a: Account, candidates: seq<string>, px: Quotes, bar: int): Account
    requires forall s :: s in candidates ==> s in px
    decreases |candidates|
  {
    if candidates == [] then a
    else
      match EnterOne(p, a, candidates[0], px, bar)
      case None => a
      case Some(a') => EnterAll(p, a', candidates[1..], px, bar)
  }

  // ---------- Bars ----------

  lemma {:induction false} CrossingFacts(
      f: Feed, fast: int, slow: int, symbols: seq<string>, bar: nat, c: Cross, held: set<string>, want: bool)
    requires f.Valid() && fast >= 1 && slow >= 1 && 1 <= bar < f.bars && c != NoCross
    requires forall s :: s in symbols ==> s in f.close
    requires forall i, j :: 0 <= i < j < |symbols| ==> symbols[i] != symbols[j]
    ensures var r := Crossing(f, fast, slow, symbols, bar, c, held, want);
            && (forall s :: s in r <==> s in symbols && (s in held) == want && CrossOf(f, fast, slow, s, bar) == c)
            && (forall s :: s in r ==> s in f.QuotesAt(bar))
            && (forall i, j :: 0 <= i < j < |r| ==> r[i] != r[j])
  {
    if symbols != [] {
      var front, s := symbols[..|symbols| - 1], symbols[|symbols| - 1];
      CrossingFacts(f, fast, slow, front, bar, c, held, want);
      assert s !in front;
      assert forall x :: x in symbols <==> x in front || x == s;
      hide Average;
    }
  }

  ghost function Bar(p: Params, f: Feed, fast: int, slow: int, a: Account, bar: nat): Account
    requires f.Valid() && fast >= 1 && slow >= 1 && bar < f.bars
  {
    if bar < slow then a
    else
      var held, px := a.positions.Keys, f.QuotesAt(bar);
      CrossingFacts(f, fast, slow, f.symbols, bar, Down, held, true);
      CrossingFacts(f, fast, slow, f.symbols, bar, Up, held, false);
      EnterAll(p, ExitAll(p, a, Crossing(f, fast, slow, f.symbols, bar, Down, held, true), px, bar),
               Crossing(f, fast, slow, f.symbols, bar, Up, held, false), px, bar)
  }

  /** The account before bar `k`. */
  ghost function Run(p: Params, f: Feed, fast: int, slow: int, k: nat): Account
    requires f.Valid() && fast >= 1 && slow >= 1 && k <= f.bars
  {
    if k == 0 then Account(p.initialCash, map[], [])
    else Bar(p, f, fast, slow, Run(p, f, fast, slow, k - 1), k - 1)
  }

  // ---------- The loops ----------

  method ValueOf(positions: map<string, Held>, px: Quotes) returns (v: real)
    ensures v == PricedValue(positions, px)
  {
    ghost var values := Values(positions, px);
    v := 0.0;
    var symbols := positions.Keys * px.Keys;
    assert values.Keys == symbols;
    WithinAll(values);
    while symbols != {}
      invariant symbols <= positions.Keys * px.Keys
      invariant Total(values) == v + Total(Within(values, symbols))
      decreases |symbols|
    {
      var s :| s in symbols;
      WithinTakes(values, symbols, s);
      hide Total, Within, Scale;
      v := v + Scale(px[s], positions[s].qty);
      symbols := symbols - {s};
    }
  }

  method ProcessExits(p: Params, a: Account, exits: seq<string>, px: Quotes, bar: int) returns (r: Account)
    requires (forall s :: s in exits ==> s in a.positions && s in px)
    requires forall i, j :: 0 <= i < j < |exits| ==> exits[i] != exits[j]
    ensures r == ExitAll(p, a, exits, px, bar)
  {
    var cash, positions, trades := a.cash, a.positions, a.trades;
    for i := 0 to |exits|
      invariant Account(cash, positions, trades) == ExitAll(p, a, exits[..i], px, bar)
    {
      var s := exits[i];
      assert exits[..i + 1][..i] == exits[..i];
      assert s in positions;
      hide Scale;
      var pos, exitPrice := positions[s], px[s];
      var gross := Scale(exitPrice, pos.qty);
      var proceeds := gross - FeeOn(p.fee(s), gross);
      trades := trades + [TradeOf(s, pos, exitPrice, p.fee(s), bar)];
      cash := cash + proceeds;
      positions := positions - {s};
    }
    assert exits[..|exits|] == exits;
    r := Account(cash, positions, trades);
  }

  /** Body of the entry loop; None is its break. */
  method TryEnter(p: Params, a: Account, s: string, px: Quotes, bar: int) returns (r: Option<Account>)
    requires s in px
    ensures r == EnterOne(p, a, s, px, bar)
  {
    hide Scale, PricedValue, Allocation, Ratio, Units;
    if |a.positions| >= p.maxPositions {
      return None;
    }
    var price := px[s];
    var value := ValueOf(a.positions, px);
    if Ratio(value, a.cash + value) >= p.maxExposure {
      return None;
    }
    var alloc := Allocation(p, a.cash, value);
    if alloc <= 0.0 || price <= 0.0 {
      return Some(a);
    }
    var invest := alloc - FeeOn(p.fee(s), alloc);
    var qty := Units(invest, price);
    if qty <= 0.0 {
      return Some(a);
    }
    r := Some(Account(a.cash - alloc, a.positions[s := Held(price, qty, invest, bar, alloc)], a.trades));
  }

  method ProcessEntries(p: Params, a: Account, candidates: seq<string>, px: Quotes, bar: int) returns (r: Account)
    requires forall s :: s in candidates ==> s in px
    ensures r == EnterAll(p, a, candidates, px, bar)
  {
    r := a;
    for i := 0 to |candidates|
      invariant EnterAll(p, a, candidates, px, bar) == EnterAll(p, r, candidates[i..], px, bar)
    {
      assert candidates[i..][0] == candidates[i] && candidates[i..][1..] == candidates[i + 1..];
      hide EnterOne;
      var next := TryEnter(p, r, candidates[i], px, bar);
      match next
      case None => return;
      case Some(a') => r := a';
    }
  }

  type Columns = map<string, (seq<Option<real>>, seq<Option<real>>)>

  method CrossSignal(f: Feed, averages: Columns, fast: int, slow: int, s: string, bar: nat) returns (c: Cross)
    requires f.Valid() && fast >= 1 && slow >= 1 && 1 <= bar < f.bars && s in f.symbols
    requires HasAverages(f, averages, fast, slow)
    ensures c == CrossOf(f, fast, slow, s, bar)
  {
    hide Average;
    var ema, price := averages[s], f.close[s][bar];
    var fv, sv, pf, ps := ema.0[bar], ema.1[bar], ema.0[bar - 1], ema.1[bar - 1];
    c := NoCross;
    if price.Some? && fv.Some? && sv.Some? && pf.Some? && ps.Some? {
      if pf.value <= ps.value && fv.value > sv.value {
        c := Up;
      } else if pf.value >= ps.value && fv.value < sv.value {
        c := Down;
      }
    }
  }

  lemma CrossingNext(f: Feed, fast: int, slow: int, i: nat, bar: nat, c: Cross, held: set<string>, want: bool)
    requires f.Valid() && fast >= 1 && slow >= 1 && 1 <= bar < f.bars && i < |f.symbols|
    ensures Crossing(f, fast, slow, f.symbols[..i + 1], bar, c, held, want)
         == Crossing(f, fast, slow, f.symbols[..i], bar, c, held, want)
          + if (f.symbols[i] in held) == want && CrossOf(f, fast, slow, f.symbols[i], bar) == c then [f.symbols[i]] else []
  {
    hide CrossOf;
    assert f.symbols[..i + 1][..i] == f.symbols[..i];
  }

  method SignalsOf(f: Feed, averages: Columns, fast: int, slow: int, held: set<string>, bar: nat)
    returns (exits: seq<string>, candidates: seq<string>)
    requires f.Valid() && fast >= 1 && slow >= 1 && 1 <= bar < f.bars
    requires HasAverages(f, averages, fast, slow)
    ensures exits == Crossing(f, fast, slow, f.symbols, bar, Down, held, true)
    ensures candidates == Crossing(f, fast, slow, f.symbols, bar, Up, held, false)
  {
    exits, candidates := [], [];
    for i := 0 to |f.symbols|
      invariant exits == Crossing(f, fast, slow, f.symbols[..i], bar, Down, held, true)
      invariant candidates == Crossing(f, fast, slow, f.symbols[..i], bar, Up, held, false)
    {
      var s := f.symbols[i];
      var c := CrossSignal(f, averages, fast, slow, s, bar);
      CrossingNext(f, fast, slow, i, bar, Down, held, true);
      CrossingNext(f, fast, slow, i, bar, Up, held, false);
      hide CrossOf, HasAverages, Crossing;
      if s in held && c == Down {
        exits := exits + [s];
      } else if s !in held && c == Up {
        candidates := candidates + [s];
      }
    }
    assert f.symbols[..|f.symbols|] == f.symbols;
  }

  /** The precomputed averages of every symbol: fast and slow column. */
  ghost predicate HasAverages(f: Feed, averages: Columns, fast: int, slow: int)
    requires f.Valid() && fast >= 1 && slow >= 1
  {
    forall s :: s in f.symbols ==>
      && s in averages && |averages[s].0| == |averages[s].1| == f.bars
      && forall i :: 0 <= i < f.bars ==>
           && averages[s].0[i] == Average(f.close[s], fast, slow, i)
           && averages[s].1[i] == Average(f.close[s], slow, slow, i)
  }

  method Prepare(f: Feed, fast: int, slow: int) returns (averages: Columns)
    requires f.Valid() && fast >= 1 && slow >= 1 && f.bars >= 1
    ensures HasAverages(f, averages, fast, slow)
  {
    averages := map[];
    for i := 0 to |f.symbols|
      invariant forall s :: s in f.symbols[..i] ==>
        && s in averages && |averages[s].0| == |averages[s].1| == f.bars
        && forall j :: 0 <= j < f.bars ==>
             && averages[s].0[j] == Average(f.close[s], fast, slow, j)
             && averages[s].1[j] == Average(f.close[s], slow, slow, j)
    {
      var s := f.symbols[i];
      var a := Averages(f.close[s], fast, slow);
      var b := Averages(f.close[s], slow, slow);
      averages := averages[s := (a, b)];
      hide Average;
    }
  }

  method RunBar(p: Params, f: Feed, averages: Columns, fast: int, slow: int, a: Account, bar: nat) returns (r: Account)
    requires f.Valid() && fast >= 1 && 1 <= slow <= bar < f.bars
    requires HasAverages(f, averages, fast, slow)
    ensures r == Bar(p, f, fast, slow, a, bar)
  {
    hide ExitAll, EnterAll, Crossing, HasAverages;
    var px, held := f.QuotesAt(bar), a.positions.Keys;
    CrossingFacts(f, fast, slow, f.symbols, bar, Down, held, true);
    CrossingFacts(f, fast, slow, f.symbols, bar, Up, held, false);
    var exits, candidates := SignalsOf(f, averages, fast, slow, held, bar);
    r := ProcessExits(p, a, exits, px, bar);
    r := ProcessEntries(p, r, candidates, px, bar);
  }

  /** Point of the equity curve: untouched cash while warming up, then cash plus priced positions. */
  ghost function EquityPoint(p: Params, f: Feed, fast: int, slow: int, i: nat): real
    requires f.Valid() && fast >= 1 && slow >= 1 && i < f.bars
  {
    if i < slow then p.initialCash else Equity(Run(p, f, fast, slow, i + 1), f.QuotesAt(i))
  }

  lemma {:induction false} WarmUpIsIdle(p: Params, f: Feed, fast: int, slow: int, k: nat)
    requires f.Valid() && fast >= 1 && slow >= 1 && k <= f.bars && k <= slow
    ensures Run(p, f, fast, slow, k) == Account(p.initialCash, map[], [])
  {
    if k > 0 {
      WarmUpIsIdle(p, f, fast, slow, k - 1);
    }
  }

  method BarPoint(p: Params, f: Feed, averages: Columns, fast: int, slow: int, a: Account, bar: nat)
    returns (r: Account, point: real)
    requires f.Valid() && fast >= 1 && slow >= 1 && bar < f.bars
    requires HasAverages(f, averages, fast, slow) && a == Run(p, f, fast, slow, bar)
    ensures r == Run(p, f, fast, slow, bar + 1) && point == EquityPoint(p, f, fast, slow, bar)
  {
    if bar < slow {
      WarmUpIsIdle(p, f, fast, slow, bar);
      return a, a.cash;
    }
    hide HasAverages, Bar, PricedValue;
    r := RunBar(p, f, averages, fast, slow, a, bar);
    var value := ValueOf(r.positions, f.QuotesAt(bar));
    point := r.cash + value;
  }

  /** The first `n` points of the equity curve. */
  ghost predicate Traces(p: Params, f: Feed, fast: int, slow: int, equity: seq<real>, n: nat)
    requires f.Valid() && fast >= 1 && slow >= 1 && n <= f.bars
  {
    |equity| == n && forall i :: 0 <= i < n ==> equity[i] == EquityPoint(p, f, fast, slow, i)
  }

  lemma TracesGrow(p: Params, f: Feed, fast: int, slow: int, equity: seq<real>, n: nat, point: real)
    requires f.Valid() && fast >= 1 && slow >= 1 && n < f.bars && Traces(p, f, fast, slow, equity, n)
    requires point == EquityPoint(p, f, fast, slow, n)
    ensures Traces(p, f, fast, slow, equity + [point], n + 1)
  {
    hide EquityPoint;
  }

  datatype Outcome = TooShort | Completed(account: Account, equity: seq<real>)

  /** The bar loop: final account and equity curve. A frame shorter than the slow average is rejected. */
  method RunBars(p: Params, f: Feed, fast: int, slow: int) returns (r: Outcome)
    requires f.Valid() && fast >= 1 && slow >= 1 && |f.symbols| >= 1
    ensures f.bars < slow + 1 <==> r == TooShort
    ensures r.Completed? ==> r.account == Run(p, f, fast, slow, f.bars) && Traces(p, f, fast, slow, r.equity, f.bars)
  {
    if f.bars < slow + 1 {
      return TooShort;
    }
    var averages := Prepare(f, fast, slow);
    WarmUpIsIdle(p, f, fast, slow, 0);
    hide Run, Bar, HasAverages, EquityPoint;
    var a, equity := Account(p.initialCash, map[], []), [];
    for bar := 0 to f.bars
      invariant a == Run(p, f, fast, slow, bar)
      invariant Traces(p, f, fast, slow, equity, bar)
    {
      var next, point := BarPoint(p, f, averages, fast, slow, a, bar);
      TracesGrow(p, f, fast, slow, equity, bar, point);
      a, equity := next, equity + [point];
    }
    r := Completed(a, equity);
  }

  /** Price of a position still open at the end: the last bar's, else the last one known. */
  function LastPrice(f: Feed, s: string, h: Held): real
    requires f.Valid() && f.bars >= 1 && s in f.close
  {
    Filled(f.close[s], f.bars - 1).GetOr(h.entryPrice)
  }

  /** Every open position at its last known price. */
  function Marks(f: Feed, positions: map<string, Held>): Quotes
    requires f.Valid() && f.bars >= 1 && forall s :: s in positions ==> s in f.close
  {
    map s | s in positions :: LastPrice(f, s, positions[s])
  }

  /** The trades that close the listed positions at the given prices. */
  function Closings(p: Params, a: Account, px: Quotes, order: seq<string>, bar: int): seq<Trade>
    requires forall s :: s in order ==> s in a.positions && s in px
  {
    seq(|order|, i requires 0 <= i < |order| =>
      TradeOf(order[i], a.positions[order[i]], px[order[i]], p.fee(order[i]), bar))
  }

  /** Records, without touching the account, a closing trade for each position still open. */
  method CloseRemaining(p: Params, f: Feed, a: Account) returns (trades: seq<Trade>, ghost order: seq<string>)
    requires f.Valid() && f.bars >= 1 && forall s :: s in a.positions ==> s in f.close
    ensures (forall s :: s in order ==> s in a.positions) && Lists(order, a.positions.Keys)
    ensures trades == Closings(p, a, Marks(f, a.positions), order, f.bars - 1)
  {
    trades, order := [], [];
    var symbols := a.positions.Keys;
    while symbols != {}
      invariant forall s :: s in order ==> s in a.positions
      invariant symbols <= a.positions.Keys && Lists(order, a.positions.Keys - symbols)
      invariant trades == Closings(p, a, Marks(f, a.positions), order, f.bars - 1)
      decreases |symbols|
    {
      var s :| s in symbols;
      hide TradeOf, LastPrice;
      var h := a.positions[s];
      ghost var before := order;
      order := order + [s];
      ClosingsSnoc(p, a, Marks(f, a.positions), before, s, f.bars - 1);
      trades := trades + [TradeOf(s, h, LastPrice(f, s, h), p.fee(s), f.bars - 1)];
      symbols := symbols - {s};
    }
  }

  lemma ClosingsSnoc(p: Params, a: Account, px: Quotes, order: seq<string>, s: string, bar: int)
    requires (forall x :: x in order ==> x in a.positions && x in px) && s in a.positions && s in px
    ensures forall x :: x in order + [s] ==> x in a.positions && x in px
    ensures Closings(p, a, px, order + [s], bar)
         == Closings(p, a, px, order, bar) + [TradeOf(s, a.positions[s], px[s], p.fee(s), bar)]
  {
    hide TradeOf;
  }

  /** `order` lists the elements of `keys`, each once. */
  ghost predicate Lists(order: seq<string>, keys: set<string>) {
    && (forall s :: s in keys <==> s in order)
    && forall i, j :: 0 <= i < j < |order| ==> order[i] != order[j]
  }

  // ---------- The whole run ----------

  lemma {:induction false} EntriesAddCandidates(p: Params, a: Account, candidates: seq<string>, px: Quotes, bar: int)
    requires forall s :: s in candidates ==> s in px
    ensures forall s :: s in EnterAll(p, a, candidates, px, bar).positions ==> s in a.positions || s in candidates
    decreases |candidates|
  {
    hide Scale, PricedValue, Allocation, Ratio, Units, FeeOn;
    if candidates != [] {
      var next := EnterOne(p, a, candidates[0], px, bar);
      if next.Some? {
        EntriesAddCandidates(p, next.value, candidates[1..], px, bar);
      }
    }
  }

  lemma BarHoldsFeedSymbols(p: Params, f: Feed, fast: int, slow: int, a: Account, bar: nat)
    requires f.Valid() && fast >= 1 && slow >= 1 && bar < f.bars && forall s :: s in a.positions ==> s in f.close
    ensures forall s :: s in Bar(p, f, fast, slow, a, bar).positions ==> s in f.close
  {
    if bar >= slow {
      var held, px := a.positions.Keys, f.QuotesAt(bar);
      CrossingFacts(f, fast, slow, f.symbols, bar, Down, held, true);
      CrossingFacts(f, fast, slow, f.symbols, bar, Up, held, false);
      hide Crossing, ExitAll, EnterAll;
      var exits := Crossing(f, fast, slow, f.symbols, bar, Down, held, true);
      EntriesAddCandidates(p, ExitAll(p, a, exits, px, bar),
        Crossing(f, fast, slow, f.symbols, bar, Up, held, false), px, bar);
    }
  }

  /** Only symbols of the feed are ever held. */
  lemma {:induction false} RunHoldsFeedSymbols(p: Params, f: Feed, fast: int, slow: int, k: nat)
    requires f.Valid() && fast >= 1 && slow >= 1 && k <= f.bars
    ensures forall s :: s in Run(p, f, fast, slow, k).positions ==> s in f.close
  {
    hide Bar;
    if k > 0 {
      RunHoldsFeedSymbols(p, f, fast, slow, k - 1);
      BarHoldsFeedSymbols(p, f, fast, slow, Run(p, f, fast, slow, k - 1), k - 1);
    }
  }

  /** The whole backtest: equity curve, final account, and the trade list with the closing trades last. */
  method Backtest(p: Params, f: Feed, fast: int, slow: int)
    returns (r: Outcome, trades: seq<Trade>, ghost order: seq<string>)
    requires f.Valid() && fast >= 1 && slow >= 1 && |f.symbols| >= 1
    ensures f.bars < slow + 1 <==> r == TooShort
    ensures r.Completed? ==>
              && f.bars >= 1
              && r.account == Run(p, f, fast, slow, f.bars) && Traces(p, f, fast, slow, r.equity, f.bars)
              && (forall s :: s in r.account.positions ==> s in f.close)
              && (forall s :: s in order ==> s in r.account.positions) && Lists(order, r.account.positions.Keys)
              && trades == r.account.trades + Closings(p, r.account, Marks(f, r.account.positions), order, f.bars - 1)
  {
    hide Run, Traces, Closings, Marks, Lists;
    trades, order := [], [];
    r := RunBars(p, f, fast, slow);
    if r.Completed? {
      RunHoldsFeedSymbols(p, f, fast, slow, f.bars);
      var closing;
      closing, order := CloseRemaining(p, f, r.account);
      trades := r.account.trades + closing;
    }
  }
}
