/** The position book of src/broker/paper.py: what one fill does to cash and positions, and what a
    whole sequence of fills adds up to. */
module PaperBook {
  import opened Common
  import opened MapTotals

  datatype Side = Buy | Sell

  datatype Position = Position(qty: real, avg: real, side: Side)

  datatype Fill = Fill(symbol: string, qty: real, side: Side, price: real)

  datatype Book = Book(cash: real, positions: map<string, Position>)

  ghost predicate Sound(b: Book) {
    forall s :: s in b.positions ==> b.positions[s].qty > 0.0
  }

  /** Volume-weighted entry price after adding to a position. */
  function Blend(avg: real, held: real, price: real, qty: real): real
    requires held + qty != 0.0
  {
    (Scale(avg, held) + Scale(price, qty)) / (held + qty)
  }

  function Gain(p: Position, price: real, qty: real): real {
    if p.side == Buy then Scale(price - p.avg, qty) else Scale(p.avg - price, qty)
  }

  /** Effect of one fill. Adding to a position on the same side leaves the cash as it is. */
  function Apply(b: Book, f: Fill): Book
    requires Sound(b) && f.qty > 0.0
  {
    if f.symbol in b.positions then
      var p := b.positions[f.symbol];
      if p.side == f.side then
        b.(positions := b.positions[f.symbol := Position(p.qty + f.qty, Blend(p.avg, p.qty, f.price, f.qty), p.side)])
      else if f.qty >= p.qty then
        var cash := b.cash + Gain(p, f.price, p.qty) + Scale(p.avg, p.qty);
        var rest := f.qty - p.qty;
        if rest > 0.0 then
          Book(cash - Scale(f.price, rest), b.positions[f.symbol := Position(rest, f.price, f.side)])
        else Book(cash, b.positions - {f.symbol})
      else
        Book(b.cash + Gain(p, f.price, f.qty) + Scale(p.avg, f.qty),
             b.positions[f.symbol := p.(qty := p.qty - f.qty)])
    else
      Book(b.cash - Scale(f.price, f.qty), b.positions[f.symbol := Position(f.qty, f.price, f.side)])
  }

  ghost predicate Positive(fills: seq<Fill>) {
    forall i :: 0 <= i < |fills| ==> fills[i].qty > 0.0
  }

  function Replay(start: real, fills: seq<Fill>): (b: Book)
    requires Positive(fills)
    ensures Sound(b)
  {
    if fills == [] then Book(start, map[])
    else Apply(Replay(start, fills[..|fills| - 1]), fills[|fills| - 1])
  }

  // ---------- Signed ledger ----------

  function Signed(side: Side, qty: real): real {
    if side == Buy then qty else -qty
  }

  /** Running sum of the signed quantities traded in one symbol. */
  function Net(fills: seq<Fill>, s: string): real {
    if fills == [] then 0.0
    else
      var f := fills[|fills| - 1];
      Net(fills[..|fills| - 1], s) + if f.symbol == s then Signed(f.side, f.qty) else 0.0
  }

  function Holding(b: Book, s: string): real {
    if s in b.positions then Signed(b.positions[s].side, b.positions[s].qty) else 0.0
  }

  /** The stored quantity and side of every symbol are the size and sign of its net traded
      quantity, and a symbol is stored exactly when that is not zero. */
  lemma {:induction false} SignedLedger(start: real, fills: seq<Fill>, s: string)
    requires Positive(fills)
    ensures var b := Replay(start, fills);
            && (s in b.positions <==> Net(fills, s) != 0.0)
            && (s in b.positions ==>
                 && b.positions[s].qty == Abs(Net(fills, s))
                 && (b.positions[s].side == Buy <==> Net(fills, s) > 0.0))
  {
    if fills != [] {
      SignedLedger(start, fills[..|fills| - 1], s);
      hide Scale, Gain, Blend;
    }
  }

  // ---------- Entry prices ----------

  predicate SameSign(a: real, b: real) {
    (a > 0.0 && b > 0.0) || (a < 0.0 && b < 0.0)
  }

  /** Index of the fill that opened the current position in `s`, or turned it around. */
  function OpenedBy(fills: seq<Fill>, s: string): nat {
    if fills == [] then 0
    else
      var front := fills[..|fills| - 1];
      if SameSign(Net(front, s), Net(fills, s)) then OpenedBy(front, s)
      else if fills[|fills| - 1].symbol == s then |front|
      else OpenedBy(front, s)
  }

  ghost predicate PricedWithin(fills: seq<Fill>, from: nat, s: string, lo: real, hi: real) {
    forall i :: from <= i < |fills| && fills[i].symbol == s ==> lo <= fills[i].price <= hi
  }

  lemma BlendWithin(avg: real, held: real, price: real, qty: real, lo: real, hi: real)
    requires held > 0.0 && qty > 0.0 && lo <= avg <= hi && lo <= price <= hi
    ensures lo <= Blend(avg, held, price, qty) <= hi
  {
    var t := held + qty;
    var v := Blend(avg, held, price, qty);
    DivMul(Scale(avg, held) + Scale(price, qty), t);
    MulNonneg(avg - lo, held);
    MulNonneg(price - lo, qty);
    MulNonneg(hi - avg, held);
    MulNonneg(hi - price, qty);
    assert (v - lo) * t == (avg - lo) * held + (price - lo) * qty;
    assert (hi - v) * t == (hi - avg) * held + (hi - price) * qty;
    if v < lo {
      MulPos(lo - v, t);
    }
    if v > hi {
      MulPos(v - hi, t);
    }
  }

  /** The average entry price lies between the lowest and the highest price paid since the position
      was opened or turned around. */
  lemma {:induction false} AverageWithinPrices(start: real, fills: seq<Fill>, s: string, lo: real, hi: real)
    requires Positive(fills) && Net(fills, s) != 0.0
    requires PricedWithin(fills, OpenedBy(fills, s), s, lo, hi)
    ensures s in Replay(start, fills).positions
    ensures lo <= Replay(start, fills).positions[s].avg <= hi
  {
    var front, f := fills[..|fills| - 1], fills[|fills| - 1];
    SignedLedger(start, fills, s);
    SignedLedger(start, front, s);
    OpeningFillExists(fills, s);
    hide Scale, Gain;
    if SameSign(Net(front, s), Net(fills, s)) {
      forall i | OpenedBy(front, s) <= i < |front| && front[i].symbol == s ensures lo <= front[i].price <= hi {
        assert fills[i] == front[i];
      }
      AverageWithinPrices(start, front, s, lo, hi);
      var p := Replay(start, front).positions[s];
      if f.symbol == s && f.side == p.side {
        BlendWithin(p.avg, p.qty, f.price, f.qty, lo, hi);
      }
    }
  }

  lemma {:induction false} OpeningFillExists(fills: seq<Fill>, s: string)
    requires Net(fills, s) != 0.0
    ensures OpenedBy(fills, s) < |fills| && fills[OpenedBy(fills, s)].symbol == s
  {
    var front := fills[..|fills| - 1];
    if Net(front, s) != 0.0 {
      OpeningFillExists(front, s);
    }
  }

  // ---------- Cash law ----------

  function Costs(positions: map<string, Position>): map<string, real> {
    map s | s in positions :: Scale(positions[s].avg, positions[s].qty)
  }

  /** Cost basis of everything held. */
  ghost function Basis(positions: map<string, Position>): real {
    Total(Costs(positions))
  }

  /** Profit a fill realises against the position it reduces. */
  function RealisedBy(b: Book, f: Fill): real {
    if f.symbol in b.positions && b.positions[f.symbol].side != f.side then
      Gain(b.positions[f.symbol], f.price, Min(f.qty, b.positions[f.symbol].qty))
    else 0.0
  }

  function Realised(start: real, fills: seq<Fill>): real
    requires Positive(fills)
  {
    if fills == [] then 0.0
    else
      var front := fills[..|fills| - 1];
      Realised(start, front) + RealisedBy(Replay(start, front), fills[|fills| - 1])
  }

  /** A fill that adds to a position already held on its side, told from the net quantities alone. */
  predicate Adds(front: seq<Fill>, f: Fill) {
    SameSign(Net(front, f.symbol), Signed(f.side, 1.0))
  }

  function AddedNotional(fills: seq<Fill>): real {
    if fills == [] then 0.0
    else
      var front, f := fills[..|fills| - 1], fills[|fills| - 1];
      AddedNotional(front) + if Adds(front, f) then Scale(f.price, f.qty) else 0.0
  }

  lemma BasisSet(positions: map<string, Position>, s: string, p: Position)
    ensures Basis(positions[s := p]) == Basis(positions - {s}) + Scale(p.avg, p.qty)
  {
    hide Scale;
    TotalSet(Costs(positions), s, Scale(p.avg, p.qty));
    assert Costs(positions[s := p]) == Costs(positions)[s := Scale(p.avg, p.qty)];
    assert Costs(positions - {s}) == Costs(positions) - {s};
  }

  lemma BasisDrop(positions: map<string, Position>, s: string)
    ensures Basis(positions - {s})
         == Basis(positions) - if s in positions then Scale(positions[s].avg, positions[s].qty) else 0.0
  {
    hide Scale;
    TotalDrop(Costs(positions), s);
    assert Costs(positions - {s}) == Costs(positions) - {s};
  }

  lemma BlendCost(avg: real, held: real, price: real, qty: real)
    requires held + qty != 0.0
    ensures Scale(Blend(avg, held, price, qty), held + qty) == Scale(avg, held) + Scale(price, qty)
  {
    DivMul(Scale(avg, held) + Scale(price, qty), held + qty);
  }

  /** One fill moves cash plus cost basis by what it realises, plus its notional if it adds. */
  lemma FillBalances(b: Book, f: Fill)
    requires Sound(b) && f.qty > 0.0
    ensures var b' := Apply(b, f);
            b'.cash + Basis(b'.positions)
            == b.cash + Basis(b.positions) + RealisedBy(b, f)
             + if f.symbol in b.positions && b.positions[f.symbol].side == f.side then Scale(f.price, f.qty) else 0.0
  {
    var s := f.symbol;
    BasisDrop(b.positions, s);
    if s in b.positions {
      var p := b.positions[s];
      BlendCost(p.avg, p.qty, f.price, f.qty);
      ScaleMinus(p.avg, p.qty, f.qty);
    }
    var b' := Apply(b, f);
    if s in b'.positions {
      BasisSet(b.positions, s, b'.positions[s]);
    }
    hide Scale, Blend, Gain, Basis;
  }

  /** In every reachable book, cash plus cost basis is the starting equity plus realised profit plus the
      notional of same-side adds, which were never paid for. */
  lemma {:induction false} CashLaw(start: real, fills: seq<Fill>)
    requires Positive(fills)
    ensures var b := Replay(start, fills);
            b.cash + Basis(b.positions) == start + Realised(start, fills) + AddedNotional(fills)
  {
    if fills == [] {
      assert Costs(map[]) == map[];
    } else {
      var front, f := fills[..|fills| - 1], fills[|fills| - 1];
      CashLaw(start, front);
      SignedLedger(start, front, f.symbol);
      FillBalances(Replay(start, front), f);
      hide Apply, Scale, RealisedBy, Basis;
    }
  }

  /** No fill of the run added to a position on its own side. */
  predicate NoAdds(fills: seq<Fill>) {
    fills == [] || (NoAdds(fills[..|fills| - 1]) && !Adds(fills[..|fills| - 1], fills[|fills| - 1]))
  }

  lemma {:induction false} AddsAreFree(fills: seq<Fill>)
    requires Positive(fills) && forall i :: 0 <= i < |fills| ==> fills[i].price > 0.0
    ensures AddedNotional(fills) >= 0.0
    ensures AddedNotional(fills) == 0.0 <==> NoAdds(fills)
  {
    if fills != [] {
      var f := fills[|fills| - 1];
      AddsAreFree(fills[..|fills| - 1]);
      MulPos(f.price, f.qty);
      hide Adds;
    }
  }

  /** With positive prices, money is conserved exactly on the runs without a same-side add. */
  lemma ConservationExactlyWithoutAdds(start: real, fills: seq<Fill>)
    requires Positive(fills) && forall i :: 0 <= i < |fills| ==> fills[i].price > 0.0
    ensures var b := Replay(start, fills);
            b.cash + Basis(b.positions) == start + Realised(start, fills) <==> NoAdds(fills)
  {
    CashLaw(start, fills);
    AddsAreFree(fills);
    hide Basis, Realised, AddedNotional, NoAdds, Replay;
  }

  // ---------- Cash told from the fills ----------

  /** Price times signed quantity over all fills. */
  function SignedNotional(fills: seq<Fill>): real {
    if fills == [] then 0.0
    else
      var f := fills[|fills| - 1];
      SignedNotional(fills[..|fills| - 1]) + Scale(f.price, Signed(f.side, f.qty))
  }

  /** No fill of the run left its symbol short. */
  predicate NeverShort(fills: seq<Fill>) {
    fills == [] || (NeverShort(fills[..|fills| - 1]) && Net(fills, fills[|fills| - 1].symbol) >= 0.0)
  }

  lemma {:induction false} NeverShortMeans(fills: seq<Fill>, s: string)
    requires NeverShort(fills)
    ensures Net(fills, s) >= 0.0
  {
    if fills != [] {
      NeverShortMeans(fills[..|fills| - 1], s);
    }
  }

  /** What a fill that does not end short does to the cash: it pays or receives its notional, except that an add
      pays nothing. */
  lemma LongFillPays(b: Book, f: Fill)
    requires Sound(b) && f.qty > 0.0
    requires if f.symbol in b.positions then b.positions[f.symbol].side == Buy else f.side == Buy
    requires f.symbol in b.positions && f.side == Sell ==> f.qty <= b.positions[f.symbol].qty
    ensures Apply(b, f).cash
         == b.cash - Scale(f.price, Signed(f.side, f.qty))
          + if f.symbol in b.positions && f.side == Buy then Scale(f.price, f.qty) else 0.0
  {
    if f.symbol in b.positions {
      var p := b.positions[f.symbol];
      ScaleMinus(f.qty, f.price, p.avg);
      ScaleMinus(p.qty, f.price, p.avg);
      ScaleMinus(f.price, 0.0, f.qty);
    }
    assert Scale(f.price, 0.0) == 0.0;
    hide Scale, Blend;
  }

  /** On a run that never goes short the cash is the starting cash less everything bought plus everything sold,
      plus the notional of same-side adds, which were never paid for. */
  lemma {:induction false} LongOnlyCash(start: real, fills: seq<Fill>)
    requires Positive(fills) && NeverShort(fills)
    ensures Replay(start, fills).cash == start - SignedNotional(fills) + AddedNotional(fills)
  {
    if fills != [] {
      var front, f := fills[..|fills| - 1], fills[|fills| - 1];
      LongOnlyCash(start, front);
      SignedLedger(start, front, f.symbol);
      NeverShortMeans(front, f.symbol);
      hide Apply, Scale;
      LongFillPays(Replay(start, front), f);
    }
  }

  // ---------- Account valuation ----------

  function Marks(positions: map<string, Position>, prices: map<string, real>): map<string, real> {
    map s | s in positions :: if s in prices then prices[s] else positions[s].avg
  }

  function MarketValues(positions: map<string, Position>, prices: map<string, real>): map<string, real> {
    map s | s in positions :: Scale(Marks(positions, prices)[s], positions[s].qty)
  }

  function Unrealised(positions: map<string, Position>, prices: map<string, real>): map<string, real> {
    map s | s in positions :: Gain(positions[s], Marks(positions, prices)[s], positions[s].qty)
  }

  function ShortGains(positions: map<string, Position>, prices: map<string, real>): map<string, real> {
    map s | s in positions ::
      if positions[s].side == Sell then Gain(positions[s], Marks(positions, prices)[s], positions[s].qty) else 0.0
  }

  /** The account reports equity as cash plus market value, short positions included at their positive
      market value. That equals cash plus cost basis plus reported unrealised profit, less twice the
      unrealised profit of the short positions. */
  lemma EquityMisstatesShorts(b: Book, prices: map<string, real>)
    ensures b.cash + Total(MarketValues(b.positions, prices))
         == b.cash + Basis(b.positions) + Total(Unrealised(b.positions, prices))
          - 2.0 * Total(ShortGains(b.positions, prices))
  {
    var ps := b.positions;
    var mv, un, sh, co := MarketValues(ps, prices), Unrealised(ps, prices), ShortGains(ps, prices), Costs(ps);
    forall s | s in ps ensures mv[s] + 2.0 * sh[s] == co[s] + un[s] {
      hide Scale, Gain, Marks;
      GainVersusValue(ps[s], Marks(ps, prices)[s]);
    }
    hide Scale, Gain, Marks, MarketValues, Unrealised, ShortGains, Costs, Total;
    TotalsBalance(mv, sh, co, un);
  }

  predicate NoShorts(positions: map<string, Position>) {
    forall s :: s in positions ==> positions[s].side != Sell
  }

  /** Reported equity is cash plus cost basis plus reported unrealised profit exactly if the unrealised profits
      of the short positions cancel out; in particular whenever no short is held. */
  lemma EquityRightExactlyWhen(b: Book, prices: map<string, real>)
    ensures b.cash + Total(MarketValues(b.positions, prices))
         == b.cash + Basis(b.positions) + Total(Unrealised(b.positions, prices))
       <==> Total(ShortGains(b.positions, prices)) == 0.0
    ensures NoShorts(b.positions) ==> Total(ShortGains(b.positions, prices)) == 0.0
  {
    EquityMisstatesShorts(b, prices);
    TotalZero(if NoShorts(b.positions) then ShortGains(b.positions, prices) else map[]);
    hide Total, Basis, MarketValues, Unrealised;
  }

  lemma GainVersusValue(p: Position, mark: real)
    ensures var g := Gain(p, mark, p.qty);
            Scale(mark, p.qty) + 2.0 * (if p.side == Sell then g else 0.0) == Scale(p.avg, p.qty) + g
  {
    ScaleMinus(p.qty, mark, p.avg);
    ScaleMinus(p.qty, p.avg, mark);
  }
}
