/** The simulated broker of src/broker/paper.py: orders, resting limit orders, idempotency keys and the
    position book. Every method keeps `Valid()`, so what it says holds in every reachable state. */
module PaperBroker {
  import opened Common
  import opened MapTotals
  import opened PaperBook

  datatype Kind = Market | Limit | Bracket | StopLimit

  datatype Status = Pending | Filled | Cancelled

  /** `limitPrice` and `stopPrice` are set for the kinds that carry them. */
  datatype Order = Order(
    id: nat, symbol: string, qty: real, side: Side, kind: Kind, status: Status,
    filledPrice: Option<real>, limitPrice: Option<real>, stopPrice: Option<real>, clientId: Option<string>)

  predicate Marketable(side: Side, limit: real, price: real) {
    if side == Buy then price <= limit else price >= limit
  }

  /** Would the pending-order sweep fill this order at `price`? A limit of zero is never swept. */
  predicate Sweepable(o: Order, symbol: string, price: real) {
    && o.status == Pending && o.symbol == symbol && o.kind == Limit
    && o.limitPrice.Some? && o.limitPrice.value != 0.0
    && Marketable(o.side, o.limitPrice.value, price)
  }

  function FilledAt(o: Order, price: real): Order {
    o.(status := Filled, filledPrice := Some(price))
  }

  function FillOf(o: Order, price: real): Fill {
    Fill(o.symbol, o.qty, o.side, price)
  }

  /** Orders and fills after a sweep of the orders at one symbol's new price. */
  function Swept(orders: seq<Order>, symbol: string, price: real): (r: seq<Order>)
    ensures |r| == |orders|
  {
    seq(|orders|, i requires 0 <= i < |orders| =>
      if Sweepable(orders[i], symbol, price) then FilledAt(orders[i], orders[i].limitPrice.value) else orders[i])
  }

  function SweepFills(orders: seq<Order>, symbol: string, price: real): seq<Fill> {
    if orders == [] then []
    else
      var o := orders[|orders| - 1];
      SweepFills(orders[..|orders| - 1], symbol, price)
      + if Sweepable(o, symbol, price) then [FillOf(o, o.limitPrice.value)] else []
  }

  // ---------- Invariants of the order list ----------

  /** No pending limit order with a nonzero limit is marketable at its symbol's last price. */
  ghost predicate NothingLeftMarketable(orders: seq<Order>, prices: map<string, real>) {
    forall i :: 0 <= i < |orders| && orders[i].symbol in prices ==>
      !Sweepable(orders[i], orders[i].symbol, prices[orders[i].symbol])
  }

  predicate Keyed(o: Order) {
    o.clientId.Some? && o.clientId.value != ""
  }

  /** At most one order per idempotency key. */
  ghost predicate KeysUnique(orders: seq<Order>) {
    forall i, j :: 0 <= i < j < |orders| && Keyed(orders[i]) && Keyed(orders[j]) ==>
      orders[i].clientId != orders[j].clientId
  }

  ghost predicate Numbered(orders: seq<Order>) {
    forall i :: 0 <= i < |orders| ==> orders[i].id == i && orders[i].qty > 0.0
  }

  /** Filled and cancelled orders are final, orders are never dropped or rewritten. */
  ghost predicate Settled(before: seq<Order>, after: seq<Order>) {
    && |before| <= |after|
    && forall i :: 0 <= i < |before| ==>
         && (before[i].status != Pending ==> after[i] == before[i])
         && after[i] == before[i].(status := after[i].status, filledPrice := after[i].filledPrice)
  }

  lemma SettledTransitive(a: seq<Order>, b: seq<Order>, c: seq<Order>)
    requires Settled(a, b) && Settled(b, c)
    ensures Settled(a, c)
  {
    forall i | 0 <= i < |a|
      ensures a[i].status != Pending ==> c[i] == a[i]
      ensures c[i] == a[i].(status := c[i].status, filledPrice := c[i].filledPrice)
    {
      assert b[i] == a[i].(status := b[i].status, filledPrice := b[i].filledPrice);
    }
  }

  lemma SettledReflexive(orders: seq<Order>)
    ensures Settled(orders, orders)
  {
  }

  /** One call of the broker's interface. */
  datatype Call =
    | PlaceMarket(symbol: string, qty: real, side: Side, clientId: Option<string>)
    | PlaceBracket(symbol: string, qty: real, side: Side)
    | PlaceNotional(symbol: string, notional: real, side: Side)
    | PlaceLimit(symbol: string, qty: real, side: Side, limit: real)
    | PlaceStopLimit(symbol: string, qty: real, side: Side, limit: real, stop: real)
    | Cancel(id: nat)
    | Close(symbol: string, part: Option<real>)
    | Quote(symbol: string, price: real)

  /** Quantities and amounts are positive and quoted prices are not negative. */
  predicate Proper(c: Call) {
    match c
    case PlaceMarket(_, qty, _, _) => qty > 0.0
    case PlaceBracket(_, qty, _) => qty > 0.0
    case PlaceNotional(_, notional, _) => notional > 0.0
    case PlaceLimit(_, qty, _, _) => qty > 0.0
    case PlaceStopLimit(_, qty, _, _, _) => qty > 0.0
    case Cancel(_) => true
    case Close(_, part) => part.Some? ==> part.value > 0.0
    case Quote(_, price) => price >= 0.0
  }

  /** Symbol without the slashes of a crypto pair. */
  function WithoutSlashes(symbol: string): string {
    if symbol == "" then "" else (if symbol[0] == '/' then "" else [symbol[0]]) + WithoutSlashes(symbol[1..])
  }

  lemma AppendKeepsOrders(orders: seq<Order>, o: Order, prices: map<string, real>)
    requires Numbered(orders) && KeysUnique(orders) && NothingLeftMarketable(orders, prices)
    requires o.id == |orders| && o.qty > 0.0
    requires Keyed(o) ==> forall i :: 0 <= i < |orders| ==> orders[i].clientId != o.clientId
    requires o.symbol in prices ==> !Sweepable(o, o.symbol, prices[o.symbol])
    ensures Numbered(orders + [o]) && KeysUnique(orders + [o]) && NothingLeftMarketable(orders + [o], prices)
    ensures Settled(orders, orders + [o])
  {
    hide Sweepable;
  }

  lemma SweepKeepsOrders(orders: seq<Order>, prices: map<string, real>, symbol: string, price: real)
    requires Numbered(orders) && KeysUnique(orders) && NothingLeftMarketable(orders, prices)
    ensures var after := Swept(orders, symbol, price);
            && Numbered(after) && KeysUnique(after) && Settled(orders, after)
            && NothingLeftMarketable(after, prices[symbol := price])
  {
    hide Marketable;
    var after := Swept(orders, symbol, price);
    forall i, j | 0 <= i < j < |after| && Keyed(after[i]) && Keyed(after[j])
      ensures after[i].clientId != after[j].clientId
    {
      assert after[i].clientId == orders[i].clientId && after[j].clientId == orders[j].clientId;
    }
  }

  lemma SweepPrefix(orders: seq<Order>, k: nat, symbol: string, price: real)
    requires k < |orders|
    ensures SweepFills(orders[..k + 1], symbol, price)
         == SweepFills(orders[..k], symbol, price)
          + if Sweepable(orders[k], symbol, price) then [FillOf(orders[k], orders[k].limitPrice.value)] else []
  {
    assert orders[..k + 1][..k] == orders[..k];
  }

  /** The first `n` orders have been swept, the others not yet. */
  ghost predicate PartlySwept(before: seq<Order>, after: seq<Order>, n: nat, symbol: string, price: real) {
    && n <= |before| == |after|
    && after[..n] == Swept(before, symbol, price)[..n] && after[n..] == before[n..]
  }

  lemma PartlySweptStarts(before: seq<Order>, symbol: string, price: real)
    ensures PartlySwept(before, before, 0, symbol, price)
  {
  }

  lemma PartlySweptStep(before: seq<Order>, after: seq<Order>, n: nat, symbol: string, price: real)
    requires PartlySwept(before, after, n, symbol, price) && n < |before|
    ensures after[n] == before[n]
    ensures Sweepable(before[n], symbol, price) ==>
              && before[n].limitPrice.Some?
              && PartlySwept(before, after[n := FilledAt(before[n], before[n].limitPrice.value)], n + 1, symbol, price)
    ensures !Sweepable(before[n], symbol, price) ==> PartlySwept(before, after, n + 1, symbol, price)
  {
    hide Marketable;
    assert after[n..][0] == before[n..][0];
    var swept := Swept(before, symbol, price);
    assert swept[..n + 1] == swept[..n] + [swept[n]];
    assert after[..n + 1] == after[..n] + [after[n]];
    assert after[n + 1..] == after[n..][1..] && before[n + 1..] == before[n..][1..];
  }

  lemma PartlySweptEnds(before: seq<Order>, after: seq<Order>, symbol: string, price: real)
    requires PartlySwept(before, after, |before|, symbol, price)
    ensures after == Swept(before, symbol, price)
  {
    assert after[..|before|] == after && Swept(before, symbol, price)[..|before|] == Swept(before, symbol, price);
  }

  class Broker {
    const startingEquity: real
    var cash: real
    var positions: map<string, Position>
    var orders: seq<Order>
    var prices: map<string, real>
    ghost var fills: seq<Fill>

    ghost function View(): Book
      reads this
    {
      Book(cash, positions)
    }

    /** Cash and positions are what the recorded fills add up to. */
    ghost predicate BooksFollowFills()
      reads this
    {
      Positive(fills) && View() == Replay(startingEquity, fills)
    }

    ghost predicate Valid()
      reads this
    {
      && BooksFollowFills()
      && Numbered(orders) && KeysUnique(orders) && NothingLeftMarketable(orders, prices)
    }

    constructor (equity: real)
      ensures Valid() && startingEquity == equity && orders == [] && prices == map[] && fills == []
    {
      startingEquity := equity;
      cash, positions, orders, prices, fills := equity, map[], [], map[], [];
    }

    /** Applies a fill to cash and positions. */
    method UpdateBook(f: Fill)
      requires Sound(View()) && f.qty > 0.0
      modifies this`cash, this`positions
      ensures View() == Apply(old(View()), f)
    {
      var symbol, qty, side, price := f.symbol, f.qty, f.side, f.price;
      hide Scale;
      if symbol in positions {
        var pos := positions[symbol];
        if pos.side == side {
          var total := pos.qty + qty;
          var avg := (Scale(pos.avg, pos.qty) + Scale(price, qty)) / total;
          positions := positions[symbol := Position(total, avg, side)];
        } else if qty >= pos.qty {
          var realised := if pos.side == Buy then Scale(price - pos.avg, pos.qty) else Scale(pos.avg - price, pos.qty);
          cash := cash + realised + Scale(pos.avg, pos.qty);
          positions := positions - {symbol};
          var remaining := qty - pos.qty;
          if remaining > 0.0 {
            positions := positions[symbol := Position(remaining, price, side)];
            cash := cash - Scale(price, remaining);
          }
        } else {
          var realised := if pos.side == Buy then Scale(price - pos.avg, qty) else Scale(pos.avg - price, qty);
          cash := cash + realised + Scale(pos.avg, qty);
          positions := positions[symbol := pos.(qty := pos.qty - qty)];
        }
      } else {
        positions := positions[symbol := Position(qty, price, side)];
        cash := cash - Scale(price, qty);
      }
    }

    method FillOrder(i: nat, price: real)
      requires BooksFollowFills() && i < |orders| && orders[i].qty > 0.0
      modifies this`cash, this`positions, this`orders, this`fills
      ensures BooksFollowFills()
      ensures orders == old(orders)[i := FilledAt(old(orders)[i], price)]
      ensures fills == old(fills) + [FillOf(old(orders)[i], price)]
    {
      var f := FillOf(orders[i], price);
      orders := orders[i := FilledAt(orders[i], price)];
      UpdateBook(f);
      assert (fills + [f])[..|fills|] == fills;
      fills := fills + [f];
      hide Apply, Replay;
    }

    /** Creates an order already filled at `price`: the market-like orders. */
    method SubmitFilled(o: Order, price: real) returns (r: Order)
      requires Valid() && o.id == |orders| && o.qty > 0.0 && o.status == Pending
      requires Keyed(o) ==> forall i :: 0 <= i < |orders| ==> orders[i].clientId != o.clientId
      modifies this`cash, this`positions, this`orders, this`fills
      ensures Valid() && Settled(old(orders), orders)
      ensures r == FilledAt(o, price) && orders == old(orders) + [r]
      ensures fills == old(fills) + [FillOf(o, price)]
    {
      hide Replay, Apply, NothingLeftMarketable, Numbered, KeysUnique, Settled;
      assert Keyed(FilledAt(o, price)) == Keyed(o);
      assert !Sweepable(FilledAt(o, price), o.symbol, if o.symbol in prices then prices[o.symbol] else 0.0);
      AppendKeepsOrders(orders, FilledAt(o, price), prices);
      orders := orders + [o];
      FillOrder(|orders| - 1, price);
      r := orders[|orders| - 1];
      assert orders == old(orders) + [r];
    }

    /** A resubmitted idempotency key returns the first order and changes nothing; without a price the
        submission fails and changes nothing; otherwise the order fills at the last price. */
    method MarketOrder(
        symbol: string, qty: real, side: Side, clientId: Option<string>) returns (r: Result<Order, string>)
      requires Valid() && qty > 0.0
      modifies this`cash, this`positions, this`orders, this`fills
      ensures Valid() && Settled(old(orders), orders)
      ensures var keyed := clientId.Some? && clientId.value != "";
              var known := keyed && exists i :: 0 <= i < |old(orders)| && old(orders)[i].clientId == clientId;
              if known then
                && r.Ok? && r.value in old(orders) && r.value.clientId == clientId
                && View() == old(View()) && orders == old(orders) && fills == old(fills)
              else if symbol !in prices then
                r.Err? && View() == old(View()) && orders == old(orders) && fills == old(fills)
              else
                && r == Ok(Order(|old(orders)|, symbol, qty, side, Market, Filled, Some(prices[symbol]), None, None,
                                 if keyed then clientId else None))
                && orders == old(orders) + [r.value]
                && fills == old(fills) + [Fill(symbol, qty, side, prices[symbol])]
    {
      var keyed := clientId.Some? && clientId.value != "";
      if keyed {
        for i := 0 to |orders|
          invariant forall j :: 0 <= j < i ==> orders[j].clientId != clientId
        {
          if orders[i].clientId == clientId {
            return Ok(orders[i]);
          }
        }
      }
      if symbol !in prices {
        return Err("No price set");
      }
      var o := Order(|orders|, symbol, qty, side, Market, Pending, None, None, None, if keyed then clientId else None);
      hide Replay, Apply, Numbered, KeysUnique, NothingLeftMarketable, Settled;
      var filled := SubmitFilled(o, prices[symbol]);
      r := Ok(filled);
    }

    method BracketOrder(symbol: string, qty: real, side: Side) returns (r: Result<Order, string>)
      requires Valid() && qty > 0.0
      modifies this`cash, this`positions, this`orders, this`fills
      ensures Valid() && Settled(old(orders), orders)
      ensures if symbol !in prices then
                r.Err? && View() == old(View()) && orders == old(orders) && fills == old(fills)
              else
                && r == Ok(Order(|old(orders)|, symbol, qty, side, Bracket, Filled, Some(prices[symbol]), None, None, None))
                && orders == old(orders) + [r.value]
                && fills == old(fills) + [Fill(symbol, qty, side, prices[symbol])]
    {
      if symbol !in prices {
        return Err("No price set");
      }
      var o := Order(|orders|, symbol, qty, side, Bracket, Pending, None, None, None, None);
      hide Replay, Apply, Numbered, KeysUnique, NothingLeftMarketable, Settled;
      var filled := SubmitFilled(o, prices[symbol]);
      r := Ok(filled);
    }

    /** An order by amount of money buys the amount over the last price; a price of zero fails the division
        before anything is recorded. Quantities bought are positive, as for every order. */
    method MarketOrderNotional(symbol: string, notional: real, side: Side) returns (r: Result<Order, string>)
      requires Valid() && (symbol in prices && prices[symbol] != 0.0 ==> notional / prices[symbol] > 0.0)
      modifies this`cash, this`positions, this`orders, this`fills
      ensures Valid() && Settled(old(orders), orders)
      ensures if symbol !in prices || prices[symbol] == 0.0 then
                r.Err? && View() == old(View()) && orders == old(orders) && fills == old(fills)
              else
                && r.Ok? && Scale(r.value.qty, prices[symbol]) == notional && r.value.status == Filled
                && orders == old(orders) + [r.value]
                && fills == old(fills) + [Fill(symbol, r.value.qty, side, prices[symbol])]
    {
      if symbol !in prices {
        return Err("No price set");
      }
      if prices[symbol] == 0.0 {
        return Err("Division by zero");
      }
      DivMul(notional, prices[symbol]);
      var qty := notional / prices[symbol];
      assert Scale(qty, prices[symbol]) == notional;
      var o := Order(|orders|, symbol, qty, side, Market, Pending, None, None, None, None);
      hide Scale, Replay, Apply, Numbered, KeysUnique, NothingLeftMarketable, Settled;
      var filled := SubmitFilled(o, prices[symbol]);
      r := Ok(filled);
    }

    /** A limit order fills at its limit at once if the last price already crosses it, else it rests. */
    method LimitOrder(symbol: string, qty: real, side: Side, limit: real) returns (r: Order)
      requires Valid() && qty > 0.0
      modifies this`cash, this`positions, this`orders, this`fills
      ensures Valid() && Settled(old(orders), orders) && orders == old(orders) + [r]
      ensures var o := Order(|old(orders)|, symbol, qty, side, Limit, Pending, None, Some(limit), None, None);
              if symbol in prices && Marketable(side, limit, prices[symbol]) then
                r == FilledAt(o, limit) && fills == old(fills) + [FillOf(o, limit)]
              else
                r == o && fills == old(fills) && View() == old(View())
    {
      r := Order(|orders|, symbol, qty, side, Limit, Pending, None, Some(limit), None, None);
      if symbol in prices && Marketable(side, limit, prices[symbol]) {
        hide Replay, Apply, Numbered, KeysUnique, NothingLeftMarketable, Settled;
        r := SubmitFilled(r, limit);
      } else {
        AppendKeepsOrders(orders, r, prices);
        orders := orders + [r];
      }
    }

    /** A stop-limit order is only ever filled on submission. */
    method StopLimitOrder(symbol: string, qty: real, side: Side, limit: real, stop: real) returns (r: Order)
      requires Valid() && qty > 0.0
      modifies this`cash, this`positions, this`orders, this`fills
      ensures Valid() && Settled(old(orders), orders) && orders == old(orders) + [r]
      ensures var o := Order(|old(orders)|, symbol, qty, side, StopLimit, Pending, None, Some(limit), Some(stop), None);
              if symbol in prices && (if side == Buy then stop <= prices[symbol] <= limit else limit <= prices[symbol] <= stop) then
                r == FilledAt(o, limit) && fills == old(fills) + [FillOf(o, limit)]
              else
                r == o && fills == old(fills) && View() == old(View())
    {
      r := Order(|orders|, symbol, qty, side, StopLimit, Pending, None, Some(limit), Some(stop), None);
      if symbol in prices {
        var current := prices[symbol];
        var triggered := (side == Buy && current >= stop) || (side == Sell && current <= stop);
        if triggered && Marketable(side, limit, current) {
          r := SubmitFilled(r, limit);
          return;
        }
      }
      AppendKeepsOrders(orders, r, prices);
      orders := orders + [r];
    }

    method CancelOrder(orderId: nat) returns (r: Option<Order>)
      requires Valid()
      modifies this`orders
      ensures Valid() && Settled(old(orders), orders)
      ensures if orderId < |old(orders)| && old(orders)[orderId].status == Pending then
                && r == Some(old(orders)[orderId].(status := Cancelled))
                && orders == old(orders)[orderId := r.value]
              else r == None && orders == old(orders)
    {
      for i := 0 to |orders|
        invariant orders == old(orders)
        invariant orderId < i ==> orders[orderId].status != Pending
      {
        if orders[i].id == orderId && orders[i].status == Pending {
          orders := orders[i := orders[i].(status := Cancelled)];
          return Some(orders[i]);
        }
      }
      r := None;
    }

    /** Closing goes against the position at the last price, or at the entry price if none is known. */
    method ClosePosition(symbol: string, qty: Option<real>) returns (r: Option<Order>)
      requires Valid() && (qty.Some? ==> qty.value > 0.0)
      modifies this`cash, this`positions, this`orders, this`fills
      ensures Valid() && Settled(old(orders), orders)
      ensures var held := if symbol in old(positions) then symbol else WithoutSlashes(symbol);
              if held !in old(positions) then
                r == None && View() == old(View()) && orders == old(orders) && fills == old(fills)
              else
                var p := old(positions)[held];
                var price := if held in prices then prices[held] else if symbol in prices then prices[symbol] else p.avg;
                && r.Some? && r.value.status == Filled && orders == old(orders) + [r.value]
                && fills == old(fills) + [Fill(held, qty.GetOr(p.qty), if p.side == Buy then Sell else Buy, price)]
    {
      var actual := if symbol in positions then symbol else WithoutSlashes(symbol);
      if actual !in positions {
        return None;
      }
      var pos := positions[actual];
      assert Sound(View());
      var price := if actual in prices then prices[actual] else if symbol in prices then prices[symbol] else pos.avg;
      var closeQty := qty.GetOr(pos.qty);
      var closeSide := if pos.side == Buy then Sell else Buy;
      var o := Order(|orders|, actual, closeQty, closeSide, Market, Pending, None, None, None, None);
      hide Replay, Apply, Numbered, KeysUnique, NothingLeftMarketable, Settled;
      var filled := SubmitFilled(o, price);
      r := Some(filled);
    }

    /** A new price sweeps the resting limit orders of its symbol, oldest first, each at its limit. */
    method SetPrice(symbol: string, price: real)
      requires Valid()
      modifies this
      ensures Valid() && Settled(old(orders), orders)
      ensures prices == old(prices)[symbol := price]
      ensures orders == Swept(old(orders), symbol, price)
      ensures fills == old(fills) + SweepFills(old(orders), symbol, price)
    {
      ghost var before, was := orders, fills;
      SweepKeepsOrders(orders, prices, symbol, price);
      prices := prices[symbol := price];
      hide Replay, Apply, KeysUnique, NothingLeftMarketable, Settled, Sweepable, SweepFills, PartlySwept, Swept;
      NothingSwept(before[..0], symbol, price);
      PartlySweptStarts(before, symbol, price);
      for i := 0 to |orders|
        invariant |orders| == |before| && BooksFollowFills()
        invariant PartlySwept(before, orders, i, symbol, price)
        invariant fills == was + SweepFills(before[..i], symbol, price)
        invariant prices == old(prices)[symbol := price]
      {
        var o := orders[i];
        PartlySweptStep(before, orders, i, symbol, price);
        SweepPrefix(before, i, symbol, price);
        if Sweepable(o, symbol, price) {
          SweepableHasLimit(o, symbol, price);
          FillOrder(i, o.limitPrice.value);
        }
      }
      assert before[..|before|] == before;
      PartlySweptEnds(before, orders, symbol, price);
    }

    /** Any sequence of calls: no order is ever dropped or rewritten, and a filled or cancelled order never
        changes again. */
    method Perform(calls: seq<Call>)
      requires Valid() && (forall i :: 0 <= i < |calls| ==> Proper(calls[i]))
      requires forall s :: s in prices ==> prices[s] >= 0.0
      modifies this
      ensures Valid() && Settled(old(orders), orders)
    {
      hide BooksFollowFills, Numbered, KeysUnique, NothingLeftMarketable, Settled;
      SettledReflexive(orders);
      for i := 0 to |calls|
        invariant Valid() && Settled(old(orders), orders)
        invariant forall s :: s in prices ==> prices[s] >= 0.0
      {
        ghost var before := orders;
        PerformOne(calls[i]);
        SettledTransitive(old(orders), before, orders);
      }
    }

    method PerformOne(call: Call)
      requires Valid() && Proper(call) && forall s :: s in prices ==> prices[s] >= 0.0
      modifies this
      ensures Valid() && Settled(old(orders), orders)
      ensures forall s :: s in prices ==> prices[s] >= 0.0
    {
      hide BooksFollowFills, Numbered, KeysUnique, NothingLeftMarketable, Settled, Swept, SweepFills;
      match call
      case PlaceMarket(symbol, qty, side, clientId) =>
        var _ := MarketOrder(symbol, qty, side, clientId);
      case PlaceBracket(symbol, qty, side) =>
        var _ := BracketOrder(symbol, qty, side);
      case PlaceNotional(symbol, notional, side) =>
        if symbol in prices && prices[symbol] != 0.0 {
          DivPos(notional, prices[symbol]);
        }
        var _ := MarketOrderNotional(symbol, notional, side);
      case PlaceLimit(symbol, qty, side, limit) =>
        var _ := LimitOrder(symbol, qty, side, limit);
      case PlaceStopLimit(symbol, qty, side, limit, stop) =>
        var _ := StopLimitOrder(symbol, qty, side, limit, stop);
      case Cancel(id) =>
        var _ := CancelOrder(id);
      case Close(symbol, qty) =>
        var _ := ClosePosition(symbol, qty);
      case Quote(symbol, price) =>
        SetPrice(symbol, price);
    }

    /** Reported equity and unrealised profit, summed over the position dictionary. */
    method GetAccount() returns (equity: real, unrealised: real)
      ensures equity == cash + Total(MarketValues(positions, prices))
      ensures unrealised == Total(Unrealised(positions, prices))
    {
      ghost var mv, un := MarketValues(positions, prices), Unrealised(positions, prices);
      var value := 0.0;
      unrealised := 0.0;
      var symbols := positions.Keys;
      assert mv.Keys == positions.Keys && un.Keys == positions.Keys;
      WithinAll(mv);
      WithinAll(un);
      while symbols != {}
        invariant symbols <= positions.Keys
        invariant Total(mv) == value + Total(Within(mv, symbols))
        invariant Total(un) == unrealised + Total(Within(un, symbols))
        decreases |symbols|
      {
        var s :| s in symbols;
        var pos := positions[s];
        var current := if s in prices then prices[s] else pos.avg;
        assert mv[s] == Scale(current, pos.qty) && un[s] == Gain(pos, current, pos.qty);
        WithinTakes(mv, symbols, s);
        WithinTakes(un, symbols, s);
        hide Scale, Gain, MarketValues, Unrealised, Total, Within;
        unrealised := unrealised + Gain(pos, current, pos.qty);
        value := value + Scale(current, pos.qty);
        symbols := symbols - {s};
      }
      equity := cash + value;
    }
  }

  lemma NothingSwept(orders: seq<Order>, symbol: string, price: real)
    requires orders == []
    ensures SweepFills(orders, symbol, price) == []
  {
  }

  lemma SweepableHasLimit(o: Order, symbol: string, price: real)
    requires Sweepable(o, symbol, price)
    ensures o.limitPrice.Some?
  {
  }

  /** The ledger and cash laws, read off a reachable broker. */
  lemma ReachableBroker(b: Broker, s: string)
    requires b.Valid()
    ensures b.cash + Basis(b.positions)
         == b.startingEquity + Realised(b.startingEquity, b.fills) + AddedNotional(b.fills)
    ensures s in b.positions <==> Net(b.fills, s) != 0.0
    ensures s in b.positions ==> Signed(b.positions[s].side, b.positions[s].qty) == Net(b.fills, s)
  {
    CashLaw(b.startingEquity, b.fills);
    SignedLedger(b.startingEquity, b.fills, s);
    hide Basis, Realised, AddedNotional, Replay, Net;
  }

  // ---------- What the names mean ----------

  /** The last price of the order's symbol has reached the limit: at or below it for a buyer, at or above it for
      a seller. */
  predicate Reached(o: Order, price: real) {
    o.limitPrice.Some? && (o.side == Buy ==> price <= o.limitPrice.value) && (o.side == Sell ==> price >= o.limitPrice.value)
  }

  predicate Resting(o: Order) {
    o.kind == Limit && o.status == Pending && o.limitPrice.Some? && o.limitPrice.value != 0.0
  }

  /** A new price fills exactly the resting orders of its symbol whose limit it reaches, at that limit, and leaves
      every other order alone. */
  lemma SweepMeans(orders: seq<Order>, symbol: string, price: real, i: nat)
    requires i < |orders|
    ensures var o, after := orders[i], Swept(orders, symbol, price)[i];
            after == if Resting(o) && o.symbol == symbol && Reached(o, price)
                     then o.(status := Filled, filledPrice := o.limitPrice) else o
  {
  }

  /** One fill for each of them, for its quantity and side at its limit, in the order of the list. */
  lemma SweepFillsMean(orders: seq<Order>, symbol: string, price: real)
    ensures var fs := SweepFills(orders, symbol, price);
            if orders == [] then fs == []
            else
              var o := orders[|orders| - 1];
              fs == SweepFills(orders[..|orders| - 1], symbol, price)
                  + if Resting(o) && o.symbol == symbol && Reached(o, price)
                    then [Fill(o.symbol, o.qty, o.side, o.limitPrice.value)] else []
  {
  }

  /** In every reachable state no resting order's limit is reached by the last price of its symbol, and no two
      orders carry the same nonempty idempotency key. */
  lemma ReachableOrders(b: Broker, i: nat, j: nat)
    requires b.Valid() && i < |b.orders| && j < |b.orders|
    ensures Resting(b.orders[i]) && b.orders[i].symbol in b.prices ==>
              !Reached(b.orders[i], b.prices[b.orders[i].symbol])
    ensures var key := b.orders[i].clientId;
            key.Some? && key.value != "" && b.orders[j].clientId == key ==> i == j
  {
  }

  lemma WithoutSlashesCons(c: char, s: string)
    ensures WithoutSlashes([c] + s) == (if c == '/' then "" else [c]) + WithoutSlashes(s)
  {
    assert ([c] + s)[1..] == s;
  }

  lemma Regroup(c: char, rest: string, b: string)
    ensures [c] + rest + "/" + b == [c] + (rest + "/" + b)
  {
  }

  /** A slash between two texts falls away. */
  lemma {:induction false} SlashesFallAway(a: string, b: string)
    ensures WithoutSlashes(a + "/" + b) == WithoutSlashes(a) + WithoutSlashes(b)
  {
    hide WithoutSlashes;
    if a == "" {
      assert a + "/" + b == ['/'] + b;
      WithoutSlashesCons('/', b);
      EmptyWithoutSlashes();
    } else {
      var c, rest := a[0], a[1..];
      assert a == [c] + rest;
      SlashesFallAway(rest, b);
      Regroup(c, rest, b);
      WithoutSlashesCons(c, rest);
      WithoutSlashesCons(c, rest + "/" + b);
      AppendRegroup(if c == '/' then "" else [c], WithoutSlashes(rest), WithoutSlashes(b));
    }
  }

  lemma EmptyWithoutSlashes()
    ensures WithoutSlashes("") == ""
  {
  }

  lemma AppendRegroup(x: string, y: string, z: string)
    ensures x + (y + z) == x + y + z
  {
  }

  /** Removing slashes keeps everything else in place. */
  lemma {:induction false} NothingElseFallsAway(s: string)
    requires '/' !in s
    ensures WithoutSlashes(s) == s
  {
    if s != "" {
      var rest := s[1..];
      assert forall c :: c in rest ==> c in s;
      NothingElseFallsAway(rest);
      assert s == [s[0]] + rest;
    }
  }

  lemma {:induction false} NoSlashLeft(s: string)
    ensures '/' !in WithoutSlashes(s)
  {
    if s != "" {
      NoSlashLeft(s[1..]);
    }
  }

  /** How a position is valued: at its symbol's last price, at its average entry price if there is none; the
      unrealised profit is the signed quantity times the difference from the entry price. */
  lemma AccountMeans(positions: map<string, Position>, prices: map<string, real>, s: string)
    requires s in positions
    ensures var p := positions[s];
            var mark := if s in prices then prices[s] else p.avg;
            && MarketValues(positions, prices)[s] == Scale(mark, p.qty)
            && Unrealised(positions, prices)[s] == Scale(Signed(p.side, p.qty), mark - p.avg)
  {
    var p := positions[s];
    var mark := if s in prices then prices[s] else p.avg;
    assert Gain(p, mark, p.qty) == Scale(Signed(p.side, p.qty), mark - p.avg);
  }
}
