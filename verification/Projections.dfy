/** The incrementally updated read models (src/core/projections.py). Events reach them one at a time. */
module Projections {
  import opened Common
  import opened Events
  import opened Sequences

  datatype PositionView = PositionView(
    tradeId: string, symbol: string, side: string, entryPrice: real, qty: real, stopLoss: real, takeProfit: real,
    openedAt: string)

  datatype Performance = Performance(
    realizedPnl: real, tradeCount: nat, winCount: nat, lossCount: nat, pnls: seq<real>,
    signalCount: nat, rejectionCount: nat, haltCount: nat)

  datatype Activity = Activity(kind: string, stamp: string, source: string, id: string, details: seq<string>, figure: Option<real>)

  /** The three read models together. */
  datatype Model = Model(positions: map<string, PositionView>, performance: Performance, recent: seq<Activity>)

  const NO_TRADES := Performance(0.0, 0, 0, 0, [], 0, 0, 0)
  const EMPTY := Model(map[], NO_TRADES, [])
  const CAP := 999.99

  function ViewOf(e: Event): PositionView
    requires e.TradeOpened?
  {
    PositionView(e.tradeId, e.symbol, e.side, e.entryPrice, e.qty, e.stopLoss, e.takeProfit, e.stamp)
  }

  function ActivityOf(e: Event): Activity {
    match e
    case TradeOpened(id, source, stamp, tradeId, symbol, side, _, _, _, _) =>
      Activity("TradeOpened", stamp, source, id, [tradeId, symbol, side], None)
    case TradeClosed(id, source, stamp, tradeId, symbol, pnl) =>
      Activity("TradeClosed", stamp, source, id, [tradeId, symbol], Some(pnl))
    case SignalGenerated(id, source, stamp, symbol, signal, confidence) =>
      Activity("SignalGenerated", stamp, source, id, [symbol, signal], Some(confidence))
    case OrderRejected(id, source, stamp, reason) => Activity("OrderRejected", stamp, source, id, [reason], None)
    case RiskHalt(id, source, stamp) => Activity("RiskHalt", stamp, source, id, [], None)
    case Other(id, source, stamp, name) => Activity(name, stamp, source, id, [], None)
  }

  function NextPositions(ps: map<string, PositionView>, e: Event): map<string, PositionView> {
    match e
    case TradeOpened(_, _, _, tradeId, _, _, _, _, _, _) => ps[tradeId := ViewOf(e)]
    case TradeClosed(_, _, _, tradeId, _, _) => ps - {tradeId}
    case _ => ps
  }

  function NextPerformance(p: Performance, e: Event): Performance {
    match e
    case TradeClosed(_, _, _, _, _, pnl) =>
      p.(tradeCount := p.tradeCount + 1, realizedPnl := p.realizedPnl + pnl, pnls := p.pnls + [pnl],
         winCount := if pnl > 0.0 then p.winCount + 1 else p.winCount,
         lossCount := if pnl < 0.0 then p.lossCount + 1 else p.lossCount)
    case SignalGenerated(_, _, _, _, _, _) => p.(signalCount := p.signalCount + 1)
    case OrderRejected(_, _, _, _) => p.(rejectionCount := p.rejectionCount + 1)
    case RiskHalt(_, _, _) => p.(haltCount := p.haltCount + 1)
    case _ => p
  }

  function NextRecent(recent: seq<Activity>, e: Event, maxRecent: int): seq<Activity> {
    var grown := recent + [ActivityOf(e)];
    if |grown| > maxRecent then Tail(grown, maxRecent) else grown
  }

  function Next(m: Model, e: Event, maxRecent: int): Model {
    Model(NextPositions(m.positions, e), NextPerformance(m.performance, e), NextRecent(m.recent, e, maxRecent))
  }

  function Fold(m: Model, es: seq<Event>, maxRecent: int): Model {
    if es == [] then m else Next(Fold(m, es[..|es| - 1], maxRecent), es[|es| - 1], maxRecent)
  }

  class PositionProjection {
    var positions: map<string, PositionView>

    constructor ()
      ensures positions == map[]
    {
      positions := map[];
    }

    method HandleEvent(e: Event)
      modifies this
      ensures positions == NextPositions(old(positions), e)
    {
      if e.TradeOpened? {
        positions := positions[e.tradeId := ViewOf(e)];
      } else if e.TradeClosed? {
        positions := positions - {e.tradeId};
      }
    }
  }

  class PerformanceProjection {
    var realizedPnl: real
    var tradeCount: nat
    var winCount: nat
    var lossCount: nat
    var pnls: seq<real>
    var signalCount: nat
    var rejectionCount: nat
    var haltCount: nat

    ghost function View(): Performance
      reads this
    {
      Performance(realizedPnl, tradeCount, winCount, lossCount, pnls, signalCount, rejectionCount, haltCount)
    }

    constructor ()
      ensures View() == NO_TRADES
    {
      realizedPnl, tradeCount, winCount, lossCount, pnls := 0.0, 0, 0, 0, [];
      signalCount, rejectionCount, haltCount := 0, 0, 0;
    }

    method HandleEvent(e: Event)
      modifies this
      ensures View() == NextPerformance(old(View()), e)
    {
      if e.TradeClosed? {
        tradeCount := tradeCount + 1;
        realizedPnl := realizedPnl + e.pnl;
        pnls := pnls + [e.pnl];
        if e.pnl > 0.0 {
          winCount := winCount + 1;
        } else if e.pnl < 0.0 {
          lossCount := lossCount + 1;
        }
      } else if e.SignalGenerated? {
        signalCount := signalCount + 1;
      } else if e.OrderRejected? {
        rejectionCount := rejectionCount + 1;
      } else if e.RiskHalt? {
        haltCount := haltCount + 1;
      }
    }
  }

  class ActivityProjection {
    const maxRecent: int
    var recent: seq<Activity>

    constructor (maxRecent: int)
      ensures this.maxRecent == maxRecent && recent == []
    {
      this.maxRecent, recent := maxRecent, [];
    }

    method HandleEvent(e: Event)
      modifies this
      ensures recent == NextRecent(old(recent), e, maxRecent)
    {
      recent := recent + [ActivityOf(e)];
      if |recent| > maxRecent {
        recent := Tail(recent, maxRecent);
      }
    }
  }

  class ReadModelManager {
    const positions: PositionProjection
    const performance: PerformanceProjection
    const activity: ActivityProjection

    ghost function View(): Model
      reads positions, performance, activity
    {
      Model(positions.positions, performance.View(), activity.recent)
    }

    constructor (maxRecent: int)
      ensures View() == EMPTY && activity.maxRecent == maxRecent
      ensures fresh(positions) && fresh(performance) && fresh(activity)
    {
      positions := new PositionProjection();
      performance := new PerformanceProjection();
      activity := new ActivityProjection(maxRecent);
    }

    method Dispatch(e: Event)
      modifies positions, performance, activity
      ensures View() == Next(old(View()), e, activity.maxRecent)
    {
      positions.HandleEvent(e);
      performance.HandleEvent(e);
      activity.HandleEvent(e);
    }

    /** The bus delivering a run of events. */
    method DispatchAll(es: seq<Event>)
      modifies positions, performance, activity
      ensures View() == Fold(old(View()), es, activity.maxRecent)
    {
      for i := 0 to |es|
        invariant View() == Fold(old(View()), es[..i], activity.maxRecent)
      {
        assert es[..i + 1][..i] == es[..i];
        hide Next;
        Dispatch(es[i]);
      }
      assert es[..|es|] == es;
    }
  }

  // ---------- Positions ----------

  /** The last open or close event about a trade. */
  function LastMove(es: seq<Event>, tradeId: string): Option<Event> {
    if es == [] then None
    else
      var e := es[|es| - 1];
      if (e.TradeOpened? || e.TradeClosed?) && e.tradeId == tradeId then Some(e)
      else LastMove(es[..|es| - 1], tradeId)
  }

  /** A trade is in the position view exactly if the last event about it is its opening, and then with that
      event's data. */
  lemma {:induction false} PositionsAreOpenTrades(es: seq<Event>, maxRecent: int, tradeId: string)
    ensures var ps, last := Fold(EMPTY, es, maxRecent).positions, LastMove(es, tradeId);
            && (tradeId in ps <==> last.Some? && last.value.TradeOpened?)
            && (tradeId in ps ==>
                 var v, e := ps[tradeId], last.value;
                 && v == ViewOf(e) && v.tradeId == tradeId && v.symbol == e.symbol && v.side == e.side
                 && v.entryPrice == e.entryPrice && v.qty == e.qty && v.stopLoss == e.stopLoss
                 && v.takeProfit == e.takeProfit && v.openedAt == e.stamp)
  {
    if es != [] {
      PositionsAreOpenTrades(es[..|es| - 1], maxRecent, tradeId);
    }
  }

  // ---------- Performance ----------

  /** Results of the closed trades, in order. */
  function Pnls(es: seq<Event>): seq<real> {
    if es == [] then []
    else
      var front, e := Pnls(es[..|es| - 1]), es[|es| - 1];
      if e.TradeClosed? then front + [e.pnl] else front
  }

  predicate IsSignal(e: Event) {
    e.SignalGenerated?
  }

  predicate IsRejection(e: Event) {
    e.OrderRejected?
  }

  predicate IsHalt(e: Event) {
    e.RiskHalt?
  }

  /** The incrementally kept counters are what one gets by counting and adding up the whole event list. */
  lemma {:induction false} CountersAreTotals(es: seq<Event>, maxRecent: int)
    ensures var p, pnls := Fold(EMPTY, es, maxRecent).performance, Pnls(es);
            && p.pnls == pnls && p.tradeCount == |pnls| && p.realizedPnl == Sum(pnls)
            && p.winCount == |Wins(pnls)| && p.lossCount == |Losses(pnls)|
            && p.signalCount == |Where(es, IsSignal)|
            && p.rejectionCount == |Where(es, IsRejection)|
            && p.haltCount == |Where(es, IsHalt)|
  {
    hide Where, Sum, Fold;
    FoldNothing(EMPTY, maxRecent);
    if es == [] {
      WhereNothing(Gain);
      WhereNothing(Loss);
      WhereNothing(IsSignal);
      WhereNothing(IsRejection);
      WhereNothing(IsHalt);
      SumNothing();
    } else {
      var front, e := es[..|es| - 1], es[|es| - 1];
      CountersAreTotals(front, maxRecent);
      FoldSnoc(EMPTY, front, e, maxRecent);
      assert es == front + [e];
      WhereSnoc(front, e, IsSignal);
      WhereSnoc(front, e, IsRejection);
      WhereSnoc(front, e, IsHalt);
      if e.TradeClosed? {
        SumSnoc(Pnls(front), e.pnl);
        WhereSnoc(Pnls(front), e.pnl, Gain);
        WhereSnoc(Pnls(front), e.pnl, Loss);
      }
    }
  }

  lemma FoldNothing(m: Model, maxRecent: int)
    ensures Fold(m, [], maxRecent) == m
  {
  }

  lemma FoldSnoc(m: Model, es: seq<Event>, e: Event, maxRecent: int)
    ensures Fold(m, es + [e], maxRecent) == Next(Fold(m, es, maxRecent), e, maxRecent)
  {
    assert (es + [e])[..|es|] == es;
  }

  function GrossProfit(pnls: seq<real>): real {
    Sum(Wins(pnls))
  }

  function GrossLoss(pnls: seq<real>): real {
    Abs(Sum(Losses(pnls)))
  }

  function ProfitFactor(pnls: seq<real>): real {
    if GrossLoss(pnls) == 0.0 then (if GrossProfit(pnls) > 0.0 then CAP else 0.0)
    else Min(GrossProfit(pnls) / GrossLoss(pnls), CAP)
  }

  /** Gross profit less gross loss is the realised result. */
  lemma GrossesNetToRealized(es: seq<Event>, maxRecent: int)
    ensures var p := Fold(EMPTY, es, maxRecent).performance;
            GrossProfit(p.pnls) - GrossLoss(p.pnls) == p.realizedPnl
  {
    CountersAreTotals(es, maxRecent);
    WinsAndLosses(Pnls(es));
  }

  /** The profit factor lies in [0, 999.99] and exceeds one exactly if the realised result is positive. */
  lemma ProfitFactorAboveOneMeansProfit(es: seq<Event>, maxRecent: int)
    ensures var p := Fold(EMPTY, es, maxRecent).performance;
            0.0 <= ProfitFactor(p.pnls) <= CAP && (ProfitFactor(p.pnls) > 1.0 <==> p.realizedPnl > 0.0)
  {
    var p := Fold(EMPTY, es, maxRecent).performance;
    CountersAreTotals(es, maxRecent);
    WinsAndLosses(p.pnls);
    GrossesNetToRealized(es, maxRecent);
    hide Sum, Where, Fold, GrossProfit;
    var gain, loss := GrossProfit(p.pnls), GrossLoss(p.pnls);
    if loss != 0.0 {
      DivNonneg(gain, loss);
      QuotientAboveOne(gain, loss);
    }
  }

  /** The profit factor: gross profit over gross loss, cut at 999.99; the cut value too if there are gains and no
      losses, and zero if there are neither. */
  lemma ProfitFactorMeans(pnls: seq<real>)
    ensures var gain, loss, factor := Sum(Wins(pnls)), -Sum(Losses(pnls)), ProfitFactor(pnls);
            && (loss > 0.0 && gain <= 999.99 * loss ==> factor * loss == gain)
            && (loss > 0.0 && gain > 999.99 * loss ==> factor == 999.99)
            && (loss == 0.0 ==> factor == if gain > 0.0 then 999.99 else 0.0)
  {
    WinsAndLosses(pnls);
    hide Sum, Wins, Losses, Min;
    var gain, loss := Sum(Wins(pnls)), -Sum(Losses(pnls));
    assert GrossProfit(pnls) == gain && GrossLoss(pnls) == loss;
    if loss > 0.0 {
      CutQuotient(gain, loss);
    }
  }

  lemma CutQuotient(gain: real, loss: real)
    requires loss > 0.0
    ensures gain <= 999.99 * loss ==> Min(gain / loss, CAP) * loss == gain
    ensures gain > 999.99 * loss ==> Min(gain / loss, CAP) == 999.99
  {
    var q := gain / loss;
    DivMul(gain, loss);
    if q > CAP {
      MulPos(q - CAP, loss);
    } else if q < CAP {
      MulPos(CAP - q, loss);
    }
  }

  lemma QuotientAboveOne(a: real, b: real)
    requires b > 0.0
    ensures a / b > 1.0 <==> a - b > 0.0
  {
    DivMul(a, b);
    if a / b > 1.0 {
      MulPos(a / b - 1.0, b);
    } else {
      MulNonneg(1.0 - a / b, b);
    }
  }

  // ---------- Activity ----------

  function Activities(es: seq<Event>): seq<Activity> {
    if es == [] then [] else Activities(es[..|es| - 1]) + [ActivityOf(es[|es| - 1])]
  }

  lemma TailGrows<T>(xs: seq<T>, x: T, k: int)
    requires k >= 0
    ensures var grown := Tail(xs, k) + [x]; (if |grown| > k then Tail(grown, k) else grown) == Tail(xs + [x], k)
  {
    if k > 0 && |xs| >= k {
      assert Tail(xs, k) == xs[|xs| - k..];
      assert (xs[|xs| - k..] + [x])[1..] == (xs + [x])[|xs| - k + 1..];
    }
  }

  /** What the activity view shows, for every limit: the last maxRecent events for a positive limit,
      all events for a limit of zero, nothing for a negative one. */
  lemma {:induction false} RecentActivity(es: seq<Event>, maxRecent: int)
    ensures Fold(EMPTY, es, maxRecent).recent == if maxRecent >= 0 then Tail(Activities(es), maxRecent) else []
  {
    hide ActivityOf, NextPositions, NextPerformance, Activities, Fold;
    if es == [] {
      NoActivities(maxRecent);
    } else {
      var front, e := es[..|es| - 1], es[|es| - 1];
      RecentActivity(front, maxRecent);
      assert es == front + [e];
      FoldSnoc(EMPTY, front, e, maxRecent);
      ActivitiesSnoc(front, e);
      if maxRecent >= 0 {
        TailGrows(Activities(front), ActivityOf(e), maxRecent);
      }
    }
  }

  lemma NoActivities(maxRecent: int)
    ensures Fold(EMPTY, [], maxRecent).recent == [] && Activities([]) == []
  {
  }

  lemma ActivitiesSnoc(es: seq<Event>, e: Event)
    ensures Activities(es + [e]) == Activities(es) + [ActivityOf(e)]
  {
    assert (es + [e])[..|es|] == es;
  }

  /** Each event's entry names its class, time, source and id, and what its class is about. */
  lemma ActivityNames(e: Event)
    ensures var a := ActivityOf(e);
            && a.id == e.id && a.stamp == e.stamp && a.source == e.source
            && (e.TradeOpened? ==> a.kind == "TradeOpened" && a.details == [e.tradeId, e.symbol, e.side] && a.figure == None)
            && (e.TradeClosed? ==> a.kind == "TradeClosed" && a.details == [e.tradeId, e.symbol] && a.figure == Some(e.pnl))
            && (e.SignalGenerated? ==>
                 a.kind == "SignalGenerated" && a.details == [e.symbol, e.signal] && a.figure == Some(e.confidence))
            && (e.OrderRejected? ==> a.kind == "OrderRejected" && a.details == [e.reason] && a.figure == None)
            && (e.RiskHalt? ==> a.kind == "RiskHalt" && a.details == [] && a.figure == None)
  {
  }

  lemma {:induction false} ActivitiesInOrder(es: seq<Event>, i: nat)
    requires i < |es|
    ensures |Activities(es)| == |es| && Activities(es)[i] == ActivityOf(es[i])
  {
    hide ActivityOf;
    ActivityPerEvent(es[..|es| - 1]);
    if i < |es| - 1 {
      ActivitiesInOrder(es[..|es| - 1], i);
    }
  }

  lemma {:induction false} ActivityPerEvent(es: seq<Event>)
    ensures |Activities(es)| == |es|
  {
    if es != [] {
      ActivityPerEvent(es[..|es| - 1]);
    }
  }

  /** The view is bounded by its limit on every run, exactly if the limit is positive. */
  lemma RecentBoundedExactlyWhenPositive(maxRecent: int)
    ensures (forall es: seq<Event> :: |Fold(EMPTY, es, maxRecent).recent| <= maxRecent) <==> maxRecent >= 1
  {
    forall es: seq<Event> | maxRecent >= 1 ensures |Fold(EMPTY, es, maxRecent).recent| <= maxRecent {
      RecentActivity(es, maxRecent);
    }
    if maxRecent < 1 {
      var one := [RiskHalt("", "", "")];
      RecentActivity(one, maxRecent);
      ActivityPerEvent(one);
      assert |Fold(EMPTY, one, maxRecent).recent| > maxRecent;
    }
  }
}
