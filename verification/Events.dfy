/** The events the read models look at (src/core/events.py). All other event classes are `Other`. */
module Events {

  datatype Event =
    | TradeOpened(
        id: string, source: string, stamp: string, tradeId: string, symbol: string, side: string,
        entryPrice: real, qty: real, stopLoss: real, takeProfit: real)
    | TradeClosed(id: string, source: string, stamp: string, tradeId: string, symbol: string, pnl: real)
    | SignalGenerated(id: string, source: string, stamp: string, symbol: string, signal: string, confidence: real)
    | OrderRejected(id: string, source: string, stamp: string, reason: string)
    | RiskHalt(id: string, source: string, stamp: string)
    | Other(id: string, source: string, stamp: string, name: string)
}
