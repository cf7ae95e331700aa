# Verified models of the trading platform's core

Dafny models of the parts of the platform whose correctness is hard to see from the code: the backtest
simulators, the broker and portfolio ledgers, the timed and transactional protocols, the configuration store,
the event-sourced read models and the Monte Carlo arithmetic. `dafny verify dfyconfig.toml` checks everything.

Each loop or state-changing method of the platform is a Dafny method over arrays or a class with the same
fields, proved to compute a specification function (a fold of a one-step transition). The theorems are lemmas
about these functions, for every input and every run.

| files | subject |
|---|---|
| `Indicators`, `Crossover`, `CrossoverLaws`, `CrossoverGrowth`, `CrossoverSignals` | the EMA-crossover simulator and its two passes |
| `WalkForward`, `EngineDivergence` | the second simulator, and exactly when the two agree |
| `RateLimiter` | the token bucket |
| `CircuitBreaker`, `CircuitBreakerLaws` | the operational circuit breaker |
| `PaperBook`, `PaperBroker` | fills, positions, cash; orders and idempotency |
| `Portfolio`, `PortfolioLaws`, `PortfolioTrades`, `MapTotals` | the multi-symbol backtester |
| `Backtester`, `BacktesterLaws`, `BacktesterTrades`, `BacktestMetrics` | the single-symbol backtester and its metrics |
| `Environment` | the paper/live switch with rollback |
| `ConfigRepository`, `ConfigService`, `ConfigServiceLaws`, `ConfigSnapshots` | configuration table, audit log, cache, snapshots |
| `Events`, `Projections`, `EventStore` | read models and the durable log |
| `MonteCarlo`, `Sequences`, `Common` | ruin, drawdown, order, Wilson interval; shared vocabulary |

## What the proofs say about the code

Properties that hold as one would hope:

- The crossover simulator never looks ahead, its two passes stay in lockstep, and its books balance exactly:
  the only gap between recorded profits and cash is the entry fee. It compounds: every round trip multiplies flat cash by
  1 - r + r (1 - fees)^2 exit / entry, with r the risk fraction capped at one.
- The trades of all three backtesters can be told from bars, signals and parameters alone: when each one opens,
  how large it is, why it closes and at which price.
- The limiter's bucket refills: after an idle window `max_requests` calls go through at once.
- The breaker is HALTED exactly if the last manual call was a halt.
- Position and cash limits of the portfolio backtester hold on every run, and the exposure limit holds after
  every entry for any `max_exposure`, not only up to one.
- An environment switch is all or nothing for broker, mode and settings under every pattern of failures.
- The clamps of the backtester's exposure and of the Wilson interval never change the value.

Places where the code does something else than its documentation or a first reading suggests. Each is proved
with its exact condition or a concrete run:

- **Rate limiter.** `_last_refill` is stamped before the sleep, so time slept is credited again. Over any time T the
  number of grants is at most max + 2 (max / window) T, this is attained, and the first window can see three times
  `max_requests`. A limiter keeps max + (max / window) T on every run exactly if it stamps after the sleep.
- **Paper broker.** A fill that adds to a position on its own side is free: cash is not debited. Money is conserved exactly on
  runs without such fills. Reported equity values short positions at their positive market value, which misstates it
  by twice their unrealised profit, so it is right exactly when these profits total zero.
- **Crossover engines.** With stops on and a `high` or `low` column missing, one engine stops out and the other does not.
- **Circuit breaker.** A failure while probing does not reopen the breaker; only a failure in CLOSED trips it. `resume` clears
  nothing, so earlier failures still count; `force_open` restarts the timeout from any state but OPEN, where it does nothing.
- **Environment switch.** Positions closed while draining stay closed if the switch then fails. The old broker's positions are
  untouched exactly if the switch does not get to draining or every single close fails.
- **Portfolio fees.** The recorded entry fee is taken on the invested amount, the paid one on the allocation;
  they differ by fee squared times the allocation. Closing trades at the end charge exit fees that the equity curve does not;
  besides, the last equity point leaves out open positions without a quote on the last bar, which the closing trades count at their
  last known price. The exit fees are the whole gap exactly if that value is zero.
- **Configuration audit.** The log determines the table only while no stored value equals the delete marker.
- **Configuration cache.** A value that does not parse is stored before the error is raised. After a bulk write that raised, the cache stays
  behind the table on the keys it wrote, unless they were cached at their new values already, until they are set again or a load succeeds. A set announces the version it stored exactly for the
  first write of a key after a load. Bulk writes ask neither the lock nor rules nor editability. Json aside, a value stored
  under a type that is not its own does not read back as itself.
- **Snapshots.** A dry run foretells the restore, and a second restore is idle, only under conditions on repeated
  keys; exports meet them. A row with the right value is skipped, so it keeps a wrong type; updates keep the row's own flags.
- **Read models.** Redelivered events count twice live and once in the store. Rebuilt counters are the live ones exactly if no counted event was
  turned away, rebuilt positions exactly if no turned-away record was the last word on a trade with something else stored. An activity
  view with limit zero is never trimmed.
- **Monte Carlo.** Without noise a simulation can only end in total loss or in one fixed return, so for the final return the order
  decides ruin and nothing else. Every order survives exactly if the cash exceeds all losses together.

## Idealisations

- Prices, cash and time are `real`; rounding and NaN are outside the models, except that the portfolio model keeps
  missing prices. Closes are positive in the crossover models; spans are at least one, as pandas demands.
- Strings with a fixed set of values (sides, order kinds, states, modes) are datatypes, so spelling variants of
  `side` are not modelled. Order ids are positions in the order list; order quantities are positive.
- Clock readings, the outcome of external calls, the strategy's signals, the shuffles and noise factors and the content hash are parameters. Locks serialise
  calls, so a run is a sequence of calls. Publishing on the event buses does not raise, since every bus isolates its subscribers.
- Some records carry extra bookkeeping the laws need: entry and exit bars and the invested cash of a crossover trade, the
  allocation of a portfolio position, the list of fills of a broker.
- The Wilson interval takes its square root as a number whose square is given.

## Model

| member | source | states |
|---|---|---|
| `Indicators.ComputeEma` | backtesting/portfolio_backtest.py:54-61 | the array loop fills every index with the value of the smoothing recursion |
| `Indicators.EmaCausal` | backtesting/vbt_adapter.py:105-107 | the average at a bar is the same for any two price columns that agree up to that bar |
| `Indicators.EmaIsWeightedSum` | backtesting/vbt_adapter.py:105-107 | the recursion equals the exponentially weighted sum of all prices seen, the first one keeping the undecayed weight |
| `Indicators.EmaWithinRange` | backtesting/vbt_adapter.py:105-107 | the average never leaves the range of the prices it has seen |
| `Indicators.TrueRanges` | backtesting/vbt_adapter.py:57-60 | every entry is the true range of its bar |
| `Indicators.ComputeAtr` | backtesting/vbt_adapter.py:54-66 | the array holds nothing before the period, the mean of the first true ranges at its end, and the smoothed value from there on |
| `Indicators.AtrNonneg` | backtesting/vbt_adapter.py:61-65 | a value exists exactly from the period on, and is never negative if the first bar has its low not above its high |
| `Indicators.AtrCausal` | backtesting/vbt_adapter.py:54-66 | the average true range at a bar depends on no later bar |
| `Indicators.TrueRangeIsSpan` | backtesting/vbt_adapter.py:57-60 | true range is the width of the bar stretched to the previous close, for bars whose low is not above their high |
| `Indicators.AtrWithinRange` | backtesting/vbt_adapter.py:61-65 | the average true range never leaves the range of the true ranges it averages |
| `Crossover.Signals` | backtesting/vbt_adapter.py:121-126 | the two arrays hold exactly the upward and downward crosses of the averages |
| `Crossover.StopLevels` | backtesting/vbt_adapter.py:109-119 | for every bar, the stop a position opened there would get; zero when stops are off or no average true range exists yet |
| `Crossover.TradePass` | backtesting/vbt_adapter.py:128-184 | the first loop ends in the state that the one-bar transition function reaches over all bars: cash, position, stop, last exit and trade list |
| `Crossover.EquityPass` | backtesting/vbt_adapter.py:202-234 | every point of the equity array is the value of the independently folded second pass after that bar |
| `Crossover.Backtest` | backtesting/vbt_adapter.py:91-250 | trade list, final value and equity curve are those of the folds, including the empty result for frames shorter than the slow span plus two |
| `CrossoverLaws.RunCausal` | backtesting/vbt_adapter.py:105-184 | two frames that agree on their first k bars put the simulator in the same state before bar k |
| `CrossoverLaws.NoLookAhead` | backtesting/vbt_adapter.py:94-184 | for every k of at least slow + 2, a backtest of the first k bars reports exactly the trades of the full backtest that exited before bar k, in order |
| `CrossoverLaws.Lockstep` | backtesting/vbt_adapter.py:129-234 | before every bar the equity pass holds the same cash, position, stop and last exit bar as the trade pass |
| `CrossoverLaws.BooksBalance` | backtesting/vbt_adapter.py:136-184 | on every run cash and position are never negative, an open position is worth its investment less the entry fee, cash plus committed money equals initial cash plus recorded profits less the fee on all invested amounts, and cash is positive whenever flat |
| `CrossoverLaws.FlatCash` | backtesting/vbt_adapter.py:136-184 | whenever flat, cash is initial cash plus the sum of trade profits less the fee rate times the sum of invested amounts |
| `CrossoverLaws.FinalValueVersusEquity` | backtesting/vbt_adapter.py:186-234 | the last equity point equals the final value when flat and exceeds it by exactly the exit fee on the position held otherwise |
| `CrossoverLaws.TradeShape` | backtesting/vbt_adapter.py:136-184 | before every bar: closed trades are legal and spaced, and an open position was entered on an upward cross, carries that bar's stop and has met neither stop nor downward cross since |
| `CrossoverLaws.TradesAreLegalAndSpaced` | backtesting/vbt_adapter.py:136-184 | every reported trade enters at the close of an upward cross and leaves on the first later bar that touches its stop or crosses down; trades are disjoint and at least the cooldown apart |
| `CrossoverLaws.EveryEntrySignalAccounted` | backtesting/vbt_adapter.py:156-170 | no upward cross is dropped: it falls into a position held then, into a closed trade, or into the cooldown after one |
| `CrossoverLaws.StopsFillBelowEntry` | backtesting/vbt_adapter.py:137-154 | a stop exit fills at a positive price not above the entry, so its return is not positive, provided the first bar has its low not above its high |
| `CrossoverGrowth.RunCompounds` | backtesting/vbt_adapter.py:136-184 | before every bar: flat cash is initial cash times the product over closed trades of 1 - r + r (1 - fees)^2 exit / entry, with r the risk fraction capped at one; every trade, and a position still held, committed r times the flat cash before it and bought what that pays for after the entry fee |
| `CrossoverGrowth.FlatCashCompounds` | backtesting/vbt_adapter.py:136-184 | whenever flat, cash is that product, read off the trade records and the configuration alone |
| `CrossoverGrowth.CashWhileInvested` | backtesting/vbt_adapter.py:160-168 | while a position is held the cash left is the flat cash less its stake, so none with a risk fraction of one or more |
| `CrossoverGrowth.TradesAreStaked` | backtesting/vbt_adapter.py:136-184 | what every reported trade committed, and its profit: what the stake fetches at the exit after both fees, less what it bought at the entry |
| `CrossoverGrowth.FinalValueCompounds` | backtesting/vbt_adapter.py:186-190 | the final value is the flat cash after all trades, with a position still held counted as sold at the last close |
| `CrossoverGrowth.EquityMarksTradePass` | backtesting/vbt_adapter.py:202-234 | every equity point is the cash of the trade pass after that bar plus the position it then holds at the close |
| `CrossoverSignals.SignalsAreCrossings` | backtesting/vbt_adapter.py:105-126 | told by the exponentially weighted sums: an entry is the first bar on which the fast sum leads again, an exit the first on which it does not, and the first bar is neither |
| `CrossoverSignals.StopLevelMeans` | backtesting/vbt_adapter.py:109-119 | a position gets a stop exactly if stops are on and 14 bars are there; it lies the multiple of the average true range below the close |
| `CrossoverSignals.ReturnsArePriceChanges` | backtesting/vbt_adapter.py:136-184 | every reported return is the relative price change of its trade |
| `WalkForward.UnitAtr` | backtesting/walk_forward.py:266-274 | the second implementation of the average true range computes the same values as the first |
| `WalkForward.UnitStops` | backtesting/walk_forward.py:261-274 | stop levels of this engine, which need both range columns |
| `WalkForward.UnitPass` | backtesting/walk_forward.py:283-329 | the loop over a boolean position ends with the trade list of its one-bar transition function |
| `WalkForward.EmaCrossoverStrategy` | backtesting/walk_forward.py:242-329 | the strategy returns that trade list, and nothing for a fast span not below the slow one or too short a frame |
| `WalkForward.EnginesInStep` | backtesting/walk_forward.py:283-327 | along the joint run the boolean position is true exactly when the cash engine holds a positive quantity, with the same entry, stop, last exit and matching trades |
| `WalkForward.CrossEngineAgreement` | backtesting/walk_forward.py:231-329 | both engines report the same round trips with the same prices; the returns of this one are lower by two fees, and its profit is its return on the entry price |
| `EngineDivergence.EnginesDiverge` | backtesting/walk_forward.py:261-274 | for every configuration with stops on and a range column missing, a frame on which the engines' trades differ |
| `EngineDivergence.AgreementExactlyWhenComparable` | backtesting/walk_forward.py:261-315 | for frames with given columns, the engines agree on all of them if and only if stops are off or both range columns are present |
| `RateLimiter.Limiter.constructor` | src/broker/alpaca_client.py:55-60 | a new bucket is full and stamped with the clock |
| `RateLimiter.Limiter.Acquire` | src/broker/alpaca_client.py:62-75 | one call refills up to the cap, stamps before sleeping, sleeps for the missing part of a token or takes one, and keeps tokens within [0, max] |
| `RateLimiter.WaitBounds` | src/broker/alpaca_client.py:70-72 | a call sleeps between zero and one token's worth of the window, exactly the time the missing part of a token takes to refill |
| `RateLimiter.TokensInRange` | src/broker/alpaca_client.py:62-75 | tokens stay within [0, max] on every run the clock allows, and the stamp never runs ahead of the last return |
| `RateLimiter.SleptFits` | src/broker/alpaca_client.py:62-75 | sleeps happen under the lock, so together they fit between the first start and the last return |
| `RateLimiter.Ledger` | src/broker/alpaca_client.py:62-75 | grants plus remaining tokens never exceed the bucket plus refill up to the last stamp plus, as written, the refill worth of all time slept; with the stamp after the sleep the last part disappears |
| `RateLimiter.GrantBound` | src/broker/alpaca_client.py:62-75 | over every run, and every stretch of one, grants are at most max plus twice the rate times the elapsed time; once the rate if the stamp were taken after the sleep |
| `RateLimiter.GrantsByDeadline` | src/broker/alpaca_client.py:62-75 | the same bound counted from creation to any deadline |
| `RateLimiter.BoundAttained` | src/broker/alpaca_client.py:62-75 | the doubled bound is tight: for every number of rounds some run makes exactly that many grants |
| `RateLimiter.FirstWindowCanTriple` | src/broker/alpaca_client.py:52-75 | some run makes three times max_requests grants within the first window |
| `RateLimiter.GrantBoundWithoutSleep` | src/broker/alpaca_client.py:62-75 | a run in which no call sleeps keeps the advertised rate |
| `RateLimiter.IdleBucketRefills` | src/broker/alpaca_client.py:62-75 | after an idle gap, n calls at one moment go through without sleeping for every n within the cap and within the old tokens plus max / window times the gap; what is left is the smaller of these two less n |
| `RateLimiter.IdleWindowRefillsAll` | src/broker/alpaca_client.py:62-75 | after an idle window max_requests calls go through at once, whatever the bucket held before |
| `RateLimiter.LedgerExactlyWhenUncapped` | src/broker/alpaca_client.py:62-75 | when calls return as soon as their sleep is over, grants plus remaining tokens equal the initial tokens plus the rate times all time credited, sleeps counted twice as written, if and only if the cap never bound, which is told from times and counts |
| `RateLimiter.AdvertisedRateExactlyWhenStampedLate` | src/broker/alpaca_client.py:62-75 | a limiter keeps grants within max plus the advertised rate on every run if and only if it takes its stamp after the sleep |
| `CircuitBreaker.OperationalCircuitBreaker.constructor` | src/core/operational_circuit_breaker.py:63-95 | a new breaker is CLOSED with empty queues and history |
| `CircuitBreaker.OperationalCircuitBreaker.GetState` | src/core/operational_circuit_breaker.py:97-102 | reading the state first applies the recovery timeout |
| `CircuitBreaker.OperationalCircuitBreaker.IsTradingAllowed` | src/core/operational_circuit_breaker.py:104-109 | trading is refused exactly when OPEN or HALTED after applying the timeout |
| `CircuitBreaker.OperationalCircuitBreaker.RecordFailure` | src/core/operational_circuit_breaker.py:111-152 | the whole new state of the breaker is the transition for this failure |
| `CircuitBreaker.OperationalCircuitBreaker.RecordSuccess` | src/core/operational_circuit_breaker.py:154-170 | the whole new state is the transition for a success |
| `CircuitBreaker.OperationalCircuitBreaker.ForceOpen` | src/core/operational_circuit_breaker.py:172-176 | trips unless already OPEN |
| `CircuitBreaker.OperationalCircuitBreaker.ForceClose` | src/core/operational_circuit_breaker.py:178-181 | closes from any state |
| `CircuitBreaker.OperationalCircuitBreaker.Halt` | src/core/operational_circuit_breaker.py:183-199 | halts and touches nothing else |
| `CircuitBreaker.OperationalCircuitBreaker.Resume` | src/core/operational_circuit_breaker.py:201-213 | returns from HALTED to CLOSED, otherwise nothing |
| `CircuitBreaker.OperationalCircuitBreaker.GetStatus` | src/core/operational_circuit_breaker.py:215-233 | applies timeout and expiry and reports state and counts |
| `CircuitBreakerLaws.HistoryShowsLastFailures` | src/core/operational_circuit_breaker.py:235-247 | for a positive limit the history shows the last `limit` failures of the whole run if and only if the kept history is that long or complete; for limits up to 500 it always does |
| `CircuitBreaker.PopOld` | src/core/operational_circuit_breaker.py:332-337 | the popping loop removes the longest prefix of records older than the cutoff |
| `CircuitBreakerLaws.QueuesFollowRun` | src/core/operational_circuit_breaker.py:111-181 | along every run with a monotone clock the queues are, per domain, the failures since the last clear not older than the last expiry's cutoff |
| `CircuitBreakerLaws.QueuesAreTheWindow` | src/core/operational_circuit_breaker.py:332-337 | after an expiry the queues hold exactly the failures since the last clear that lie inside the window |
| `CircuitBreakerLaws.TripsExactlyWhen` | src/core/operational_circuit_breaker.py:137-152 | recording a failure trips the breaker exactly when it is CLOSED and the failures in the window, this one included, reach the threshold; in every other state it leaves the state alone, probing included |
| `CircuitBreakerLaws.StaysDown` | src/core/operational_circuit_breaker.py:97-213 | before the timeout has passed, a tripped breaker is OPEN or was halted, on every run without force_close or resume after a halt |
| `CircuitBreakerLaws.TradingStaysOff` | src/core/operational_circuit_breaker.py:104-213 | after a trip trading is refused for the whole recovery timeout unless force_close or halt-then-resume intervenes |
| `CircuitBreakerLaws.RecoveryIsTimed` | src/core/operational_circuit_breaker.py:314-330 | left alone, trading is allowed again exactly from the end of the timeout on, in HALF_OPEN |
| `CircuitBreakerLaws.ProbesClose` | src/core/operational_circuit_breaker.py:154-170 | the breaker closes on exactly the probe threshold's success, and clears its queues then |
| `CircuitBreakerLaws.HaltHolds` | src/core/operational_circuit_breaker.py:183-213 | HALTED survives every run without resume, force_open and force_close |
| `CircuitBreakerLaws.HaltLeftOnlyBy` | src/core/operational_circuit_breaker.py:172-213 | a call leaves HALTED if and only if it is resume, force_open or force_close |
| `CircuitBreakerLaws.HaltedExactlyWhen` | src/core/operational_circuit_breaker.py:172-213 | after any run of a new breaker the state is HALTED if and only if the last call among halt, resume, force_open and force_close was a halt; trading is then refused whenever asked |
| `CircuitBreakerLaws.ManualCalls` | src/core/operational_circuit_breaker.py:172-213 | what the four manual calls do in every state, field by field: halt and resume touch the state alone |
| `CircuitBreakerLaws.ForceOpenStartsTimeout` | src/core/operational_circuit_breaker.py:172-176 | after force_open in any reachable state but OPEN, trading is refused for a whole recovery timeout, unless force_close or resume after a halt intervenes |
| `CircuitBreakerLaws.ForceCloseStartsAfresh` | src/core/operational_circuit_breaker.py:178-181 | after force_close trading is allowed whenever asked, and no earlier failure counts any more |
| `CircuitBreakerLaws.ResumeReopensExactlyWhen` | src/core/operational_circuit_breaker.py:201-213 | after resume trading is allowed if and only if the breaker was halted or trading was allowed anyway |
| `CircuitBreakerLaws.OpenedAtKnown` | src/core/operational_circuit_breaker.py:282-330 | on every run an open or probing breaker knows when it opened |
| `CircuitBreakerLaws.TimeoutNoticedBy` | src/core/operational_circuit_breaker.py:97-170 | the end of the timeout is noticed by readings and by successes, of which the first one then counts as a probe; a failure never notices it |
| `CircuitBreakerLaws.ProbingCountsSuccesses` | src/core/operational_circuit_breaker.py:154-170 | while probing, whatever failures and readings come between, the breaker stays HALF_OPEN until the successes reach the probe threshold, and the success that reaches it closes and clears |
| `CircuitBreakerLaws.HistoryIsSuffix` | src/core/operational_circuit_breaker.py:138-142 | the audit history is always a suffix of all failures ever recorded, and its length is a function of their number: it grows to 1000 and is then cut back to the last 500 |
| `PaperBook.SignedLedger` | src/broker/paper.py:311-365 | over every sequence of fills a symbol is stored exactly when its signed quantities do not sum to zero, with the size and the sign of that sum |
| `PaperBook.AverageWithinPrices` | src/broker/paper.py:320-365 | the average entry price lies between the lowest and highest price paid since the position was opened or turned around |
| `PaperBook.FillBalances` | src/broker/paper.py:311-365 | one fill moves cash plus cost basis by what it realises, plus its notional if it adds on the same side |
| `PaperBook.CashLaw` | src/broker/paper.py:311-365 | in every reachable book cash plus cost basis is starting equity plus realised profit plus the notional of same-side adds |
| `PaperBook.AddsAreFree` | src/broker/paper.py:322-328 | with positive prices that notional is zero exactly on runs without a same-side add |
| `PaperBook.ConservationExactlyWithoutAdds` | src/broker/paper.py:311-365 | money is conserved if and only if no fill added to a position on its own side |
| `PaperBook.EquityMisstatesShorts` | src/broker/paper.py:75-92 | reported equity differs from cash plus cost basis plus reported unrealised profit by twice the unrealised profit of the short positions |
| `PaperBook.EquityRightExactlyWhen` | src/broker/paper.py:75-92 | it is right if and only if those short profits total zero, in particular whenever no short is held |
| `PaperBook.LongOnlyCash` | src/broker/paper.py:311-365 | on a run that is never short, cash is starting equity less all purchases plus all sales, plus the notional of same-side adds, which were never paid for |
| `PaperBroker.Broker.constructor` | src/broker/paper.py:30-40 | a new broker satisfies the invariant with an empty book |
| `PaperBroker.Broker.UpdateBook` | src/broker/paper.py:316-365 | the in-place update of cash and positions is the fill function the ledger laws speak about |
| `PaperBroker.Broker.FillOrder` | src/broker/paper.py:311-365 | marks the order filled at the price and applies exactly one fill |
| `PaperBroker.Broker.SubmitFilled` | src/broker/paper.py:151-158 | creates one order, fills it at once and keeps the invariant |
| `PaperBroker.Broker.MarketOrder` | src/broker/paper.py:128-158 | a repeated idempotency key returns the first order and leaves cash, positions and orders unchanged; an unpriced symbol fails without effect; otherwise one order fills at the last price |
| `PaperBroker.Broker.LimitOrder` | src/broker/paper.py:160-176 | fills at the limit if the last price already crosses it, otherwise rests without effect on the book |
| `PaperBroker.Broker.BracketOrder` | src/broker/paper.py:178-194 | entry fills at the last price, or fails without effect |
| `PaperBroker.Broker.MarketOrderNotional` | src/broker/paper.py:196-210 | the quantity bought is worth the requested amount at the last price; no price and a price of zero fail without effect |
| `PaperBroker.Broker.StopLimitOrder` | src/broker/paper.py:212-230 | fills at the limit exactly if the last price lies between stop and limit on submission |
| `PaperBroker.Broker.CancelOrder` | src/broker/paper.py:232-240 | cancels exactly a pending order of that id and nothing else |
| `PaperBroker.Broker.ClosePosition` | src/broker/paper.py:242-267 | fills the opposite side at the last price, or the entry price if none is known, under the normalised symbol |
| `PaperBroker.Broker.SetPrice` | src/broker/paper.py:67-71 | fills exactly the resting limit orders of the symbol that the new price crosses, oldest first, each at its own limit |
| `PaperBroker.Broker.GetAccount` | src/broker/paper.py:75-92 | equity and unrealised profit are the sums over the position dictionary |
| `PaperBroker.Broker.Perform` | src/broker/paper.py:67-267 | over any sequence of calls the invariant holds, no order is dropped or rewritten, and a filled or cancelled order never changes |
| `PaperBroker.SettledTransitive` | src/broker/paper.py:232-385 | what one call leaves of the orders and the next one leaves of those is what both leave |
| `PaperBroker.SweepKeepsOrders` | src/broker/paper.py:375-385 | after a sweep no resting limit order with a nonzero limit is marketable, settled orders are unchanged and keys stay unique |
| `PaperBroker.AppendKeepsOrders` | src/broker/paper.py:294-309 | adding an order keeps these invariants |
| `PaperBroker.ReachableBroker` | src/broker/paper.py:128-365 | cash law and signed ledger hold in every state of a broker that satisfies its invariant, which every method keeps |
| `PaperBroker.SweepMeans` | src/broker/paper.py:367-385 | a new price fills exactly the resting limit orders of its symbol whose limit it reaches, at that limit, and leaves every other order alone |
| `PaperBroker.SweepFillsMean` | src/broker/paper.py:367-385 | one fill for each of them, in the order of the list |
| `PaperBroker.ReachableOrders` | src/broker/paper.py:128-385 | in every reachable state no resting order's limit is reached by the last price of its symbol, and no two orders carry the same nonempty idempotency key |
| `PaperBroker.SlashesFallAway` | src/broker/paper.py:246-248 | a slash between two texts falls away when a symbol is normalised |
| `PaperBroker.NothingElseFallsAway` | src/broker/paper.py:246-248 | normalising keeps every other character, in order |
| `PaperBroker.AccountMeans` | src/broker/paper.py:75-92 | a position counts at its symbol's last price, at its entry price if there is none; its unrealised profit is the signed quantity times the difference |
| `Portfolio.Averages` | backtesting/portfolio_backtest.py:229-242 | forward-filled averages of one symbol; a gap in the first bar or too few valid bars leave none |
| `Portfolio.CrossingFacts` | backtesting/portfolio_backtest.py:270-295 | the signal lists name each crossing, priced and held (or not held) symbol once |
| `Portfolio.CrossSignal` | backtesting/portfolio_backtest.py:274-290 | the cross of one symbol on one bar, none where a price or an average is missing |
| `Portfolio.SignalsOf` | backtesting/portfolio_backtest.py:270-295 | the scan collects the held symbols that cross down and the unheld ones that cross up, in order |
| `Portfolio.Prepare` | backtesting/portfolio_backtest.py:224-242 | both columns of averages for every symbol |
| `Portfolio.ProcessExits` | backtesting/portfolio_backtest.py:297-322 | the exit loop performs the exits in order on cash, positions and trades |
| `Portfolio.TryEnter` | backtesting/portfolio_backtest.py:325-377 | one pass of the entry loop: stop, skip or open, with the sizing formula |
| `Portfolio.ProcessEntries` | backtesting/portfolio_backtest.py:324-377 | the entry loop, including its breaks |
| `Portfolio.RunBar` | backtesting/portfolio_backtest.py:256-377 | one bar: signals, exits, entries |
| `Portfolio.RunBars` | backtesting/portfolio_backtest.py:216-389 | the bar loop yields the account of the fold and one equity point per bar; too short a frame is rejected |
| `Portfolio.CloseRemaining` | backtesting/portfolio_backtest.py:399-424 | one closing trade per open position, at its last known price, without touching the account |
| `Portfolio.RunHoldsFeedSymbols` | backtesting/portfolio_backtest.py:253-377 | only symbols of the feed are ever held |
| `Portfolio.Backtest` | backtesting/portfolio_backtest.py:190-424 | equity curve, final account, and the trade list with the closing trades last |
| `PortfolioLaws.NetIsCashFlow` | backtesting/portfolio_backtest.py:33-39 | recorded profit corrected by fee squared times the allocation is exactly the cash the round trip moved |
| `PortfolioLaws.ExitReconciles` | backtesting/portfolio_backtest.py:297-318 | an exit lowers equity by exactly its fee and keeps the reconciliation |
| `PortfolioLaws.ExposureWithinLimit` | backtesting/portfolio_backtest.py:339-358 | priced exposure after an entry is within its share of post-fee equity, whatever the limit |
| `PortfolioLaws.EntryKeepsLimits` | backtesting/portfolio_backtest.py:324-373 | an entry keeps cash and position limits, lowers equity by exactly its fee and leaves the exposure within max_exposure of the equity |
| `PortfolioLaws.RunKeepsConstraints` | backtesting/portfolio_backtest.py:253-377 | after every bar of every run cash is not negative, at most max_positions are open and cash plus allocations equals initial cash plus corrected profits |
| `PortfolioLaws.FlatCash` | backtesting/portfolio_backtest.py:253-377 | whenever the book is flat, cash is initial cash plus the sum over closed trades of profit less fee squared times allocation |
| `PortfolioLaws.EveryEntryIsSound` | backtesting/portfolio_backtest.py:324-373 | at every candidate of every bar of every run: the account changes if and only if a position is free, the amounts of risk, single limit, exposure budget and cash are all positive, the price is positive and the fee is below one; then exactly that position opens, with the least of the four amounts, equity lowered by exactly the entry fee, and exposure within max_exposure of what is left |
| `PortfolioLaws.FullBookEndsEntries` | backtesting/portfolio_backtest.py:324-342 | once the positions are full or the exposure budget is used up, the bar ends with the account as it is |
| `PortfolioLaws.AllCandidatesMakeTheBar` | backtesting/portfolio_backtest.py:324-377 | the account after all candidates of a bar is the account of the run after it |
| `PortfolioLaws.MarkedBooks` | backtesting/portfolio_backtest.py:399-424 | with open positions marked at any prices, cash plus marks is initial cash plus all corrected profits, closing trades at these prices included, plus their exit fees |
| `PortfolioLaws.FinalEquityVersusTrades` | backtesting/portfolio_backtest.py:382-424 | on every run the last equity point, plus the last known value of open positions unpriced on the last bar, is initial cash plus all corrected profits plus the exit fees of the closing trades; without that value if and only if it is zero |
| `PortfolioLaws.NothingUnpricedExactlyWhen` | backtesting/portfolio_backtest.py:382-410 | that value is zero if and only if every open position without a quote on the last bar has a last known price of zero |
| `PortfolioTrades.AverageMeans` | backtesting/portfolio_backtest.py:229-242 | a symbol has averages exactly if its first bar is priced and enough bars are; each is the exponential average of the forward-filled prices |
| `PortfolioTrades.FilledMeans` | backtesting/portfolio_backtest.py:229-242 | forward filling gives the last price at or before a bar, and none before the first |
| `PortfolioTrades.CrossingMeans` | backtesting/portfolio_backtest.py:270-295 | the candidates of a bar are the symbols not held whose averages cross up on it, the exits those held that cross down |
| `PortfolioTrades.RunTradesAreLegal` | backtesting/portfolio_backtest.py:253-377 | on every run each closed trade was entered at the price of an upward cross and left at the price of the first later downward cross, with fees on both fills; each open position was entered like that and has met no downward cross since |
| `PortfolioTrades.ClosingTradesMean` | backtesting/portfolio_backtest.py:399-424 | each closing trade is such an open position, with its quantity, its bars held, fees on both fills, and the last price its symbol ever had |
| `PortfolioTrades.CurveIsMarkedAccount` | backtesting/portfolio_backtest.py:382-389 | every equity point, warm-up included, is the account after that bar: cash and the positions quoted on it |
| `Backtester.RunBar` | backtesting/backtest.py:186-296 | one bar of the loop is the transition function, with its equity point |
| `Backtester.BarLoop` | backtesting/backtest.py:166-296 | final book and an equity curve of one point plus one per traded bar |
| `Backtester.CloseAtEnd` | backtesting/backtest.py:298-314 | a position left open is closed at the last close |
| `Backtester.Backtest` | backtesting/backtest.py:155-317 | capital, trades and curve of the whole run; nothing is traded with no more bars than the lookback |
| `BacktesterLaws.FinalCapital` | backtesting/backtest.py:155-317 | final capital is initial capital plus all profits less the entry and exit commission of every trade |
| `BacktesterLaws.FinalCapitalVersusCurve` | backtesting/backtest.py:288-314 | final capital is the last equity point less the closing commission if a position was left |
| `BacktesterLaws.ExposureClampNeverBinds` | backtesting/backtest.py:399-402 | holding intervals are disjoint and inside the traded bars, so the exposure lies in [0, 1] before clamping |
| `BacktesterTrades.TradesAreLegal` | backtesting/backtest.py:186-314 | every trade was taken on a buy or sell signal with confidence above one half, at that close slipped against it, with two percent of the capital at risk to the stop or a tenth of the capital; no bar between gives a reason to leave; it leaves at the stop if the exit bar meets it, else at the target, else at the close on an opposite signal, slipped; only the last one may leave at the final close; profits, capital before each trade and the final capital follow from the records |
| `BacktesterTrades.EverySignalAnswered` | backtesting/backtest.py:255-286 | no such signal is lost: a position is held on its bar or was until it |
| `BacktesterTrades.CurveMeans` | backtesting/backtest.py:288-296 | every curve point is the capital the closed trades left and, while a position is held, less its entry commission and plus its profit at the close |
| `BacktestMetrics.MaxDrawdown` | backtesting/backtest.py:329-335 | the result is the deepest fall from the running peak, attained at some point of the curve |
| `BacktestMetrics.DrawdownCoversEveryPair` | backtesting/backtest.py:329-335 | on a non-negative curve it is at least the fall between any earlier and any later point and at most one |
| `BacktestMetrics.MaxConsecutiveLosses` | backtesting/backtest.py:351-359 | the result is the length of a run of losses that occurs, and no longer one does |
| `BacktestMetrics.ExpectancyIsAverage` | backtesting/backtest.py:392-420 | expectancy equals the average profit per trade, break-even trades included |
| `Sequences.WinsAndLosses` | backtesting/backtest.py:325-327 | gains and losses add up to the sum of all results and are not more than the trades |
| `Environment.BrokerManager.DrainPositions` | src/core/environment.py:205-252 | succeeds exactly if the positions can be listed and all be closed; what could not be closed is what is left |
| `Environment.BrokerManager.CloseEach` | src/core/environment.py:215-229 | every position is tried once and exactly the failing ones remain |
| `Environment.BrokerManager.SwitchBroker` | src/core/environment.py:76-154 | swaps the broker exactly if the account call answers and draining succeeds; otherwise broker and count are untouched |
| `Environment.BrokerManager.RestoreBroker` | src/core/environment.py:156-203 | puts the broker back, counting a switch only if it was not active |
| `Environment.EnvironmentManager.Attempt` | src/core/environment.py:373-403 | how far the guarded part gets and what it has changed by then, the old broker's positions included, for every pattern of failures |
| `Environment.EnvironmentManager.SwitchEnvironment` | src/core/environment.py:326-478 | ends in the state it started in; on success broker, mode and settings all match the target, on failure all three are as before; success has an exact condition; what the old broker still holds is given in every case; one history row with the right outcome |
| `Environment.PositionsUntouchedExactlyWhen` | src/core/environment.py:96-125 | a switch leaves the old broker's positions as they were if and only if it does not get to draining them or every single close fails |
| `Environment.FailingMeans` | src/core/environment.py:215-229 | what is left after draining: each position as often as it was held if its close fails, and none of the others |
| `Environment.EnvironmentManager.SwitchAll` | src/core/environment.py:326-478 | any sequence of switches in any worlds ends with mode, settings and broker of the last successful one, mode and broker agreeing all along |
| `Environment.RunsStayConsistent` | src/core/environment.py:326-478 | over any run of switches mode, settings and broker are those of the last successful one, and the mode agrees with the broker throughout |
| `ConfigRepository.ReadsTellWrites` | src/config/repository.py:47-57 | after any sequence of operations a key reads as its writes since its last removal say: absent without any; else value, type and writer of the last one, flags of the first one, the last nonempty description and rule, and their number as the version; the log ends with the last write's reason |
| `ConfigRepository.Repository.Set` | src/config/repository.py:59-146 | new row and one audit row; an update raises the version by one and keeps flags, a creation starts at one |
| `ConfigRepository.Repository.Delete` | src/config/repository.py:148-176 | removes the row and logs the delete marker, or reports that there was none |
| `ConfigRepository.Repository.BulkSet` | src/config/repository.py:197-226 | the same as setting the entries one by one |
| `ConfigRepository.RunsConsistent` | src/config/repository.py:59-226 | after any sequence of operations every row is its key's last audit row and folding the log gives the rows without the marker |
| `ConfigRepository.AuditDeterminesTable` | src/config/repository.py:59-176 | folding the audit log reconstructs presence, value and version of every key if and only if no stored value is the delete marker |
| `ConfigRepository.AuditRowsAreLinked` | src/config/repository.py:102-143 | each audit row's old value and version are the previous row's new ones for that key |
| `ConfigRepository.RemovalIsLogged` | src/config/repository.py:148-176 | removing a stored key logs its value and version, the marker and who removed it; removing any other key changes nothing |
| `ConfigService.StoredValueReadsBack` | src/config/service.py:423-458 | a value stored under its detected type is read back unchanged |
| `ConfigService.ReadsBackExactlyWhen` | src/config/service.py:423-446 | under a type the caller names, a value is read back unchanged if and only if it is of that type (int, float, bool), and a string for any other type but json |
| `ConfigService.BoolReads` | src/config/service.py:430-431 | a text of type bool reads as true if and only if it spells true, 1, yes or on in any mixture of cases |
| `ConfigService.Service.constructor` | src/config/service.py:42-66 | a new service has loaded the table |
| `ConfigService.Service.Refresh` | src/config/service.py:69-100 | loads the whole table, or raises and keeps the old cache if some value does not parse |
| `ConfigService.Service.Set` | src/config/service.py:170-268 | the answer, the table, the cache and the announced change, for every branch |
| `ConfigService.Service.BulkSet` | src/config/service.py:270-290 | all entries are stored even if the refresh then raises |
| `ConfigServiceLaws.VersionsCountWrites` | src/config/service.py:170-290 | along every run of a freshly loaded service the stored version is the cached row's plus the writes since the last load that succeeded, raised bulk writes counted |
| `ConfigServiceLaws.AnnouncedVersionsStall` | src/config/service.py:247-257 | after any such run, a written set announces its new text, the old value as last loaded, and a version that is the one it stored if and only if its key was not written since the last load that succeeded; otherwise it lags by the number of those writes |
| `ConfigServiceLaws.CacheIsParsedTable` | src/config/service.py:69-290 | after any run of the sole writer the cache is the parsed table if and only if every stored text parses and every key that a raised bulk write changed since the last load that succeeded has been set again or is cached as parsed |
| `ConfigServiceLaws.CacheIsParsedTableUnlessBulkRaised` | src/config/service.py:69-290 | while no bulk write has raised since the last load that succeeded, it is so if and only if every stored text parses |
| `ConfigServiceLaws.WellTypedRunsStayCurrent` | src/config/service.py:69-290 | if every text written parses, the cache is the parsed table after every run |
| `ConfigServiceLaws.DetectedTypesAreWellTyped` | src/config/service.py:197-202 | a value written under its detected type always parses, to itself |
| `ConfigServiceLaws.RepairLeavesCacheStale` | src/config/service.py:270-290 | after a bulk write raised, repairing the bad value leaves a table that parses and a cache that lacks the other entry |
| `ConfigServiceLaws.SetLeavesAllExactlyWhen` | src/config/service.py:187-224 | a set leaves everything as it is if and only if the user may not modify the configuration, or the row as last loaded has a rule the new text breaks or is not editable |
| `ConfigServiceLaws.SetStores` | src/config/service.py:197-237 | the row left by any other set: the text that spells the value, its type and writer; a new key is not secret and editable at version one, a known one keeps its flags one version up; no other row changes |
| `ConfigServiceLaws.UneditableRowsHold` | src/config/service.py:170-290 | a row that is not editable when loaded never changes in any run without a bulk write about its key |
| `ConfigServiceLaws.LockedServiceHolds` | src/config/service.py:187-195 | while nobody who calls may modify the configuration, sets change neither table nor log, over any run of sets and refreshes |
| `ConfigServiceLaws.BulkIgnoresChecks` | src/config/service.py:270-290 | bulk writes do the same whatever lock and rules say |
| `ConfigSnapshots.SnapshotManager.Export` | src/config/snapshots.py:90-145 | the snapshot holds each chosen row once, with a matching checksum |
| `ConfigSnapshots.SnapshotManager.Restore` | src/config/snapshots.py:147-232 | refuses a snapshot whose checksum does not match; otherwise visits the selected entries, writing unless it is a dry run, and reports |
| `ConfigSnapshots.RestoreWrites` | src/config/snapshots.py:184-214 | after a restore every key named holds the value of its last entry and every other row is untouched |
| `ConfigSnapshots.RestoredRow` | src/config/snapshots.py:184-214 | with distinct keys a row is untouched if its value was already there, new at version one, or one version up with its flags kept |
| `ConfigSnapshots.RestoredTypeAndFlags` | src/config/snapshots.py:184-214 | a restored row has the entry's type if and only if its value differed before or the type was right already, and the entry's secret and editable flags if and only if the key is new or they were right already |
| `ConfigSnapshots.DryRunWritesNothing` | src/config/snapshots.py:200-212 | a dry run changes neither table nor log |
| `ConfigSnapshots.CountsAddUp` | src/config/snapshots.py:182-223 | created, updated and skipped add up to the number of selected entries, and every change is reported |
| `ConfigSnapshots.ReportMatchesAudit` | src/config/snapshots.py:191-212 | the reported changes are, one for one, the audit rows appended |
| `ConfigSnapshots.SecondRestoreSkips` | src/config/snapshots.py:184-189 | restoring again skips everything if and only if no two entries give one key different values |
| `ConfigSnapshots.DryRunForetells` | src/config/snapshots.py:182-223 | the dry run reports exactly what the restore would if and only if no entry that changes its key is followed by another entry about it |
| `ConfigSnapshots.ExportThenRestore` | src/config/snapshots.py:90-232 | restoring an export gives every wanted row its exported value and touches no other; a second restore skips everything; a dry run foretells the report |
| `ConfigSnapshots.RestoredClone` | src/config/snapshots.py:101-123 | a wanted row restored into a database without its key is the exported row at version one, with the restorer as its writer |
| `ConfigSnapshots.CountsByAction` | src/config/snapshots.py:205-214 | the created and updated counts are the numbers of reported changes of each kind |
| `Projections.PositionProjection.HandleEvent` | src/core/projections.py:65-80 | the dictionary update is the position transition |
| `Projections.PerformanceProjection.HandleEvent` | src/core/projections.py:114-132 | the counters' update is the performance transition |
| `Projections.ActivityProjection.HandleEvent` | src/core/projections.py:168-194 | appends and trims |
| `Projections.ReadModelManager.Dispatch` | src/core/projections.py:224-242 | every read model receives the event |
| `Projections.ReadModelManager.DispatchAll` | src/core/projections.py:219-242 | a run of events leaves the fold of all transitions |
| `Projections.PositionsAreOpenTrades` | src/core/projections.py:65-80 | a trade is in the position view if and only if its last open or close event is an open, and then with that event's data |
| `Projections.CountersAreTotals` | src/core/projections.py:114-132 | every counter and the realised result equal counting and summing over the whole event list |
| `Projections.GrossesNetToRealized` | src/core/projections.py:151-157 | gross profit less gross loss is the realised result |
| `Projections.ProfitFactorAboveOneMeansProfit` | src/core/projections.py:151-157 | the profit factor lies in [0, 999.99] and exceeds one if and only if the realised result is positive |
| `Projections.RecentActivity` | src/core/projections.py:191-194 | the view shows the last max_recent events for a positive limit, all events for zero, none for a negative one |
| `Projections.RecentBoundedExactlyWhenPositive` | src/core/projections.py:191-194 | the view is bounded by its limit on every run if and only if the limit is positive |
| `Projections.ProfitFactorMeans` | src/core/projections.py:151-157 | the profit factor is gross profit over gross loss cut at 999.99, the cut value with gains and no losses, zero with neither |
| `Projections.ActivityNames` | src/core/projections.py:168-190 | each entry names its event's class, time, source and id, and what its class is about |
| `EventStore.Store.Persist` | src/core/event_store.py:149-202 | appends the record unless its id is already stored by any session |
| `EventStore.Store.ReplaySession` | src/core/event_store.py:241-256 | the session's events in insertion order |
| `EventStore.StoreKeepsFirsts` | src/core/event_store.py:149-202 | for any interleaving of sessions the table grows by exactly the first record of each new id, in order |
| `EventStore.IdsStayUnique` | src/core/event_store.py:54-62 | no id is ever stored twice |
| `EventStore.ReplayIsWhatWasPublished` | src/core/event_store.py:149-256 | with new and distinct ids every session replays exactly what it published, in order |
| `EventStore.ReplayIsTheSession` | src/core/event_store.py:241-256 | a replay has one event per record of the session, the record's own, in their order, for any table |
| `EventStore.RebuildFromAnyPrefix` | src/core/event_store.py:241-256 | folding the stored log from the view after any prefix gives the live view |
| `EventStore.PerformanceRebuildsExactlyWhen` | src/core/event_store.py:180-187 | the rebuilt performance view equals the live one if and only if no event it counts was turned away as a repeat |
| `EventStore.PositionsRebuildExactlyWhen` | src/core/event_store.py:180-187 | the rebuilt position view equals the live one if and only if for every trade the last open or close event published and the last one stored show the same, which is so if and only if no turned-away record was the last word on a trade with something else stored |
| `EventStore.PositionsRebuildIfLastMovesStored` | src/core/event_store.py:180-187 | in particular if the last open or close event about every trade was stored |
| `EventStore.RedeliveredOpeningRevives` | src/core/event_store.py:180-187 | an opening delivered again after its close is open in the live view and closed in the rebuilt one |
| `MonteCarlo.EquityCurve` | backtesting/monte_carlo.py:16-26 | cumulative equity, absorbed at zero from the first point that is not positive |
| `MonteCarlo.DrawdownTotalExactlyWhenRuined` | backtesting/monte_carlo.py:16-36 | drawdown lies in [-1, 0] and is -1 if and only if the simulation is ruined |
| `MonteCarlo.DrawdownIsDeepestFall` | backtesting/monte_carlo.py:29-36 | no later level is below one plus the drawdown times an earlier one, and some later level is exactly that |
| `MonteCarlo.FinalEquity` | backtesting/monte_carlo.py:84-104 | the curve ends at zero if ruined and otherwise at cash plus the sum of all trades, in any order |
| `MonteCarlo.EveryOrderSurvivesExactlyWhen` | backtesting/monte_carlo.py:84-98 | every order of the trades survives if and only if starting cash exceeds the sum of all losses |
| `MonteCarlo.SomeOrderSurvivesExactlyWhen` | backtesting/monte_carlo.py:84-98 | some order survives if and only if starting cash and final balance are positive |
| `MonteCarlo.SimulateOne` | backtesting/monte_carlo.py:84-104 | final return and drawdown of one draw of order and noise |
| `MonteCarlo.Simulate` | backtesting/monte_carlo.py:76-104 | the loop stores them for every draw |
| `MonteCarlo.SimulationOutcome` | backtesting/monte_carlo.py:84-104 | with or without noise the return is -1 if and only if the simulation is ruined, if and only if its drawdown is total; otherwise it is the sum of the simulated trades over cash |
| `MonteCarlo.TwoOutcomes` | backtesting/monte_carlo.py:100-104 | without noise every final return is -1 or the sum of all trades over cash; the order only decides which |
| `MonteCarlo.ShuffledMeans` | backtesting/monte_carlo.py:84-93 | each simulated trade is the shuffled one times its own noise factor, if there is noise |
| `MonteCarlo.WilsonIntervalNeedsNoClamp` | backtesting/monte_carlo.py:122-135 | the unclamped interval contains the estimate and lies in [0, 1] |
| `MonteCarlo.WilsonEndsSolveScoreEquation` | backtesting/monte_carlo.py:125-135 | the ends of the interval are the shares that a score test at 1.96 standard errors just does not reject |
| `Sequences.PickIsPermutation` | backtesting/monte_carlo.py:84-87 | indexing by a permutation permutes the trades |
| `Sequences.SumPermutes` | backtesting/monte_carlo.py:84-98 | a sum does not depend on the order |

## Left out

- CircuitBreaker.OperationalCircuitBreaker.RecordFailure: the reading of the clock and the append to the queue are one step; the source reads the clock before taking the lock, so the model covers calls whose readings are in lock order.
- CircuitBreakerLaws.QueuesAreTheWindow: assumes a non-negative window; with a negative one every failure expires at once.
- CrossoverLaws.StopsFillBelowEntry: needs the first bar's low not above its high; later bars need nothing.
- WalkForward.CrossEngineAgreement: assumes stops off or both range columns present, which `EngineDivergence` shows to be exact, and positive initial cash and risk fraction.
- PaperBroker.Broker.MarketOrderNotional: the amount over the price is positive, like every order quantity; the source checks neither.
- PaperBroker.Broker.Perform: covers calls with positive quantities and amounts and quotes that are not negative.
- PaperBroker.Broker.BracketOrder: take-profit and stop-loss levels are only stored by the source, so the model drops them.
- ConfigService.Service.constructor: where the initial load raises, the source builds no object; the model leaves one with an empty cache.
- ConfigServiceLaws.AnnouncedVersionsStall: starts from a service that has loaded its table, as construction leaves it.
- ConfigService.StoredValueReadsBack: assumes that number and JSON texts read back what they print.
- EventStore.Store.Persist: a failing database call, which stores nothing and raises, is not modelled; neither are clean-up and time queries.
- EventStore.RebuildFromAnyPrefix: serialisation of events is taken to be faithful, and the session starts with an empty log.
- ConfigSnapshots.SnapshotManager.Export: the row order, the text form of a snapshot, its description and creator are not modelled; entries of hand-written snapshots carry all fields.
- MonteCarlo.Simulate: assumes positive initial cash; percentiles and the other statistics over the results are not modelled.
- RateLimiter.LedgerExactlyWhenUncapped: covers calls that return as soon as their sleep is over; a later return credits more or less time, for which `Ledger` gives the bound.
- CrossoverGrowth.RunCompounds: fees are below one and neither the risk fraction nor the initial cash is negative, as in the other laws of the books.
- PaperBook.LongOnlyCash: covers runs on which no symbol is ever short; with shorts, `CashLaw` gives the cash through the cost basis.
- ConfigService.ReadsBackExactlyWhen: says nothing about the type json, where the JSON reader decides, except for JSON documents (`StoredValueReadsBack`).
- PortfolioLaws.EveryEntryIsSound: fees and prices are not negative and the initial cash is not either.
- RateLimiter.Limiter.Acquire: the token cap is positive, as the division in the source demands.
- The vectorised and external backtest engines, which are foreign libraries; only the numpy fallback is modelled.
- Sharpe, Sortino, CAGR, correlation and bootstrap figures, percentage profits, and concurrency peaks.
- Aligning frames to common dates (`_align_data`), per-symbol fee lookup, per-symbol equity series.
- The rest of the live broker client, streaming, schedulers, messaging and the command line.
- The replay broker, whose fills repeat the paper broker's.
- Recovery, reconciliation and the order life cycle, which rest on a state machine that is not part of this model.
- SQL sessions, dialects, JSON text, hashing, timestamps and random ids; tables are maps and sequences.
- Layered configuration, the configuration lock, start-up validation and market calendars, which are small lookups.
- Dashboards, exposure queries, order listings and status reports, which only read what is modelled.
