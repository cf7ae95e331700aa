/** The operational circuit breaker of src/core/operational_circuit_breaker.py, with the clock reading of
    each call as a parameter. Calls are serialised by its lock. */
module CircuitBreaker {
  import opened Common

  const HISTORY_LIMIT: nat := 1000
  const HISTORY_KEPT: nat := 500

  datatype State = Closed | Open | HalfOpen | Halted

  datatype Domain = BrokerDomain | RiskEngine | Notification

  datatype Failure = Failure(domain: Domain, at: real, error: string)

  datatype Limits = Limits(threshold: int, window: real, recovery: real, probes: int)

  datatype Queues = Queues(broker: seq<Failure>, risk: seq<Failure>, notification: seq<Failure>) {
    function Of(d: Domain): seq<Failure> {
      match d
      case BrokerDomain => broker
      case RiskEngine => risk
      case Notification => notification
    }

    function Append(f: Failure): Queues {
      match f.domain
      case BrokerDomain => this.(broker := broker + [f])
      case RiskEngine => this.(risk := risk + [f])
      case Notification => this.(notification := notification + [f])
    }

    function Expire(cutoff: real): Queues {
      Queues(DropOld(broker, cutoff), DropOld(risk, cutoff), DropOld(notification, cutoff))
    }

    function Count(): nat {
      |broker| + |risk| + |notification|
    }
  }

  const NO_FAILURES := Queues([], [], [])

  datatype Breaker = Breaker(
    state: State, queues: Queues, history: seq<Failure>, openedAt: Option<real>,
    probeSuccesses: int, trips: nat, recoveries: nat)

  datatype Op =
    | RecordFailure(domain: Domain, error: string)
    | RecordSuccess
    | ForceOpen
    | ForceClose
    | Halt
    | Resume
    | Query
    | Status

  function DropOld(q: seq<Failure>, cutoff: real): seq<Failure> {
    if q != [] && q[0].at < cutoff then DropOld(q[1..], cutoff) else q
  }

  function Trip(b: Breaker, now: real): Breaker {
    b.(state := Open, openedAt := Some(now), probeSuccesses := 0, trips := b.trips + 1)
  }

  function Close(b: Breaker): Breaker {
    b.(state := Closed, openedAt := None, probeSuccesses := 0, recoveries := b.recoveries + 1, queues := NO_FAILURES)
  }

  function CheckRecovery(l: Limits, b: Breaker, now: real): Breaker {
    if b.state == Open && b.openedAt.Some? && now - b.openedAt.value >= l.recovery then
      b.(state := HalfOpen, probeSuccesses := 0)
    else b
  }

  function Trimmed(history: seq<Failure>): seq<Failure> {
    if |history| > HISTORY_LIMIT then history[|history| - HISTORY_KEPT..] else history
  }

  function Fail(l: Limits, b: Breaker, f: Failure): Breaker {
    var b' := b.(queues := b.queues.Append(f).Expire(f.at - l.window), history := Trimmed(b.history + [f]));
    if b'.queues.Count() >= l.threshold && b.state == Closed then Trip(b', f.at) else b'
  }

  function Succeed(l: Limits, b: Breaker): Breaker {
    if b.state == HalfOpen then
      var b' := b.(probeSuccesses := b.probeSuccesses + 1);
      if b'.probeSuccesses >= l.probes then Close(b') else b'
    else b
  }

  function Step(l: Limits, b: Breaker, op: Op, now: real): Breaker {
    match op
    case RecordFailure(d, e) => Fail(l, b, Failure(d, now, e))
    case RecordSuccess => Succeed(l, CheckRecovery(l, b, now))
    case ForceOpen => if b.state != Open then Trip(b, now) else b
    case ForceClose => Close(b)
    case Halt => if b.state == Halted then b else b.(state := Halted)
    case Resume => if b.state == Halted then b.(state := Closed) else b
    case Query => CheckRecovery(l, b, now)
    case Status => var c := CheckRecovery(l, b, now); c.(queues := c.queues.Expire(now - l.window))
  }

  predicate TradingAllowed(s: State) {
    s != Open && s != Halted
  }

  // ---------- The class ----------

  class OperationalCircuitBreaker {
    const limits: Limits
    var state: State
    var queues: Queues
    var history: seq<Failure>
    var openedAt: Option<real>
    var probeSuccesses: int
    var trips: nat
    var recoveries: nat

    ghost function View(): Breaker
      reads this
    {
      Breaker(state, queues, history, openedAt, probeSuccesses, trips, recoveries)
    }

    constructor (l: Limits)
      ensures limits == l && View() == NEW
    {
      limits := l;
      state, queues, history, openedAt, probeSuccesses := Closed, NO_FAILURES, [], None, 0;
      trips, recoveries := 0, 0;
    }

    method GetState(now: real) returns (s: State)
      modifies this
      ensures View() == Step(limits, old(View()), Query, now) && s == state
    {
      CheckRecoveryTimeout(now);
      s := state;
    }

    method IsTradingAllowed(now: real) returns (allowed: bool)
      modifies this
      ensures View() == Step(limits, old(View()), Query, now) && allowed == TradingAllowed(state)
    {
      CheckRecoveryTimeout(now);
      allowed := state != Open && state != Halted;
    }

    method RecordFailure(domain: Domain, error: string, now: real) returns (s: State)
      modifies this
      ensures View() == Step(limits, old(View()), Op.RecordFailure(domain, error), now) && s == state
    {
      var record := Failure(domain, now, error);
      queues := queues.Append(record);
      history := history + [record];
      if |history| > HISTORY_LIMIT {
        history := history[|history| - HISTORY_KEPT..];
      }
      ExpireFailures(now);
      if queues.Count() >= limits.threshold && state == Closed {
        DoTrip(now);
      }
      s := state;
    }

    method RecordSuccess(now: real) returns (s: State)
      modifies this
      ensures View() == Step(limits, old(View()), Op.RecordSuccess, now) && s == state
    {
      CheckRecoveryTimeout(now);
      if state == HalfOpen {
        probeSuccesses := probeSuccesses + 1;
        if probeSuccesses >= limits.probes {
          DoClose();
        }
      }
      s := state;
    }

    method ForceOpen(now: real)
      modifies this
      ensures View() == Step(limits, old(View()), Op.ForceOpen, now)
    {
      if state != Open {
        DoTrip(now);
      }
    }

    method ForceClose(now: real)
      modifies this
      ensures View() == Step(limits, old(View()), Op.ForceClose, now)
    {
      DoClose();
    }

    method Halt(now: real)
      modifies this
      ensures View() == Step(limits, old(View()), Op.Halt, now)
    {
      if state == Halted {
        return;
      }
      state := Halted;
    }

    method Resume(now: real)
      modifies this
      ensures View() == Step(limits, old(View()), Op.Resume, now)
    {
      if state != Halted {
        return;
      }
      state := Closed;
    }

    method GetStatus(now: real) returns (s: State, counts: Queues, total: nat)
      modifies this
      ensures View() == Step(limits, old(View()), Status, now)
      ensures s == state && counts == queues && total == queues.Count()
    {
      CheckRecoveryTimeout(now);
      ExpireFailures(now);
      s, counts, total := state, queues, queues.Count();
    }

    method GetFailureHistory(limit: int) returns (records: seq<Failure>)
      ensures records == Tail(history, limit)
    {
      records := Tail(history, limit);
    }

    method DoTrip(now: real)
      modifies this
      ensures View() == Trip(old(View()), now)
    {
      state, openedAt, probeSuccesses, trips := Open, Some(now), 0, trips + 1;
    }

    method DoClose()
      modifies this
      ensures View() == Close(old(View()))
    {
      state, openedAt, probeSuccesses, recoveries := Closed, None, 0, recoveries + 1;
      queues := NO_FAILURES;
    }

    method CheckRecoveryTimeout(now: real)
      modifies this
      ensures View() == CheckRecovery(limits, old(View()), now)
    {
      if state == Open && openedAt.Some? {
        var elapsed := now - openedAt.value;
        if elapsed >= limits.recovery {
          state, probeSuccesses := HalfOpen, 0;
        }
      }
    }

    method ExpireFailures(now: real)
      modifies this`queues
      ensures queues == old(queues).Expire(now - limits.window)
    {
      var cutoff := now - limits.window;
      var b := PopOld(queues.broker, cutoff);
      var r := PopOld(queues.risk, cutoff);
      var n := PopOld(queues.notification, cutoff);
      queues := Queues(b, r, n);
    }
  }

  method PopOld(queue: seq<Failure>, cutoff: real) returns (q: seq<Failure>)
    ensures q == DropOld(queue, cutoff)
  {
    q := queue;
    while q != [] && q[0].at < cutoff
      invariant DropOld(q, cutoff) == DropOld(queue, cutoff)
      decreases |q|
    {
      q := q[1..];
    }
  }

  const NEW := Breaker(Closed, NO_FAILURES, [], None, 0, 0, 0)
}
