/** What the circuit breaker guarantees over every run of its operations. */
module CircuitBreakerLaws {
  import opened Common
  import opened CircuitBreaker

  datatype Event = Event(op: Op, now: real)

  function RunFrom(l: Limits, b: Breaker, events: seq<Event>): Breaker {
    if events == [] then b
    else
      var front, last := events[..|events| - 1], events[|events| - 1];
      Step(l, RunFrom(l, b, front), last.op, last.now)
  }

  ghost predicate Monotone(events: seq<Event>) {
    forall i, j :: 0 <= i < j < |events| ==> events[i].now <= events[j].now
  }

  // ---------- Reference: failures read off the run itself ----------

  function AllFailures(events: seq<Event>): seq<Failure> {
    if events == [] then []
    else
      var front, last := events[..|events| - 1], events[|events| - 1];
      AllFailures(front) + if last.op.RecordFailure? then [Failure(last.op.domain, last.now, last.op.error)] else []
  }

  /** Failures since the breaker was last cleared, whatever their age. */
  function SinceClear(l: Limits, events: seq<Event>): seq<Failure> {
    if events == [] then []
    else
      var front, last := events[..|events| - 1], events[|events| - 1];
      var b := RunFrom(l, NEW, front);
      if Step(l, b, last.op, last.now).recoveries != b.recoveries then []
      else SinceClear(l, front) + if last.op.RecordFailure? then [Failure(last.op.domain, last.now, last.op.error)] else []
  }

  function OfDomain(fs: seq<Failure>, d: Domain): seq<Failure> {
    if fs == [] then []
    else OfDomain(fs[..|fs| - 1], d) + if fs[|fs| - 1].domain == d then [fs[|fs| - 1]] else []
  }

  function Since(fs: seq<Failure>, cutoff: real): seq<Failure> {
    if fs == [] then []
    else Since(fs[..|fs| - 1], cutoff) + if fs[|fs| - 1].at >= cutoff then [fs[|fs| - 1]] else []
  }

  ghost predicate Ordered(fs: seq<Failure>) {
    forall i, j :: 0 <= i < j < |fs| ==> fs[i].at <= fs[j].at
  }

  lemma {:induction false} SinceKeepsAll(fs: seq<Failure>, cutoff: real)
    requires forall i :: 0 <= i < |fs| ==> fs[i].at >= cutoff
    ensures Since(fs, cutoff) == fs
  {
    if fs != [] {
      SinceKeepsAll(fs[..|fs| - 1], cutoff);
    }
  }

  lemma {:induction false} SinceDropsHead(fs: seq<Failure>, cutoff: real)
    requires fs != [] && fs[0].at < cutoff
    ensures Since(fs, cutoff) == Since(fs[1..], cutoff)
  {
    if |fs| == 1 {
      assert fs[..0] == [] && fs[1..] == [];
    } else {
      var front, rest := fs[..|fs| - 1], fs[1..];
      SinceDropsHead(front, cutoff);
      assert rest[..|rest| - 1] == front[1..];
      assert rest[|rest| - 1] == fs[|fs| - 1];
      assert Since(rest, cutoff) == Since(front[1..], cutoff) + if fs[|fs| - 1].at >= cutoff then [fs[|fs| - 1]] else [];
    }
  }

  /** Popping from the front of an ordered queue removes exactly what is too old. */
  lemma {:induction false} PoppingFilters(q: seq<Failure>, cutoff: real)
    requires Ordered(q)
    ensures DropOld(q, cutoff) == Since(q, cutoff)
  {
    if q != [] && q[0].at < cutoff {
      PoppingFilters(q[1..], cutoff);
      SinceDropsHead(q, cutoff);
    } else {
      SinceKeepsAll(q, cutoff);
    }
  }

  lemma {:induction false} SinceTwice(fs: seq<Failure>, early: real, late: real)
    requires early <= late
    ensures Since(Since(fs, early), late) == Since(fs, late)
  {
    if fs != [] {
      var front, last := fs[..|fs| - 1], fs[|fs| - 1];
      SinceTwice(front, early, late);
      if last.at >= early {
        SinceAppend(Since(front, early), last, late);
      } else {
        assert Since(fs, early) == Since(front, early) && Since(fs, late) == Since(front, late);
      }
    }
  }

  lemma OfDomainAppend(fs: seq<Failure>, f: Failure, d: Domain)
    ensures OfDomain(fs + [f], d) == if f.domain == d then OfDomain(fs, d) + [f] else OfDomain(fs, d)
  {
    assert (fs + [f])[..|fs|] == fs;
  }

  lemma SinceAppend(fs: seq<Failure>, f: Failure, cutoff: real)
    ensures Since(fs + [f], cutoff) == if f.at >= cutoff then Since(fs, cutoff) + [f] else Since(fs, cutoff)
  {
    assert (fs + [f])[..|fs|] == fs;
  }

  ghost predicate NoneAfter(fs: seq<Failure>, now: real) {
    forall i :: 0 <= i < |fs| ==> fs[i].at <= now
  }

  lemma {:induction false} FilteringKeepsOrder(fs: seq<Failure>, d: Domain, now: real)
    requires Ordered(fs) && NoneAfter(fs, now)
    ensures Ordered(OfDomain(fs, d)) && NoneAfter(OfDomain(fs, d), now)
  {
    if fs != [] {
      FilteringKeepsOrder(fs[..|fs| - 1], d, fs[|fs| - 1].at);
    }
  }

  lemma {:induction false} SinceKeepsOrder(fs: seq<Failure>, cutoff: real, now: real)
    requires Ordered(fs) && NoneAfter(fs, now)
    ensures Ordered(Since(fs, cutoff)) && NoneAfter(Since(fs, cutoff), now)
  {
    if fs != [] {
      SinceKeepsOrder(fs[..|fs| - 1], cutoff, fs[|fs| - 1].at);
    }
  }

  // ---------- Queues are the window ----------

  /** The queues hold the failures since the last clear, by domain, from some cutoff on. */
  ghost predicate Windowed(q: Queues, fs: seq<Failure>, cutoff: real) {
    forall d: Domain :: q.Of(d) == Since(OfDomain(fs, d), cutoff)
  }

  lemma ExpiryAdvancesWindow(q: Queues, fs: seq<Failure>, cutoff: real, later: real, now: real)
    requires Windowed(q, fs, cutoff) && cutoff <= later && Ordered(fs) && NoneAfter(fs, now)
    ensures Windowed(q.Expire(later), fs, later)
  {
    forall d: Domain ensures q.Expire(later).Of(d) == Since(OfDomain(fs, d), later) {
      FilteringKeepsOrder(fs, d, now);
      SinceKeepsOrder(OfDomain(fs, d), cutoff, now);
      PoppingFilters(q.Of(d), later);
      SinceTwice(OfDomain(fs, d), cutoff, later);
    }
  }

  lemma AppendKeepsWindow(q: Queues, fs: seq<Failure>, cutoff: real, f: Failure)
    requires Windowed(q, fs, cutoff) && cutoff <= f.at
    ensures Windowed(q.Append(f), fs + [f], cutoff)
  {
    forall d: Domain ensures q.Append(f).Of(d) == Since(OfDomain(fs + [f], d), cutoff) {
      OfDomainAppend(fs, f, d);
      SinceAppend(OfDomain(fs, d), f, cutoff);
    }
  }

  predicate Expires(op: Op) {
    op.RecordFailure? || op.Status?
  }

  /** Cutoff of the last expiry of a run; before the first one, nothing is older than `base`. */
  function LastCutoff(l: Limits, events: seq<Event>, base: real): real {
    if events == [] then base
    else if Expires(events[|events| - 1].op) then events[|events| - 1].now - l.window
    else LastCutoff(l, events[..|events| - 1], base)
  }

  lemma StillOrdered(fs: seq<Failure>, f: Failure)
    requires Ordered(fs) && NoneAfter(fs, f.at)
    ensures Ordered(fs + [f]) && NoneAfter(fs + [f], f.at)
  {
  }

  /** One step of the bookkeeping. */
  lemma StepFollows(l: Limits, b: Breaker, fs: seq<Failure>, cut: real, e: Event)
    requires Windowed(b.queues, fs, cut) && cut <= e.now - l.window && l.window >= 0.0
    requires Ordered(fs) && NoneAfter(fs, e.now)
    ensures var b' := Step(l, b, e.op, e.now);
            if b'.recoveries != b.recoveries then b'.queues == NO_FAILURES
            else Windowed(b'.queues,
                          fs + if e.op.RecordFailure? then [Failure(e.op.domain, e.now, e.op.error)] else [],
                          if Expires(e.op) then e.now - l.window else cut)
  {
    hide Windowed, DropOld, Ordered, NoneAfter, Trimmed;
    if e.op.RecordFailure? {
      var f := Failure(e.op.domain, e.now, e.op.error);
      StillOrdered(fs, f);
      AppendKeepsWindow(b.queues, fs, cut, f);
      ExpiryAdvancesWindow(b.queues.Append(f), fs + [f], cut, e.now - l.window, e.now);
    } else if e.op.Status? {
      ExpiryAdvancesWindow(b.queues, fs, cut, e.now - l.window, e.now);
    }
    assert fs + [] == fs;
  }

  lemma Unfold(l: Limits, events: seq<Event>, base: real)
    requires events != []
    ensures var front, e := events[..|events| - 1], events[|events| - 1];
            var b := RunFrom(l, NEW, front);
            && RunFrom(l, NEW, events) == Step(l, b, e.op, e.now)
            && SinceClear(l, events) == (if Step(l, b, e.op, e.now).recoveries != b.recoveries then []
                 else SinceClear(l, front) + if e.op.RecordFailure? then [Failure(e.op.domain, e.now, e.op.error)] else [])
            && LastCutoff(l, events, base) == if Expires(e.op) then e.now - l.window else LastCutoff(l, front, base)
  {
    hide Step;
  }

  lemma ClearedWindow(cutoff: real)
    ensures Windowed(NO_FAILURES, [], cutoff)
  {
  }

  /** The bookkeeping at some point of a run: `fs` the failures since the last clear, `cutoff` what the
      last expiry left, `now` no earlier than the last call. */
  ghost predicate Follows(q: Queues, fs: seq<Failure>, cutoff: real, l: Limits, now: real) {
    Ordered(fs) && NoneAfter(fs, now) && cutoff <= now - l.window && Windowed(q, fs, cutoff)
  }

  lemma FollowsStep(l: Limits, b: Breaker, fs: seq<Failure>, cut: real, e: Event)
    requires Follows(b.queues, fs, cut, l, e.now) && l.window >= 0.0
    ensures var b' := Step(l, b, e.op, e.now);
            var cut' := if Expires(e.op) then e.now - l.window else cut;
            if b'.recoveries != b.recoveries then Follows(b'.queues, [], cut', l, e.now)
            else Follows(b'.queues, fs + if e.op.RecordFailure? then [Failure(e.op.domain, e.now, e.op.error)] else [],
                         cut', l, e.now)
  {
    StepFollows(l, b, fs, cut, e);
    hide Step, Expires;
    ClearedWindow(cut);
    ClearedWindow(e.now - l.window);
    hide Windowed;
    assert fs + [] == fs;
  }

  /** Along every monotone run the queues are the failures since the last clear that the last expiry
      left inside the window. */
  lemma {:induction false} QueuesFollowRun(l: Limits, events: seq<Event>, base: real, now: real)
    requires Monotone(events) && l.window >= 0.0 && base <= now - l.window
    requires forall i :: 0 <= i < |events| ==> base <= events[i].now - l.window && events[i].now <= now
    ensures Follows(RunFrom(l, NEW, events).queues, SinceClear(l, events), LastCutoff(l, events, base), l, now)
  {
    hide *;
    if events == [] {
      EmptyRunFollows(l, base, now);
    } else {
      var front, e := events[..|events| - 1], events[|events| - 1];
      MonotoneFront(events);
      QueuesFollowRun(l, front, base, e.now);
      Unfold(l, events, base);
      FollowsStep(l, RunFrom(l, NEW, front), SinceClear(l, front), LastCutoff(l, front, base), e);
      FollowsLater(RunFrom(l, NEW, events).queues, SinceClear(l, events), LastCutoff(l, events, base), l, e.now, now);
    }
  }

  lemma EmptyRunFollows(l: Limits, base: real, now: real)
    requires base <= now - l.window
    ensures Follows(RunFrom(l, NEW, []).queues, SinceClear(l, []), LastCutoff(l, [], base), l, now)
  {
    ClearedWindow(base);
  }

  lemma MonotoneFront(events: seq<Event>)
    requires Monotone(events) && events != []
    ensures Monotone(events[..|events| - 1])
    ensures forall i :: 0 <= i < |events| - 1 ==> events[i].now <= events[|events| - 1].now
  {
  }

  lemma FollowsLater(q: Queues, fs: seq<Failure>, cutoff: real, l: Limits, now: real, later: real)
    requires Follows(q, fs, cutoff, l, now) && now <= later
    ensures Follows(q, fs, cutoff, l, later)
  {
  }

  // ---------- Main results ----------

  /** Failures of the run that count now: not cleared since, and inside the window. */
  function Recent(l: Limits, events: seq<Event>, d: Domain, now: real): seq<Failure> {
    Since(OfDomain(SinceClear(l, events), d), now - l.window)
  }

  function CountSince(fs: seq<Failure>, cutoff: real): nat {
    |Since(OfDomain(fs, BrokerDomain), cutoff)| + |Since(OfDomain(fs, RiskEngine), cutoff)|
    + |Since(OfDomain(fs, Notification), cutoff)|
  }

  ghost predicate MonotoneTo(events: seq<Event>, now: real) {
    Monotone(events) && forall i :: 0 <= i < |events| ==> events[i].now <= now
  }

  lemma RunFollows(l: Limits, events: seq<Event>, now: real) returns (cut: real)
    requires MonotoneTo(events, now) && l.window >= 0.0
    ensures Follows(RunFrom(l, NEW, events).queues, SinceClear(l, events), cut, l, now)
  {
    var base := (if events == [] then now else events[0].now) - l.window;
    QueuesFollowRun(l, events, base, now);
    cut := LastCutoff(l, events, base);
  }

  lemma UnpackFollows(q: Queues, fs: seq<Failure>, cutoff: real, l: Limits, now: real)
    requires Follows(q, fs, cutoff, l, now)
    ensures Ordered(fs) && NoneAfter(fs, now) && cutoff <= now - l.window && Windowed(q, fs, cutoff)
  {
  }

  lemma StatusExpires(l: Limits, b: Breaker, now: real)
    ensures Step(l, b, Status, now).queues == b.queues.Expire(now - l.window)
  {
  }

  lemma ReadWindow(l: Limits, events: seq<Event>, q: Queues, d: Domain, now: real)
    requires Windowed(q, SinceClear(l, events), now - l.window)
    ensures q.Of(d) == Recent(l, events, d, now)
  {
    hide SinceClear, Since, OfDomain;
  }

  /** After every expiry the queues hold exactly the failures since the last clear inside the window. */
  lemma QueuesAreTheWindow(l: Limits, events: seq<Event>, now: real)
    requires MonotoneTo(events, now) && l.window >= 0.0
    ensures var q := Step(l, RunFrom(l, NEW, events), Status, now).queues;
            forall d: Domain :: q.Of(d) == Recent(l, events, d, now)
  {
    hide *;
    var cut := RunFollows(l, events, now);
    var b, fs := RunFrom(l, NEW, events), SinceClear(l, events);
    UnpackFollows(b.queues, fs, cut, l, now);
    ExpiryAdvancesWindow(b.queues, fs, cut, now - l.window, now);
    StatusExpires(l, b, now);
    forall d: Domain ensures b.queues.Expire(now - l.window).Of(d) == Recent(l, events, d, now) {
      ReadWindow(l, events, b.queues.Expire(now - l.window), d, now);
    }
  }

  /** Recording a failure trips the breaker exactly when it is CLOSED and the failures in the window,
      this one included, reach the threshold; in every other case it leaves the state alone. In
      particular a failure while probing does not reopen the breaker. */
  lemma TripsExactlyWhen(l: Limits, events: seq<Event>, d: Domain, error: string, now: real)
    requires MonotoneTo(events, now) && l.window >= 0.0
    ensures var b := RunFrom(l, NEW, events);
            var b' := Step(l, b, Op.RecordFailure(d, error), now);
            var trips := b.state == Closed
                      && CountSince(SinceClear(l, events) + [Failure(d, now, error)], now - l.window) >= l.threshold;
            && b'.state == (if trips then Open else b.state)
            && b'.trips == b.trips + (if trips then 1 else 0)
            && (trips ==> b'.openedAt == Some(now))
  {
    var b, fs, f := RunFrom(l, NEW, events), SinceClear(l, events), Failure(d, now, error);
    hide RunFrom, SinceClear, Since, OfDomain, DropOld, Follows, Windowed, CountSince, Monotone, Ordered, NoneAfter;
    var cut := RunFollows(l, events, now);
    UnpackFollows(b.queues, fs, cut, l, now);
    AppendKeepsWindow(b.queues, fs, cut, f);
    StillOrdered(fs, f);
    ExpiryAdvancesWindow(b.queues.Append(f), fs + [f], cut, now - l.window, now);
    CountWindow(b.queues.Append(f).Expire(now - l.window), fs + [f], now - l.window);
  }

  lemma CountWindow(q: Queues, fs: seq<Failure>, cutoff: real)
    requires Windowed(q, fs, cutoff)
    ensures q.Count() == CountSince(fs, cutoff)
  {
    hide Since, OfDomain;
    assert q.Of(BrokerDomain) == q.broker && q.Of(RiskEngine) == q.risk && q.Of(Notification) == q.notification;
  }

  // ---------- Trading stays off after a trip ----------

  /** No call of the run lets trading resume early: no force_close, no resume after a halt. */
  ghost predicate NoEscape(events: seq<Event>) {
    && (forall i :: 0 <= i < |events| ==> events[i].op != Op.ForceClose)
    && (forall i, j :: 0 <= i < j < |events| ==> !(events[i].op == Op.Halt && events[j].op == Op.Resume))
  }

  lemma {:induction false} StaysDown(l: Limits, b: Breaker, events: seq<Event>, tripped: real)
    requires b.state == Open && b.openedAt == Some(tripped) && NoEscape(events)
    requires forall i :: 0 <= i < |events| ==> tripped <= events[i].now < tripped + l.recovery
    ensures var b' := RunFrom(l, b, events);
            && b'.openedAt.Some? && b'.openedAt.value >= tripped
            && (b'.state == Open || (b'.state == Halted && exists i :: 0 <= i < |events| && events[i].op == Op.Halt))
  {
    if events != [] {
      var front, last := events[..|events| - 1], events[|events| - 1];
      StaysDown(l, b, front, tripped);
      var m := RunFrom(l, b, front);
      if m.state == Halted {
        var i :| 0 <= i < |front| && front[i].op == Op.Halt;
        assert events[i].op == Op.Halt;
      }
      assert last.op == Op.Halt ==> events[|events| - 1].op == Op.Halt;
      hide DropOld, Trimmed;
    }
  }

  /** After a trip, trading is refused for the whole recovery timeout unless somebody escapes. */
  lemma TradingStaysOff(l: Limits, b: Breaker, events: seq<Event>, tripped: real, now: real)
    requires b.state == Open && b.openedAt == Some(tripped) && NoEscape(events)
    requires forall i :: 0 <= i < |events| ==> tripped <= events[i].now <= now
    requires tripped <= now < tripped + l.recovery
    ensures !TradingAllowed(Step(l, RunFrom(l, b, events), Query, now).state)
  {
    StaysDown(l, b, events, tripped);
  }

  /** Left alone, the breaker allows probing traffic exactly from the end of the timeout on. */
  lemma RecoveryIsTimed(l: Limits, b: Breaker, tripped: real, now: real)
    requires b.state == Open && b.openedAt == Some(tripped)
    ensures TradingAllowed(Step(l, b, Query, now).state) <==> now >= tripped + l.recovery
    ensures now >= tripped + l.recovery ==> Step(l, b, Query, now).state == HalfOpen
  {
    assert now - tripped >= l.recovery <==> now >= tripped + l.recovery;
  }

  // ---------- Probing, halting, audit history ----------

  /** While probing, failures never close or reopen; the n-th success closes exactly when n reaches the
      probe threshold. */
  function Successes(n: nat, now: real): seq<Event> {
    if n == 0 then [] else Successes(n - 1, now) + [Event(Op.RecordSuccess, now)]
  }

  lemma {:induction false} ProbesClose(l: Limits, b: Breaker, n: nat, now: real)
    requires b.state == HalfOpen && b.probeSuccesses == 0 && l.probes >= 1 && n <= l.probes
    ensures var b' := RunFrom(l, b, Successes(n, now));
            if n < l.probes then b'.state == HalfOpen && b'.probeSuccesses == n
            else b'.state == Closed && b'.queues == NO_FAILURES && b'.openedAt == None
  {
    if n > 0 {
      ProbesClose(l, b, n - 1, now);
      var events := Successes(n, now);
      assert events[..|events| - 1] == Successes(n - 1, now);
    }
  }

  /** A manual halt survives everything but resume, force_open and force_close. */
  lemma {:induction false} HaltHolds(l: Limits, b: Breaker, events: seq<Event>)
    requires b.state == Halted
    requires forall i :: 0 <= i < |events| ==> events[i].op !in {Op.Resume, Op.ForceOpen, Op.ForceClose}
    ensures RunFrom(l, b, events).state == Halted
  {
    if events != [] {
      HaltHolds(l, b, events[..|events| - 1]);
    }
  }

  lemma HaltLeftOnlyBy(l: Limits, b: Breaker, e: Event)
    requires b.state == Halted
    ensures Step(l, b, e.op, e.now).state != Halted <==> e.op in {Op.Resume, Op.ForceOpen, Op.ForceClose}
  {
  }

  ghost predicate IsSuffix<T>(s: seq<T>, whole: seq<T>) {
    |s| <= |whole| && whole[|whole| - |s|..] == s
  }

  lemma StepHistory(l: Limits, b: Breaker, e: Event)
    ensures Step(l, b, e.op, e.now).history
         == if e.op.RecordFailure? then Trimmed(b.history + [Failure(e.op.domain, e.now, e.op.error)]) else b.history
  {
    hide DropOld, Trimmed;
  }

  lemma AppendToSuffix(h: seq<Failure>, all: seq<Failure>, f: Failure)
    requires IsSuffix(h, all) && |h| <= HISTORY_LIMIT && (|h| >= HISTORY_KEPT || h == all)
    ensures var h' := Trimmed(h + [f]);
            IsSuffix(h', all + [f]) && |h'| <= HISTORY_LIMIT && (|h'| >= HISTORY_KEPT || h' == all + [f])
  {
    assert (all + [f])[|all| - |h|..] == h + [f];
  }

  /** How many of the `n` failures recorded so far the audit history still holds: it grows to 1000, and the next
      failure cuts it back to the last 500. */
  function HistoryLength(n: nat): nat {
    if n <= 1000 then n else 500 + (n - 1001) % 501
  }

  lemma LengthNext(n: nat)
    ensures HistoryLength(n + 1) == if HistoryLength(n) == 1000 then 500 else HistoryLength(n) + 1
    ensures HistoryLength(n) <= 1000
  {
  }

  lemma TrimmedLength(history: seq<Failure>, f: Failure)
    requires |history| <= 1000
    ensures |Trimmed(history + [f])| == if |history| == 1000 then 500 else |history| + 1
  {
  }

  /** The audit history is always a suffix of all failures ever recorded, and its length is decided by their
      number alone: at least the last 500 (or all, if fewer), never more than 1000. */
  lemma {:induction false} HistoryIsSuffix(l: Limits, events: seq<Event>)
    ensures var h, all := RunFrom(l, NEW, events).history, AllFailures(events);
            && IsSuffix(h, all) && |h| <= HISTORY_LIMIT && (|h| >= HISTORY_KEPT || h == all)
            && |h| == HistoryLength(|all|)
  {
    if events == [] {
      NothingYet(l);
    } else {
      var front, last := events[..|events| - 1], events[|events| - 1];
      HistoryIsSuffix(l, front);
      var b, all := RunFrom(l, NEW, front), AllFailures(front);
      RunSnoc(l, events);
      FailuresSnoc(events);
      HistoryStep(l, b, all, last);
      hide RunFrom, AllFailures, Step, IsSuffix, HistoryLength;
    }
  }

  lemma NothingYet(l: Limits)
    ensures RunFrom(l, NEW, []).history == AllFailures([]) == []
  {
  }

  lemma RunSnoc(l: Limits, events: seq<Event>)
    requires events != []
    ensures var front, last := events[..|events| - 1], events[|events| - 1];
            RunFrom(l, NEW, events) == Step(l, RunFrom(l, NEW, front), last.op, last.now)
  {
    hide Step;
  }

  lemma FailuresSnoc(events: seq<Event>)
    requires events != []
    ensures var front, last := events[..|events| - 1], events[|events| - 1];
            AllFailures(events)
            == AllFailures(front) + if last.op.RecordFailure? then [Failure(last.op.domain, last.now, last.op.error)] else []
  {
  }

  lemma HistoryStep(l: Limits, b: Breaker, all: seq<Failure>, e: Event)
    requires IsSuffix(b.history, all) && |b.history| <= HISTORY_LIMIT && (|b.history| >= HISTORY_KEPT || b.history == all)
    requires |b.history| == HistoryLength(|all|)
    ensures var h := Step(l, b, e.op, e.now).history;
            var all' := all + if e.op.RecordFailure? then [Failure(e.op.domain, e.now, e.op.error)] else [];
            && IsSuffix(h, all') && |h| <= HISTORY_LIMIT && (|h| >= HISTORY_KEPT || h == all')
            && |h| == HistoryLength(|all'|)
  {
    StepHistory(l, b, e);
    hide Step, Trimmed, IsSuffix, HistoryLength;
    if e.op.RecordFailure? {
      LengthNext(|all|);
      TrimmedLength(b.history, Failure(e.op.domain, e.now, e.op.error));
      AppendToSuffix(b.history, all, Failure(e.op.domain, e.now, e.op.error));
    } else {
      assert all + [] == all;
    }
  }

  lemma SuffixTails(h: seq<Failure>, all: seq<Failure>, limit: int)
    requires IsSuffix(h, all) && limit >= 1
    ensures Tail(h, limit) == Tail(all, limit) <==> limit <= |h| || h == all
  {
    var gap := |all| - |h|;
    assert h == all[gap..];
    if limit <= |h| {
      assert h[|h| - limit..] == all[|all| - limit..];
    }
  }

  /** What the failure history shows for a positive limit: the last `limit` failures of the whole run, exactly
      if the kept history is that long or complete; for limits up to 500 it always is. */
  lemma HistoryShowsLastFailures(l: Limits, events: seq<Event>, limit: int)
    requires limit >= 1
    ensures var h, all := RunFrom(l, NEW, events).history, AllFailures(events);
            && (Tail(h, limit) == Tail(all, limit) <==> limit <= |h| || h == all)
            && (limit <= HISTORY_KEPT ==> Tail(h, limit) == Tail(all, limit))
  {
    hide RunFrom, AllFailures, IsSuffix, Tail;
    HistoryIsSuffix(l, events);
    SuffixTails(RunFrom(l, NEW, events).history, AllFailures(events), limit);
  }

  // ---------- Manual calls ----------

  /** Some halt has not been followed by resume, force_open or force_close. */
  ghost predicate HaltInForce(events: seq<Event>) {
    exists i :: 0 <= i < |events| && events[i].op == Op.Halt
             && forall j :: i < j < |events| ==> events[j].op !in {Op.Resume, Op.ForceOpen, Op.ForceClose}
  }

  lemma HaltInForceSnoc(events: seq<Event>, e: Event)
    ensures HaltInForce(events + [e]) <==>
              e.op == Op.Halt || (HaltInForce(events) && e.op !in {Op.Resume, Op.ForceOpen, Op.ForceClose})
  {
    var all := events + [e];
    if e.op == Op.Halt {
      assert all[|events|].op == Op.Halt;
    }
    if HaltInForce(all) && e.op != Op.Halt {
      var i :| 0 <= i < |all| && all[i].op == Op.Halt
            && forall j :: i < j < |all| ==> all[j].op !in {Op.Resume, Op.ForceOpen, Op.ForceClose};
      assert events[i].op == Op.Halt && all[|events|].op == e.op;
      assert forall j :: i < j < |events| ==> all[j] == events[j];
    }
    if HaltInForce(events) && e.op !in {Op.Resume, Op.ForceOpen, Op.ForceClose} {
      var i :| 0 <= i < |events| && events[i].op == Op.Halt
            && forall j :: i < j < |events| ==> events[j].op !in {Op.Resume, Op.ForceOpen, Op.ForceClose};
      assert all[i].op == Op.Halt;
    }
  }

  /** After any run of a new breaker the state is HALTED exactly if the last call among halt, resume, force_open
      and force_close was a halt; and then trading is refused, whenever asked. */
  lemma {:induction false} HaltedExactlyWhen(l: Limits, events: seq<Event>)
    ensures RunFrom(l, NEW, events).state == Halted <==> HaltInForce(events)
    ensures HaltInForce(events) ==> forall now: real :: !TradingAllowed(Step(l, RunFrom(l, NEW, events), Query, now).state)
  {
    if events == [] {
      assert RunFrom(l, NEW, events) == NEW;
    } else {
      var front, e := events[..|events| - 1], events[|events| - 1];
      HaltedExactlyWhen(l, front);
      assert events == front + [e];
      HaltInForceSnoc(front, e);
      RunSnoc(l, events);
      HaltStep(l, RunFrom(l, NEW, front), e);
      HaltedRefuses(l, RunFrom(l, NEW, events));
    }
    hide HaltInForce, Step, RunFrom;
  }

  lemma HaltStep(l: Limits, b: Breaker, e: Event)
    ensures Step(l, b, e.op, e.now).state == Halted <==>
              e.op == Op.Halt || (b.state == Halted && e.op !in {Op.Resume, Op.ForceOpen, Op.ForceClose})
  {
    hide DropOld, Trimmed;
  }

  lemma HaltedRefuses(l: Limits, b: Breaker)
    ensures b.state == Halted ==> forall now: real :: !TradingAllowed(Step(l, b, Query, now).state)
  {
  }

  /** What the four manual calls do in every state. Halt and resume touch the state alone. */
  lemma ManualCalls(l: Limits, b: Breaker, now: real)
    ensures Step(l, b, Op.Halt, now) == b.(state := Halted)
    ensures Step(l, b, Op.Resume, now) == b.(state := if b.state == Halted then Closed else b.state)
    ensures var b' := Step(l, b, Op.ForceOpen, now);
            && b'.state == Open && b'.queues == b.queues && b'.history == b.history && b'.recoveries == b.recoveries
            && (b.state != Open ==> b'.openedAt == Some(now) && b'.probeSuccesses == 0 && b'.trips == b.trips + 1)
            && (b.state == Open ==> b' == b)
    ensures var b' := Step(l, b, Op.ForceClose, now);
            && b'.state == Closed && b'.openedAt == None && b'.probeSuccesses == 0
            && b'.queues.broker == b'.queues.risk == b'.queues.notification == []
            && b'.history == b.history && b'.trips == b.trips && b'.recoveries == b.recoveries + 1
  {
  }

  /** An open or probing breaker of a run knows when it opened. */
  lemma {:induction false} OpenedAtKnown(l: Limits, events: seq<Event>)
    ensures var b := RunFrom(l, NEW, events); b.state == Open || b.state == HalfOpen ==> b.openedAt.Some?
  {
    if events != [] {
      OpenedAtKnown(l, events[..|events| - 1]);
      RunSnoc(l, events);
      hide DropOld, Trimmed, RunFrom;
    } else {
      assert RunFrom(l, NEW, events) == NEW;
    }
  }

  /** After force_open in any state but OPEN, probing included, trading is refused for a whole recovery timeout
      unless force_close or halt-then-resume intervenes. */
  lemma ForceOpenStartsTimeout(l: Limits, events: seq<Event>, since: real, later: seq<Event>, now: real)
    requires RunFrom(l, NEW, events).state != Open && NoEscape(later)
    requires forall i :: 0 <= i < |later| ==> since <= later[i].now <= now
    requires since <= now < since + l.recovery
    ensures var b := Step(l, RunFrom(l, NEW, events), Op.ForceOpen, since);
            !TradingAllowed(Step(l, RunFrom(l, b, later), Query, now).state)
  {
    var b := Step(l, RunFrom(l, NEW, events), Op.ForceOpen, since);
    ManualCalls(l, RunFrom(l, NEW, events), since);
    hide Step, RunFrom;
    TradingStaysOff(l, b, later, since, now);
  }

  /** After force_close trading is allowed, whenever asked, and no failure recorded before counts any more. */
  lemma ForceCloseStartsAfresh(l: Limits, events: seq<Event>, closed: real, now: real)
    ensures var after := events + [Event(Op.ForceClose, closed)];
            && TradingAllowed(Step(l, RunFrom(l, NEW, after), Query, now).state)
            && SinceClear(l, after) == []
  {
    assert (events + [Event(Op.ForceClose, closed)])[..|events|] == events;
  }

  /** Resume lets trading go on at once exactly if the breaker was halted or trading was allowed anyway. */
  lemma ResumeReopensExactlyWhen(l: Limits, events: seq<Event>, now: real)
    ensures var b := RunFrom(l, NEW, events);
            TradingAllowed(Step(l, b, Op.Resume, now).state) <==> HaltInForce(events) || TradingAllowed(b.state)
  {
    HaltedExactlyWhen(l, events);
    hide RunFrom, HaltInForce;
  }

  // ---------- Timeout and probes ----------

  /** The end of the recovery timeout is noticed by reading calls and by successes, of which the first one then
      counts as a probe; a failure never notices it. */
  lemma TimeoutNoticedBy(l: Limits, b: Breaker, since: real, now: real, error: string, d: Domain)
    requires b.state == Open && b.openedAt == Some(since)
    ensures var over := now - since >= l.recovery;
            && Step(l, b, Query, now) == (if over then b.(state := HalfOpen, probeSuccesses := 0) else b)
            && Step(l, b, Status, now).state == (if over then HalfOpen else Open)
            && Step(l, b, Op.RecordFailure(d, error), now).state == Open
            && var s := Step(l, b, Op.RecordSuccess, now);
            if !over then s == b
            else if l.probes <= 1 then s.state == Closed && s.queues == NO_FAILURES
            else s.state == HalfOpen && s.probeSuccesses == 1
  {
    hide DropOld, Trimmed;
  }

  function CountSuccesses(events: seq<Event>): nat {
    if events == [] then 0
    else CountSuccesses(events[..|events| - 1]) + if events[|events| - 1].op == Op.RecordSuccess then 1 else 0
  }

  predicate Manual(op: Op) {
    op in {Op.Halt, Op.Resume, Op.ForceOpen, Op.ForceClose}
  }

  /** While probing, whatever failures and readings come in between, the breaker stays HALF_OPEN and counts the
      successes until they reach the probe threshold; the success that reaches it closes the breaker and
      clears the queues. */
  lemma {:induction false} ProbingCountsSuccesses(l: Limits, b: Breaker, events: seq<Event>, now: real)
    requires b.state == HalfOpen && b.probeSuccesses == 0
    requires (forall i :: 0 <= i < |events| ==> !Manual(events[i].op)) && CountSuccesses(events) < l.probes
    ensures var b' := RunFrom(l, b, events);
            && b'.state == HalfOpen && b'.probeSuccesses == CountSuccesses(events)
            && var s := Step(l, b', Op.RecordSuccess, now);
            if CountSuccesses(events) + 1 < l.probes then s.state == HalfOpen
            else s.state == Closed && s.queues == NO_FAILURES && s.openedAt == None
  {
    if events != [] {
      ProbingCountsSuccesses(l, b, events[..|events| - 1], now);
      hide DropOld, Trimmed;
    }
  }
}
