/** The token-bucket limiter of src/broker/alpaca_client.py. Calls are serialised by its lock, which is
    held while sleeping; a run is therefore a sequence of non-overlapping calls, each with the clock
    reading it starts from and the moment it returns. */
module RateLimiter {
  import opened Common

  /** `stampLate` is false for the code as written (the refill stamp is the reading taken before the
      sleep) and true for the variant that stamps after it. */
  datatype Policy = Policy(max: int, window: real, stampLate: bool) {
    ghost predicate Valid() {
      max >= 1 && window > 0.0
    }

    function Rate(): real
      requires Valid()
    {
      max as real / window
    }

    function Period(): real
      requires Valid()
    {
      window / max as real
    }
  }

  datatype Bucket = Bucket(tokens: real, stamp: real)

  datatype Call = Call(start: real, done: real)

  function Refilled(p: Policy, b: Bucket, now: real): real
    requires p.Valid()
  {
    Min(p.max as real, b.tokens + Scale(p.Rate(), now - b.stamp))
  }

  function Wait(p: Policy, b: Bucket, now: real): real
    requires p.Valid()
  {
    var t := Refilled(p, b, now);
    if t < 1.0 then Scale(p.Period(), 1.0 - t) else 0.0
  }

  function After(p: Policy, b: Bucket, c: Call): Bucket
    requires p.Valid()
  {
    var t := Refilled(p, b, c.start);
    if t < 1.0 then Bucket(0.0, if p.stampLate then c.done else c.start)
    else Bucket(t - 1.0, c.start)
  }

  class Limiter {
    const policy: Policy
    var tokens: real
    var lastRefill: real

    ghost predicate Valid()
      reads this
    {
      policy.Valid() && !policy.stampLate && 0.0 <= tokens <= policy.max as real
    }

    ghost function State(): Bucket
      reads this
    {
      Bucket(tokens, lastRefill)
    }

    constructor (maxRequests: int, window: real, now: real)
      requires maxRequests >= 1 && window > 0.0
      ensures Valid() && policy == Policy(maxRequests, window, false)
      ensures State() == Bucket(maxRequests as real, now)
    {
      policy := Policy(maxRequests, window, false);
      tokens := maxRequests as real;
      lastRefill := now;
    }

    /** One call: `now` is the clock reading taken under the lock, `wait` how long it then sleeps. */
    method Acquire(now: real) returns (wait: real)
      requires Valid() && lastRefill <= now
      modifies this`tokens, this`lastRefill
      ensures Valid()
      ensures wait == Wait(policy, old(State()), now)
      ensures 0.0 <= wait <= policy.Period()
      ensures State() == After(policy, old(State()), Call(now, now + wait))
    {
      ghost var before := State();
      var elapsed := now - lastRefill;
      var refill := Scale(policy.Rate(), elapsed);
      RefilledBounds(policy, before, now);
      WaitBounds(policy, before, now);
      hide Scale;
      tokens := Min(policy.max as real, tokens + refill);
      lastRefill := now;
      if tokens < 1.0 {
        wait := Scale(policy.Period(), 1.0 - tokens);
        tokens := 0.0;
      } else {
        wait := 0.0;
        tokens := tokens - 1.0;
      }
    }
  }

  // ---------- Runs ----------

  ghost predicate InRange(p: Policy, b: Bucket) {
    0.0 <= b.tokens <= p.max as real
  }

  /** Bucket after a run of calls. */
  function Settle(p: Policy, b: Bucket, calls: seq<Call>): Bucket
    requires p.Valid()
  {
    if calls == [] then b
    else After(p, Settle(p, b, calls[..|calls| - 1]), calls[|calls| - 1])
  }

  /** A run the clock allows: calls follow one another, each sleeps at least as long as it must. */
  ghost predicate Feasible(p: Policy, b: Bucket, calls: seq<Call>)
    requires p.Valid()
  {
    calls != [] ==>
      var front, last := calls[..|calls| - 1], calls[|calls| - 1];
      && Feasible(p, b, front)
      && (if front == [] then b.stamp <= last.start else front[|front| - 1].done <= last.start)
      && last.start + Wait(p, Settle(p, b, front), last.start) <= last.done
  }

  function Slept(p: Policy, b: Bucket, calls: seq<Call>): real
    requires p.Valid()
  {
    if calls == [] then 0.0
    else
      var front, last := calls[..|calls| - 1], calls[|calls| - 1];
      Slept(p, b, front) + Wait(p, Settle(p, b, front), last.start)
  }

  lemma RatePositive(p: Policy)
    requires p.Valid()
    ensures p.Rate() > 0.0 && p.Period() > 0.0
    ensures forall x: real {:trigger Scale(p.Rate(), Scale(p.Period(), x))} :: Scale(p.Rate(), Scale(p.Period(), x)) == x
  {
    DivPos(p.max as real, p.window);
    DivPos(p.window, p.max as real);
    var m, w := p.max as real, p.window;
    forall x: real ensures Scale(p.Rate(), Scale(p.Period(), x)) == x {
      assert (m / w) * (w / m) == 1.0 by {
        DivMul(m, w);
        DivMul(w, m);
        assert (m / w) * (w / m) * m == (m / w) * w;
      }
      MulAssoc(m / w, w / m, x);
    }
  }

  lemma ScaleMono(r: real, x: real, y: real)
    requires r >= 0.0 && x <= y
    ensures Scale(r, x) <= Scale(r, y)
  {
    MulNonneg(r, y - x);
    MulDistributes(r, x, y - x);
  }

  lemma ScaleZero(r: real)
    ensures Scale(r, 0.0) == 0.0
  {
  }

  lemma RefilledBounds(p: Policy, b: Bucket, now: real)
    requires p.Valid() && InRange(p, b) && b.stamp <= now
    ensures b.tokens <= Refilled(p, b, now) <= p.max as real
  {
    RatePositive(p);
    ScaleMono(p.Rate(), 0.0, now - b.stamp);
    ScaleZero(p.Rate());
  }

  /** No call sleeps longer than one token's worth. */
  lemma WaitBounds(p: Policy, b: Bucket, now: real)
    requires p.Valid() && InRange(p, b) && b.stamp <= now
    ensures 0.0 <= Wait(p, b, now) <= p.Period()
    ensures Scale(p.Rate(), Wait(p, b, now)) == Max(0.0, 1.0 - Refilled(p, b, now))
  {
    RatePositive(p);
    RefilledBounds(p, b, now);
    var t := Refilled(p, b, now);
    ScaleZero(p.Rate());
    ScaleZero(p.Period());
    if t < 1.0 {
      ScaleMono(p.Period(), 0.0, 1.0 - t);
      ScaleMono(p.Period(), 1.0 - t, 1.0);
      assert Scale(p.Period(), 1.0) == p.Period();
    }
  }

  /** Tokens stay within the bucket on every run, and the stamp never runs ahead of the clock. */
  lemma {:induction false} TokensInRange(p: Policy, b: Bucket, calls: seq<Call>)
    requires p.Valid() && InRange(p, b) && Feasible(p, b, calls)
    ensures InRange(p, Settle(p, b, calls))
    ensures calls != [] ==>
              var last := calls[|calls| - 1]; Settle(p, b, calls).stamp <= last.done && last.start <= last.done
    ensures calls != [] ==> b.stamp <= calls[0].start && calls[0].start <= Settle(p, b, calls).stamp
  {
    if calls != [] {
      var front, last := calls[..|calls| - 1], calls[|calls| - 1];
      TokensInRange(p, b, front);
      var s := Settle(p, b, front);
      RefilledBounds(p, s, last.start);
      WaitBounds(p, s, last.start);
    }
  }

  /** Sleeps are disjoint in time, so together they fit into the run. */
  lemma {:induction false} SleptFits(p: Policy, b: Bucket, calls: seq<Call>)
    requires p.Valid() && InRange(p, b) && Feasible(p, b, calls) && calls != []
    ensures 0.0 <= Slept(p, b, calls) <= calls[|calls| - 1].done - calls[0].start
  {
    var front, last := calls[..|calls| - 1], calls[|calls| - 1];
    TokensInRange(p, b, front);
    WaitBounds(p, Settle(p, b, front), last.start);
    if front != [] {
      SleptFits(p, b, front);
    }
  }

  /** Token ledger: every grant was paid for by the initial bucket, by refill up to the last stamp, or
      by its own sleep; with the late stamp a sleep is only paid for once, as refill. */
  lemma {:induction false} Ledger(p: Policy, b: Bucket, calls: seq<Call>)
    requires p.Valid() && InRange(p, b) && Feasible(p, b, calls) && calls != []
    ensures var s := Settle(p, b, calls);
            |calls| as real + s.tokens
            <= p.max as real + Scale(p.Rate(), s.stamp - calls[0].start)
               + if p.stampLate then 0.0 else Scale(p.Rate(), Slept(p, b, calls))
  {
    var front, last := calls[..|calls| - 1], calls[|calls| - 1];
    var s, s' := Settle(p, b, front), Settle(p, b, calls);
    var r, w := p.Rate(), Wait(p, Settle(p, b, front), last.start);
    TokensInRange(p, b, front);
    RefilledBounds(p, s, last.start);
    WaitBounds(p, s, last.start);
    RatePositive(p);
    ScaleZero(r);
    assert Slept(p, b, calls) == Slept(p, b, front) + w;
    ScaleAdd(r, Slept(p, b, front), w);
    assert last.start + w <= last.done;
    ScaleMono(r, last.start + w, last.done);
    if front == [] {
      ScaleMono(r, w, last.done - last.start);
    } else {
      Ledger(p, b, front);
      ScaleAdd(r, s.stamp - calls[0].start, last.start - s.stamp);
      if p.stampLate && w > 0.0 {
        ScaleAdd(r, last.start - calls[0].start, last.done - last.start);
        ScaleMono(r, w, last.done - last.start);
      }
    }
  }

  /** Upper bound on every run, and on every stretch of a run, since the bucket a stretch starts from is
      arbitrary: sleeping time is credited twice. */
  lemma GrantBound(p: Policy, b: Bucket, calls: seq<Call>)
    requires p.Valid() && InRange(p, b) && Feasible(p, b, calls) && calls != []
    ensures |calls| as real
         <= p.max as real + Scale(if p.stampLate then p.Rate() else 2.0 * p.Rate(), calls[|calls| - 1].done - calls[0].start)
  {
    Ledger(p, b, calls);
    SleptFits(p, b, calls);
    TokensInRange(p, b, calls);
    RatePositive(p);
    var elapsed := calls[|calls| - 1].done - calls[0].start;
    ScaleMono(p.Rate(), Settle(p, b, calls).stamp - calls[0].start, elapsed);
    ScaleMono(p.Rate(), Slept(p, b, calls), elapsed);
    assert Scale(2.0 * p.Rate(), elapsed) == Scale(p.Rate(), elapsed) + Scale(p.Rate(), elapsed);
  }

  // ---------- Grants by a deadline ----------

  function GrantsBy(calls: seq<Call>, deadline: real): nat {
    if calls == [] then 0
    else GrantsBy(calls[..|calls| - 1], deadline) + if calls[|calls| - 1].done <= deadline then 1 else 0
  }

  /** The grants made by a deadline are the first ones of the run. */
  lemma {:induction false} GrantsAreAPrefix(p: Policy, b: Bucket, calls: seq<Call>, deadline: real)
    requires p.Valid() && InRange(p, b) && Feasible(p, b, calls)
    ensures var n := GrantsBy(calls, deadline);
            n <= |calls| && Feasible(p, b, calls[..n]) && (n > 0 ==> calls[n - 1].done <= deadline)
    ensures calls != [] && calls[|calls| - 1].done <= deadline ==> GrantsBy(calls, deadline) == |calls|
  {
    if calls == [] {
      return;
    }
    var front, last := calls[..|calls| - 1], calls[|calls| - 1];
    GrantsAreAPrefix(p, b, front, deadline);
    TokensInRange(p, b, calls);
    var n := GrantsBy(calls, deadline);
    if last.done <= deadline {
      assert n == |calls| && calls[..n] == calls;
    } else {
      assert calls[..n] == front[..n];
    }
  }

  /** From creation to any later moment: at most the bucket plus twice the advertised rate. */
  lemma GrantsByDeadline(p: Policy, created: real, calls: seq<Call>, deadline: real)
    requires p.Valid() && created <= deadline
    requires Feasible(p, Bucket(p.max as real, created), calls)
    ensures GrantsBy(calls, deadline) as real
         <= p.max as real + Scale(if p.stampLate then p.Rate() else 2.0 * p.Rate(), deadline - created)
  {
    var b, n := Bucket(p.max as real, created), GrantsBy(calls, deadline);
    GrantsAreAPrefix(p, b, calls, deadline);
    RatePositive(p);
    var rate := if p.stampLate then p.Rate() else 2.0 * p.Rate();
    ScaleZero(rate);
    ScaleMono(rate, 0.0, deadline - created);
    if n > 0 {
      GrantBound(p, b, calls[..n]);
      TokensInRange(p, b, calls[..n]);
      ScaleMono(rate, calls[n - 1].done - calls[0].start, deadline - created);
    }
  }

  // ---------- The bound is attained ----------

  /** `n` calls at one moment, none of them sleeping. */
  function Together(n: nat, now: real): (r: seq<Call>)
    ensures |r| == n && forall i :: 0 <= i < n ==> r[i] == Call(now, now)
  {
    if n == 0 then [] else Together(n - 1, now) + [Call(now, now)]
  }

  /** After the burst, `rounds` pairs of calls: one that sleeps a full period, one right behind it. */
  function Greedy(p: Policy, rounds: nat): seq<Call>
    requires p.Valid()
  {
    if rounds == 0 then Together(p.max, 0.0)
    else
      var t := Scale((rounds - 1) as real, p.Period());
      Greedy(p, rounds - 1) + [Call(t, t + p.Period()), Call(t + p.Period(), t + p.Period())]
  }

  lemma FeasibleSnoc(p: Policy, b: Bucket, calls: seq<Call>, c: Call)
    requires p.Valid() && Feasible(p, b, calls)
    requires if calls == [] then b.stamp <= c.start else calls[|calls| - 1].done <= c.start
    requires c.start + Wait(p, Settle(p, b, calls), c.start) <= c.done
    ensures Feasible(p, b, calls + [c])
    ensures Settle(p, b, calls + [c]) == After(p, Settle(p, b, calls), c)
  {
    assert (calls + [c])[..|calls|] == calls;
  }

  lemma {:induction false} TogetherRuns(p: Policy, b: Bucket, now: real, n: nat)
    requires p.Valid() && InRange(p, b) && b.stamp <= now && n as real <= Refilled(p, b, now)
    ensures var calls := Together(n, now);
            && Feasible(p, b, calls) && Slept(p, b, calls) == 0.0
            && Settle(p, b, calls) == if n == 0 then b else Bucket(Refilled(p, b, now) - n as real, now)
  {
    hide Scale, Policy.Rate, Policy.Period;
    if n > 0 {
      TogetherRuns(p, b, now, n - 1);
      ScaleZero(p.Rate());
      RefilledBounds(p, b, now);
      var front, s := Together(n - 1, now), Settle(p, b, Together(n - 1, now));
      assert Refilled(p, s, now) == Refilled(p, b, now) - (n - 1) as real;
      FeasibleSnoc(p, b, front, Call(now, now));
      assert Together(n, now)[..n - 1] == front;
    }
  }

  lemma NextMultiple(k: nat, period: real)
    ensures Scale((k + 1) as real, period) == Scale(k as real, period) + period
  {
  }

  lemma {:induction false} GreedyRuns(p: Policy, rounds: nat)
    requires p.Valid() && !p.stampLate
    ensures var b, t := Bucket(p.max as real, 0.0), Scale(rounds as real, p.Period());
            && |Greedy(p, rounds)| == p.max + 2 * rounds
            && Feasible(p, b, Greedy(p, rounds))
            && Settle(p, b, Greedy(p, rounds)) == Bucket(0.0, t)
            && Greedy(p, rounds)[|Greedy(p, rounds)| - 1].done == t
  {
    var b := Bucket(p.max as real, 0.0);
    if rounds == 0 {
      ScaleZero(p.Rate());
      ScaleZero(p.Period());
      assert Scale(0 as real, p.Period()) == 0.0;
      TogetherRuns(p, b, 0.0, p.max);
    } else {
      GreedyRuns(p, rounds - 1);
      NextMultiple(rounds - 1, p.Period());
      GreedyRound(p, b, Greedy(p, rounds - 1), Scale((rounds - 1) as real, p.Period()));
    }
  }

  /** An empty bucket at time `t`: the next call sleeps one period, and the token refilled meanwhile
      lets the one after it through at once. */
  lemma GreedyRound(p: Policy, b: Bucket, calls: seq<Call>, t: real)
    requires p.Valid() && !p.stampLate && calls != [] && Feasible(p, b, calls)
    requires Settle(p, b, calls) == Bucket(0.0, t) && calls[|calls| - 1].done == t
    ensures var more := calls + [Call(t, t + p.Period()), Call(t + p.Period(), t + p.Period())];
            Feasible(p, b, more) && Settle(p, b, more) == Bucket(0.0, t + p.Period())
  {
    var first, second := Call(t, t + p.Period()), Call(t + p.Period(), t + p.Period());
    RatePositive(p);
    ScaleZero(p.Rate());
    assert Scale(p.Period(), 1.0) == p.Period();
    assert Scale(p.Rate(), Scale(p.Period(), 1.0)) == 1.0;
    hide Scale, Policy.Rate, Policy.Period;
    FeasibleSnoc(p, b, calls, first);
    assert Settle(p, b, calls + [first]) == Bucket(0.0, t);
    FeasibleSnoc(p, b, calls + [first], second);
    assert calls + [first] + [second] == calls + [first, second];
  }

  /** The code's bound cannot be improved: for every number of rounds some run makes exactly that many
      grants, the bucket plus twice the rate, by the end of the last round. */
  lemma BoundAttained(p: Policy, rounds: nat)
    requires p.Valid() && !p.stampLate
    ensures var t := Scale(rounds as real, p.Period());
            && Feasible(p, Bucket(p.max as real, 0.0), Greedy(p, rounds))
            && GrantsBy(Greedy(p, rounds), t) == p.max + 2 * rounds
            && (p.max + 2 * rounds) as real == p.max as real + Scale(2.0 * p.Rate(), t)
  {
    GreedyRuns(p, rounds);
    var t := Scale(rounds as real, p.Period());
    GrantsAreAPrefix(p, Bucket(p.max as real, 0.0), Greedy(p, rounds), t);
    RatePositive(p);
    assert Scale(p.Period(), rounds as real) == t;
    assert Scale(p.Rate(), t) == rounds as real;
    assert Scale(2.0 * p.Rate(), t) == 2.0 * Scale(p.Rate(), t);
  }

  /** "max_requests per window" is exceeded threefold: some run makes 3 * max grants within the first window. */
  lemma FirstWindowCanTriple(p: Policy)
    requires p.Valid() && !p.stampLate
    ensures Feasible(p, Bucket(p.max as real, 0.0), Greedy(p, p.max))
    ensures GrantsBy(Greedy(p, p.max), p.window) == 3 * p.max
  {
    assert Scale(p.max as real, p.Period()) == p.window by {
      DivMul(p.window, p.max as real);
    }
    hide Scale, Policy.Rate, Policy.Period;
    BoundAttained(p, p.max);
  }

  // ---------- What keeps the advertised rate ----------

  /** A run in which no call sleeps keeps the advertised rate under either policy. */
  lemma GrantBoundWithoutSleep(p: Policy, b: Bucket, calls: seq<Call>)
    requires p.Valid() && InRange(p, b) && Feasible(p, b, calls) && calls != [] && Slept(p, b, calls) == 0.0
    ensures |calls| as real <= p.max as real + Scale(p.Rate(), calls[|calls| - 1].done - calls[0].start)
  {
    Ledger(p, b, calls);
    TokensInRange(p, b, calls);
    RatePositive(p);
    ScaleZero(p.Rate());
    ScaleMono(p.Rate(), Settle(p, b, calls).stamp - calls[0].start, calls[|calls| - 1].done - calls[0].start);
  }

  /** On this run from creation, grants by this deadline are within the bucket plus the advertised rate. */
  ghost predicate WithinAdvertised(p: Policy, created: real, calls: seq<Call>, deadline: real)
    requires p.Valid()
  {
    created <= deadline && Feasible(p, Bucket(p.max as real, created), calls) ==>
      GrantsBy(calls, deadline) as real <= p.max as real + Scale(p.Rate(), deadline - created)
  }

  /** A limiter keeps the advertised rate on every run exactly if it takes its stamp after the sleep. */
  lemma AdvertisedRateExactlyWhenStampedLate(p: Policy)
    requires p.Valid()
    ensures (forall created: real, calls: seq<Call>, deadline: real :: WithinAdvertised(p, created, calls, deadline))
       <==> p.stampLate
  {
    hide Scale, Policy.Rate, Policy.Period, Feasible, GrantsBy;
    if p.stampLate {
      forall created: real, calls: seq<Call>, deadline: real ensures WithinAdvertised(p, created, calls, deadline) {
        if created <= deadline && Feasible(p, Bucket(p.max as real, created), calls) {
          GrantsByDeadline(p, created, calls, deadline);
        }
      }
    } else {
      RatePositive(p);
      BoundAttained(p, 1);
      OnePeriod(p);
      var t := p.Period();
      assert t - 0.0 == t;
      assert !WithinAdvertised(p, 0.0, Greedy(p, 1), t);
    }
  }

  lemma OnePeriod(p: Policy)
    requires p.Valid()
    ensures Scale(1 as real, p.Period()) == p.Period() && Scale(p.Rate(), p.Period()) == 1.0
  {
    RatePositive(p);
    assert Scale(p.Period(), 1.0) == p.Period();
    assert Scale(p.Rate(), Scale(p.Period(), 1.0)) == 1.0;
  }

  // ---------- The bucket refills ----------

  /** After an idle gap, as many calls as the bucket then holds tokens go through at one moment without
      sleeping: the tokens left before the gap plus max / window for each unit of time, at most max. */
  lemma IdleBucketRefills(p: Policy, b: Bucket, gap: real, n: nat)
    requires p.Valid() && InRange(p, b) && gap >= 0.0
    requires 1 <= n <= p.max && n as real <= b.tokens + p.max as real / p.window * gap
    ensures var calls, held := Together(n, b.stamp + gap), b.tokens + p.max as real / p.window * gap;
            && Feasible(p, b, calls) && Slept(p, b, calls) == 0.0
            && Settle(p, b, calls)
            == Bucket((if held <= p.max as real then held else p.max as real) - n as real, b.stamp + gap)
  {
    assert Scale(p.Rate(), gap) == p.max as real / p.window * gap;
    assert b.stamp + gap - b.stamp == gap;
    hide Scale, Policy.Rate, Settle, Feasible, Slept;
    TogetherRuns(p, b, b.stamp + gap, n);
  }

  /** After an idle window max_requests calls go through at once, whatever the bucket held before. */
  lemma IdleWindowRefillsAll(p: Policy, b: Bucket)
    requires p.Valid() && InRange(p, b)
    ensures var calls := Together(p.max, b.stamp + p.window);
            Feasible(p, b, calls) && Slept(p, b, calls) == 0.0 && Settle(p, b, calls) == Bucket(0.0, b.stamp + p.window)
  {
    hide Settle, Feasible, Slept, Together;
    DivMul(p.max as real, p.window);
    var all := p.max as real / p.window * p.window;
    assert all == p.max as real && b.tokens >= 0.0;
    IdleBucketRefills(p, b, p.window, p.max);
  }

  /** Every call returns as soon as its sleep is over. */
  ghost predicate Prompt(p: Policy, b: Bucket, calls: seq<Call>)
    requires p.Valid()
  {
    calls != [] ==>
      var front, last := calls[..|calls| - 1], calls[|calls| - 1];
      Prompt(p, b, front) && last.done == last.start + Wait(p, Settle(p, b, front), last.start)
  }

  /** Time spent inside the calls. */
  function Inside(calls: seq<Call>): real {
    if calls == [] then 0.0
    else Inside(calls[..|calls| - 1]) + (calls[|calls| - 1].done - calls[|calls| - 1].start)
  }

  /** Time a run has been credited for by some moment: with the early stamp, time inside calls counts twice. */
  function Credited(p: Policy, b: Bucket, calls: seq<Call>, moment: real): real {
    moment - b.stamp + if p.stampLate then 0.0 else Inside(calls)
  }

  /** The cap never binds: before each call, the tokens credited since the start less the calls made so far
      are within the bucket. Told from times and counts. */
  ghost predicate CapNeverBinds(p: Policy, b: Bucket, calls: seq<Call>)
    requires p.Valid()
  {
    calls != [] ==>
      var front, last := calls[..|calls| - 1], calls[|calls| - 1];
      && CapNeverBinds(p, b, front)
      && b.tokens + Scale(p.Rate(), Credited(p, b, front, last.start)) - |front| as real <= p.max as real
  }

  /** One call against the ledger: with `credit` the time credited by its start, it keeps what is missing from
      the ledger and adds what the cap cuts off. */
  lemma LedgerStep(p: Policy, s: Bucket, c: Call, before: real, credit: real)
    requires p.Valid() && InRange(p, s) && s.stamp <= c.start && c.done == c.start + Wait(p, s, c.start)
    ensures var r, s' := p.Rate(), After(p, s, c);
            var paid := before + Scale(r, credit + (c.start - s.stamp));
            var spent := if p.stampLate then s'.stamp - c.start else c.done - c.start;
            var uncut := s.tokens + Scale(r, c.start - s.stamp);
            var cut := if uncut <= p.max as real then 0.0 else uncut - p.max as real;
            && s'.stamp - c.start == (if p.stampLate then c.done - c.start else 0.0)
            && cut >= 0.0
            && before + Scale(r, credit + (c.start - s.stamp) + spent) - (1.0 + s'.tokens)
            == before + Scale(r, credit) - s.tokens + cut
  {
    var r, gap, w := p.Rate(), c.start - s.stamp, Wait(p, s, c.start);
    RatePositive(p);
    WaitBounds(p, s, c.start);
    ScaleZero(r);
    ScaleAdd(r, credit, gap);
    ScaleAdd(r, credit + gap, w);
    ScaleAdd(r, credit + gap, 0.0);
    ScaleZero(p.Period());
    if Refilled(p, s, c.start) < 1.0 {
      assert After(p, s, c) == Bucket(0.0, if p.stampLate then c.done else c.start);
    }
    hide Scale;
  }

  /** On a prompt run the ledger never exceeds what was credited, and it is exact if and only if the cap never
      bound: grants plus remaining tokens are the initial tokens plus max / window for each unit of time up to
      the last stamp and, as written, for each unit of time spent sleeping once more. */
  lemma {:induction false} LedgerExactlyWhenUncapped(p: Policy, b: Bucket, calls: seq<Call>)
    requires p.Valid() && InRange(p, b) && Feasible(p, b, calls) && Prompt(p, b, calls)
    ensures var s := Settle(p, b, calls);
            var credit := b.tokens + Scale(p.Rate(), Credited(p, b, calls, s.stamp));
            && |calls| as real + s.tokens <= credit
            && (|calls| as real + s.tokens == credit <==> CapNeverBinds(p, b, calls))
  {
    ScaleZero(p.Rate());
    if calls != [] {
      var front, last := calls[..|calls| - 1], calls[|calls| - 1];
      var s := Settle(p, b, front);
      LedgerExactlyWhenUncapped(p, b, front);
      TokensInRange(p, b, front);
      assert s.stamp <= last.start;
      hide Scale, Policy.Rate, Wait, Refilled;
      LedgerStep(p, s, last, b.tokens, Credited(p, b, front, s.stamp));
      ScaleAdd(p.Rate(), Credited(p, b, front, s.stamp), last.start - s.stamp);
    }
  }
}
