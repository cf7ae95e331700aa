/** Hot switch between paper and live trading (src/core/environment.py). Every call that leaves the module
    may fail: the outcomes of one switch are given by a `World`. */
module Environment {
  import opened Common

  datatype Mode = Paper | Live

  datatype SwitchState = Idle | Validating | Switching | Verifying | Failed

  datatype AccountReply = Raises | NoAccount | HasAccount

  /** How the outside behaves during one switch: the new broker's account call, the old broker's position
      list, and the symbols whose close fails. */
  datatype World = World(account: AccountReply, positionsRaise: bool, closeRaises: set<string>)

  class Broker {
    const name: string
    const paper: bool
    var positions: seq<string>

    constructor (name: string, paper: bool, positions: seq<string>)
      ensures this.name == name && this.paper == paper && this.positions == positions
    {
      this.name, this.paper, this.positions := name, paper, positions;
    }
  }

  function Failing(symbols: seq<string>, w: World): seq<string> {
    if symbols == [] then []
    else
      var s := symbols[|symbols| - 1];
      Failing(symbols[..|symbols| - 1], w) + if s in w.closeRaises then [s] else []
  }

  lemma {:induction false} FailingEmpty(symbols: seq<string>, w: World)
    ensures Failing(symbols, w) == [] <==> forall s :: s in symbols ==> s !in w.closeRaises
    ensures |Failing(symbols, w)| <= |symbols|
  {
    if symbols != [] {
      var front, s := symbols[..|symbols| - 1], symbols[|symbols| - 1];
      FailingEmpty(front, w);
      assert forall x :: x in symbols <==> x in front || x == s;
    }
  }

  /** What is left after trying to close every position: each one as often as it was held if its close fails, and
      none of the others. */
  lemma {:induction false} FailingMeans(symbols: seq<string>, w: World, s: string)
    ensures multiset(Failing(symbols, w))[s] == if s in w.closeRaises then multiset(symbols)[s] else 0
  {
    if symbols != [] {
      var front, last := symbols[..|symbols| - 1], symbols[|symbols| - 1];
      FailingMeans(front, w, s);
      assert symbols == front + [last];
    }
  }

  lemma FailingSnoc(symbols: seq<string>, i: nat, w: World)
    requires i < |symbols|
    ensures Failing(symbols[..i + 1], w)
         == if symbols[i] in w.closeRaises then Failing(symbols[..i], w) + [symbols[i]] else Failing(symbols[..i], w)
  {
    assert symbols[..i + 1][..i] == symbols[..i];
  }

  lemma NothingFails(symbols: seq<string>, w: World)
    requires symbols == []
    ensures Failing(symbols, w) == []
  {
  }

  /** Draining succeeds when it is not asked for, or the positions can be listed and all be closed. */
  predicate Drains(drain: bool, positions: seq<string>, w: World) {
    drain ==> !w.positionsRaise && forall s :: s in positions ==> s !in w.closeRaises
  }

  /** What the old broker still holds after the switch got as far as draining it. */
  function LeftAfter(drain: bool, positions: seq<string>, w: World): seq<string> {
    if drain && w.account == HasAccount && !w.positionsRaise then Failing(positions, w) else positions
  }

  /** What the old broker still holds after an attempt to switch: untouched unless the attempt got as far as
      the swap, then whatever draining left. */
  function LeftAfterAttempt(reachesSwap: bool, drain: bool, positions: seq<string>, w: World): seq<string> {
    if reachesSwap then LeftAfter(drain, positions, w) else positions
  }

  lemma {:induction false} FailingIsAll(symbols: seq<string>, w: World)
    ensures Failing(symbols, w) == symbols <==> forall s :: s in symbols ==> s in w.closeRaises
  {
    if symbols != [] {
      var front, s := symbols[..|symbols| - 1], symbols[|symbols| - 1];
      FailingIsAll(front, w);
      FailingEmpty(front, w);
      assert forall x :: x in symbols <==> x in front || x == s;
      assert symbols == front + [s];
      if s in w.closeRaises {
        assert Failing(symbols, w) == symbols ==> Failing(front, w) == front by {
          if Failing(symbols, w) == symbols {
            assert Failing(front, w) == symbols[..|symbols| - 1];
          }
        }
      }
    }
  }

  /** A switch leaves the old broker's positions as they were exactly if it does not get to draining them, or
      every single close fails (with nothing held, trivially). */
  lemma PositionsUntouchedExactlyWhen(reachesSwap: bool, drain: bool, positions: seq<string>, w: World)
    ensures LeftAfterAttempt(reachesSwap, drain, positions, w) == positions
       <==> !(reachesSwap && drain && w.account == HasAccount && !w.positionsRaise)
            || forall s :: s in positions ==> s in w.closeRaises
  {
    hide Failing;
    FailingIsAll(positions, w);
  }

  class BrokerManager {
    var broker: Broker
    var switchCount: nat

    constructor (b: Broker)
      ensures broker == b && switchCount == 0
    {
      broker, switchCount := b, 0;
    }

    /** Closes what it can; fails if the list is unavailable or any close failed. */
    method DrainPositions(w: World) returns (r: Result<nat, string>)
      modifies broker
      ensures broker.positions == if w.positionsRaise then old(broker.positions) else Failing(old(broker.positions), w)
      ensures r.Ok? <==> !w.positionsRaise && forall s :: s in old(broker.positions) ==> s !in w.closeRaises
      ensures r.Ok? ==> r.value == |old(broker.positions)| && broker.positions == []
    {
      if w.positionsRaise {
        return Err("Position drain failed");
      }
      var positions := broker.positions;
      var failed := CloseEach(broker, w);
      FailingEmpty(positions, w);
      assert positions == [] ==> failed == [];
      r := if failed != [] then Err("Position drain incomplete") else Ok(|positions|);
    }

    /** Tries every position once; those whose close failed are still open afterwards. */
    static method CloseEach(b: Broker, w: World) returns (failed: seq<string>)
      modifies b`positions
      ensures failed == Failing(old(b.positions), w) && b.positions == failed
    {
      hide Failing;
      var positions := b.positions;
      failed := [];
      NothingFails(positions[..0], w);
      for i := 0 to |positions|
        invariant failed == Failing(positions[..i], w)
        invariant b.positions == failed + positions[i..]
      {
        FailingSnoc(positions, i, w);
        if positions[i] in w.closeRaises {
          failed := failed + [positions[i]];
        } else {
          b.positions := failed + positions[i + 1..];
        }
      }
      assert positions[..|positions|] == positions;
    }

    /** Swaps the broker, or leaves it in place and fails. Positions closed on the way stay closed. */
    method SwitchBroker(newBroker: Broker, drain: bool, w: World) returns (r: Result<nat, string>)
      modifies this, broker
      ensures r.Ok? <==> w.account == HasAccount && Drains(drain, old(broker.positions), w)
      ensures r.Ok? ==> broker == newBroker && switchCount == old(switchCount) + 1
      ensures r.Ok? ==> r.value == if drain then |old(broker.positions)| else 0
      ensures r.Err? ==> broker == old(broker) && switchCount == old(switchCount)
      ensures old(broker).positions == LeftAfter(drain, old(broker.positions), w)
    {
      if w.account != HasAccount {
        return Err("Broker validation failed");
      }
      var closed := 0;
      if drain {
        var d := DrainPositions(w);
        if d.Err? {
          return d;
        }
        closed := d.value;
      }
      broker := newBroker;
      switchCount := switchCount + 1;
      r := Ok(closed);
    }

    /** Puts a broker back without draining; nothing to do if it is the active one. */
    method RestoreBroker(b: Broker)
      modifies this
      ensures broker == b
      ensures switchCount == old(switchCount) + if old(broker) == b then 0 else 1
    {
      if broker == b {
        return;
      }
      broker := b;
      switchCount := switchCount + 1;
    }
  }

  class Settings {
    var tradingMode: Mode
    var liveApiKey: string
    var liveSecretKey: string
    var maxDailyLossPct: real
    var maxPositionSizePct: real

    predicate LiveReady()
      reads this
    {
      liveApiKey != "" && liveSecretKey != "" && maxDailyLossPct <= 0.10 && maxPositionSizePct <= 0.10
    }
  }

  /** A row of the switch history. */
  datatype Switch = Switch(oldMode: Mode, newMode: Mode, success: bool, rolledBack: bool)

  datatype Done = NoOp | Switched(closed: nat)

  predicate IsPaper(m: Mode) {
    m == Paper
  }

  /** The three things a switch must change together. */
  datatype Facts = Facts(mode: Mode, settings: Mode, paper: bool)

  class EnvironmentManager {
    const manager: BrokerManager
    const settings: Settings
    var state: SwitchState
    var currentMode: Mode
    var history: seq<Switch>

    ghost function View(): Facts
      reads this, settings, manager, manager.broker
    {
      Facts(currentMode, settings.tradingMode, manager.broker.paper)
    }

    constructor (m: BrokerManager, s: Settings)
      ensures manager == m && settings == s && state == Idle && history == []
      ensures IsPaper(currentMode) == m.broker.paper
    {
      manager, settings, state, history := m, s, Idle, [];
      currentMode := if m.broker.paper then Paper else Live;
    }

    /** The guarded part of a switch: validate, create, swap, set the modes, verify. `swapped` tells whether
        it got past the broker swap before failing. */
    method Attempt(
        target: Mode, drain: bool, made: Broker?, w: World) returns (outcome: Result<nat, string>, swapped: bool)
      modifies this`state, this`currentMode, settings`tradingMode, manager, manager.broker
      ensures swapped <==> (target == Live ==> old(settings.LiveReady())) && made != null
                           && w.account == HasAccount && Drains(drain, old(manager.broker.positions), w)
      ensures outcome.Ok? <==> swapped && made.paper == IsPaper(target)
      ensures if swapped then manager.broker == made && currentMode == settings.tradingMode == target
              else manager.broker == old(manager.broker) && currentMode == old(currentMode)
                   && settings.tradingMode == old(settings.tradingMode)
      ensures old(manager.broker).positions
           == LeftAfterAttempt((target == Live ==> old(settings.LiveReady())) && made != null, drain,
                               old(manager.broker.positions), w)
      ensures swapped ==> old(manager.broker).positions == if drain then [] else old(manager.broker.positions)
    {
      hide Failing;
      swapped := false;
      state := Validating;
      if target == Live && !settings.LiveReady() {
        return Err("Live readiness check failed"), false;
      }
      state := Switching;
      if made == null {
        return Err("Broker factory failed"), false;
      }
      FailingEmpty(manager.broker.positions, w);
      outcome := manager.SwitchBroker(made, drain, w);
      if outcome.Err? {
        return;
      }
      swapped := true;
      settings.tradingMode := target;
      currentMode := target;
      state := Verifying;
      if !Verified(target) {
        outcome := Err("Switch verification failed");
      }
    }

    /** All or nothing: on success broker, mode and settings are those of the target; on failure all three,
        and the broker object itself, are as before. The condition for success is exact. `made` is what the
        broker factory produced, null if it raised. */
    method SwitchEnvironment(
        target: Mode, drain: bool, force: bool, made: Broker?, w: World) returns (r: Result<Done, string>)
      modifies this, settings`tradingMode, manager, manager.broker
      ensures state == old(state)
      ensures Allowed(old(View()), Request(target, r.Ok?, r == Ok(NoOp)), View())
      ensures old(state) != Idle ==>
                && r.Err? && View() == old(View()) && manager.broker == old(manager.broker) && history == old(history)
      ensures old(state) == Idle && old(currentMode) == target && !force ==>
                && r == Ok(NoOp) && View() == old(View()) && manager.broker == old(manager.broker)
                && manager.broker.positions == old(manager.broker.positions) && history == old(history)
      ensures old(state) == Idle && !(old(currentMode) == target && !force) ==>
                var fit := old(settings.liveApiKey != "" && settings.liveSecretKey != ""
                               && settings.maxDailyLossPct <= 0.10 && settings.maxPositionSizePct <= 0.10);
                var drained := drain ==>
                  !w.positionsRaise && forall s :: s in old(manager.broker.positions) ==> s !in w.closeRaises;
                var swapped := (target == Live ==> fit) && made != null && w.account == HasAccount && drained;
                && (r.Ok? <==> swapped && made.paper == IsPaper(target))
                && (r.Ok? ==> manager.broker == made && View() == Facts(target, target, IsPaper(target)))
                && (r.Err? ==> manager.broker == old(manager.broker) && View() == old(View()))
                && history == old(history) + [Switch(old(currentMode), target, r.Ok?, r.Err? && swapped)]
                && old(manager.broker).positions
                   == LeftAfterAttempt((target == Live ==> old(settings.LiveReady())) && made != null, drain,
                                       old(manager.broker.positions), w)
                && (swapped ==> old(manager.broker).positions == if drain then [] else old(manager.broker.positions))
      ensures old(state) != Idle ==> manager.broker.positions == old(manager.broker.positions)
    {
      if state != Idle {
        return Err("Switch already in progress");
      }
      if currentMode == target && !force {
        return Ok(NoOp);
      }
      hide Drains, LeftAfterAttempt;
      var oldMode, oldSettingsMode, oldBroker := currentMode, settings.tradingMode, manager.broker;
      var outcome, swapped := Attempt(target, drain, made, w);
      if outcome.Ok? {
        state := Idle;
        history := history + [Switch(oldMode, target, true, false)];
        return Ok(Switched(outcome.value));
      }

      state := Failed;
      var rolledBack := false;
      if swapped {
        rolledBack := true;
        manager.RestoreBroker(oldBroker);
      }
      if currentMode != oldMode {
        rolledBack := true;
        currentMode := oldMode;
      }
      if settings.tradingMode != oldSettingsMode {
        rolledBack := true;
        settings.tradingMode := oldSettingsMode;
      }
      history := history + [Switch(oldMode, target, false, rolledBack)];
      state := Idle;
      r := Err(outcome.error);
    }

    /** Any sequence of switches, each with its own outside world: mode, settings and broker end up as the last
        successful one set them, and the mode agrees with the active broker all along. */
    method SwitchAll(steps: seq<Plan>) returns (ghost facts: seq<Facts>, ghost requests: seq<Request>)
      requires state == Idle && IsPaper(currentMode) == manager.broker.paper
      modifies this, settings`tradingMode, manager, manager.broker, Makes(steps)
      ensures state == Idle && |requests| == |steps| && IsRun(facts, requests)
      ensures forall i :: 0 <= i < |steps| ==> requests[i].target == steps[i].target
      ensures facts[0] == old(View()) && facts[|steps|] == View()
      ensures View() == LastEffect(old(View()), requests)
      ensures forall i :: 0 <= i < |facts| ==> IsPaper(facts[i].mode) == facts[i].paper
    {
      ghost var brokers := {manager.broker} + Makes(steps);
      facts, requests := [View()], [];
      for i := 0 to |steps|
        invariant state == Idle && manager.broker in brokers
        invariant |requests| == i && IsRun(facts, requests)
        invariant forall j :: 0 <= j < i ==> requests[j].target == steps[j].target
        invariant facts[0] == old(View()) && facts[i] == View()
      {
        hide Allowed, Drains, LeftAfterAttempt, Settings.LiveReady;
        var step := steps[i];
        var r := SwitchEnvironment(step.target, step.drain, step.force, step.made, step.world);
        ghost var q := Request(step.target, r.Ok?, r == Ok(NoOp));
        RunGrows(facts, requests, q, View());
        facts, requests := facts + [View()], requests + [q];
      }
      RunsStayConsistent(facts, requests);
    }

    predicate Verified(target: Mode)
      reads this, manager, manager.broker
    {
      !(target == Paper && !manager.broker.paper) && !(target == Live && manager.broker.paper)
    }
  }

  // ---------- Runs of switches ----------

  /** One switch of a sequence, with what its broker factory makes and how its outside world behaves. */
  datatype Plan = Plan(target: Mode, drain: bool, force: bool, made: Broker?, world: World)

  ghost function Makes(steps: seq<Plan>): set<Broker> {
    set i | 0 <= i < |steps| && steps[i].made != null :: steps[i].made
  }

  datatype Request = Request(target: Mode, succeeded: bool, noOp: bool)

  /** What the contract of SwitchEnvironment allows a call to do to the three facts. */
  predicate Allowed(before: Facts, q: Request, after: Facts) {
    if q.succeeded && !q.noOp then after == Facts(q.target, q.target, IsPaper(q.target)) else after == before
  }

  ghost predicate IsRun(facts: seq<Facts>, requests: seq<Request>) {
    |facts| == |requests| + 1 && forall i :: 0 <= i < |requests| ==> Allowed(facts[i], requests[i], facts[i + 1])
  }

  lemma RunGrows(facts: seq<Facts>, requests: seq<Request>, q: Request, after: Facts)
    requires IsRun(facts, requests) && Allowed(facts[|requests|], q, after)
    ensures IsRun(facts + [after], requests + [q])
  {
  }

  /** Facts left by the last successful switch of a run, or the initial ones if there was none. */
  function LastEffect(initial: Facts, requests: seq<Request>): Facts {
    if requests == [] then initial
    else
      var q := requests[|requests| - 1];
      if q.succeeded && !q.noOp then Facts(q.target, q.target, IsPaper(q.target))
      else LastEffect(initial, requests[..|requests| - 1])
  }

  /** Over any run of switches the three facts are those of the last successful one, and the mode agrees
      with the active broker throughout. */
  lemma {:induction false} RunsStayConsistent(facts: seq<Facts>, requests: seq<Request>)
    requires IsRun(facts, requests) && IsPaper(facts[0].mode) == facts[0].paper
    ensures facts[|requests|] == LastEffect(facts[0], requests)
    ensures forall i :: 0 <= i < |facts| ==> IsPaper(facts[i].mode) == facts[i].paper
  {
    if requests != [] {
      var n := |requests| - 1;
      RunsStayConsistent(facts[..n + 1], requests[..n]);
      assert Allowed(facts[n], requests[n], facts[n + 1]);
      assert forall i :: 0 <= i <= n ==> facts[..n + 1][i] == facts[i];
    }
  }
}
