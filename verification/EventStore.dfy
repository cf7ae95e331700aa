/** The durable event log (src/core/event_store.py) and rebuilding read models from it. Serialisation is
    taken to be faithful: a stored event is read back as itself. */
module EventStore {
  import opened Common
  import opened Events
  import opened Projections

  datatype Record = Record(event: Event, session: string)

  function IdsOf(rows: seq<Record>): set<string> {
    if rows == [] then {} else IdsOf(rows[..|rows| - 1]) + {rows[|rows| - 1].event.id}
  }

  lemma {:induction false} IdStored(rows: seq<Record>, id: string)
    ensures id in IdsOf(rows) <==> exists i :: 0 <= i < |rows| && rows[i].event.id == id
  {
    if rows != [] {
      var front := rows[..|rows| - 1];
      IdStored(front, id);
      assert forall i :: 0 <= i < |front| ==> rows[i] == front[i];
    }
  }

  /** The id column is unique over the whole table, so an id stored by any session blocks it for all. */
  function Persisted(rows: seq<Record>, r: Record): seq<Record> {
    if r.event.id in IdsOf(rows) then rows else rows + [r]
  }

  function PersistAll(rows: seq<Record>, rs: seq<Record>): seq<Record> {
    if rs == [] then rows else Persisted(PersistAll(rows, rs[..|rs| - 1]), rs[|rs| - 1])
  }

  /** Events of one session, in insertion order. */
  function SessionEvents(rows: seq<Record>, session: string): seq<Event> {
    if rows == [] then []
    else
      var front, r := SessionEvents(rows[..|rows| - 1], session), rows[|rows| - 1];
      if r.session == session then front + [r.event] else front
  }

  /** The database table, shared by the stores of all sessions. */
  class Database {
    var rows: seq<Record>

    constructor ()
      ensures rows == []
    {
      rows := [];
    }
  }

  class Store {
    const db: Database
    const session: string

    constructor (db: Database, session: string)
      ensures this.db == db && this.session == session
    {
      this.db, this.session := db, session;
    }

    method Persist(e: Event)
      modifies db
      ensures db.rows == Persisted(old(db.rows), Record(e, session))
    {
      for i := 0 to |db.rows|
        invariant db.rows == old(db.rows)
        invariant forall j :: 0 <= j < i ==> db.rows[j].event.id != e.id
      {
        if db.rows[i].event.id == e.id {
          IdStored(db.rows, e.id);
          return;
        }
      }
      IdStored(db.rows, e.id);
      db.rows := db.rows + [Record(e, session)];
    }

    method ReplaySession(session: string) returns (es: seq<Event>)
      ensures es == SessionEvents(db.rows, session)
    {
      es := [];
      for i := 0 to |db.rows|
        invariant es == SessionEvents(db.rows[..i], session)
      {
        assert db.rows[..i + 1][..i] == db.rows[..i];
        if db.rows[i].session == session {
          es := es + [db.rows[i].event];
        }
      }
      assert db.rows[..|db.rows|] == db.rows;
    }
  }

  // ---------- What the store keeps ----------

  /** The records of `rs` whose id is neither in `seen` nor carried by an earlier one. */
  function FirstOf(seen: set<string>, rs: seq<Record>): seq<Record> {
    if rs == [] then []
    else
      var front, r := rs[..|rs| - 1], rs[|rs| - 1];
      FirstOf(seen, front) + if r.event.id in seen + IdsOf(front) then [] else [r]
  }

  /** The other ones. */
  function RepeatsOf(seen: set<string>, rs: seq<Record>): seq<Record> {
    if rs == [] then []
    else
      var front, r := rs[..|rs| - 1], rs[|rs| - 1];
      RepeatsOf(seen, front) + if r.event.id in seen + IdsOf(front) then [r] else []
  }

  lemma FirstsSnoc(seen: set<string>, rs: seq<Record>, r: Record)
    ensures FirstOf(seen, rs + [r]) == if r.event.id in seen + IdsOf(rs) then FirstOf(seen, rs) else FirstOf(seen, rs) + [r]
    ensures RepeatsOf(seen, rs + [r]) == if r.event.id in seen + IdsOf(rs) then RepeatsOf(seen, rs) + [r] else RepeatsOf(seen, rs)
  {
    assert (rs + [r])[..|rs|] == rs;
  }

  lemma SessionSnoc(rs: seq<Record>, r: Record, session: string)
    ensures SessionEvents(rs + [r], session)
         == if r.session == session then SessionEvents(rs, session) + [r.event] else SessionEvents(rs, session)
  {
    assert (rs + [r])[..|rs|] == rs;
  }

  ghost predicate UniqueIds(rows: seq<Record>) {
    forall i, j :: 0 <= i < j < |rows| ==> rows[i].event.id != rows[j].event.id
  }

  lemma IdsGrow(rows: seq<Record>, r: Record)
    ensures IdsOf(rows + [r]) == IdsOf(rows) + {r.event.id}
  {
    assert (rows + [r])[..|rows|] == rows;
  }

  lemma NothingPersisted(rows: seq<Record>)
    ensures PersistAll(rows, []) == rows && IdsOf([]) == {}
  {
  }

  lemma PersistSnoc(rows: seq<Record>, rs: seq<Record>, r: Record)
    ensures PersistAll(rows, rs + [r]) == Persisted(PersistAll(rows, rs), r)
  {
    assert (rs + [r])[..|rs|] == rs;
  }

  lemma {:induction false} IdsAfterAll(rows: seq<Record>, rs: seq<Record>)
    ensures IdsOf(PersistAll(rows, rs)) == IdsOf(rows) + IdsOf(rs)
  {
    hide IdsOf, PersistAll;
    if rs == [] {
      NothingPersisted(rows);
    } else {
      var front, r := rs[..|rs| - 1], rs[|rs| - 1];
      IdsAfterAll(rows, front);
      assert rs == front + [r];
      PersistSnoc(rows, front, r);
      IdsGrow(front, r);
      IdsGrow(PersistAll(rows, front), r);
    }
  }

  /** Whatever interleaving of sessions is stored, the table grows by exactly the first record of each id
      not yet there, in order. */
  lemma {:induction false} StoreKeepsFirsts(rows: seq<Record>, rs: seq<Record>)
    ensures PersistAll(rows, rs) == rows + FirstOf(IdsOf(rows), rs)
  {
    if rs != [] {
      var front, r := rs[..|rs| - 1], rs[|rs| - 1];
      StoreKeepsFirsts(rows, front);
      IdsAfterAll(rows, front);
      assert rs == front + [r];
      hide IdsOf, FirstOf;
      FirstsSnoc(IdsOf(rows), front, r);
    }
  }

  /** No id is ever stored twice. */
  lemma {:induction false} IdsStayUnique(rows: seq<Record>, rs: seq<Record>)
    requires UniqueIds(rows)
    ensures UniqueIds(PersistAll(rows, rs))
  {
    if rs != [] {
      var front := PersistAll(rows, rs[..|rs| - 1]);
      IdsStayUnique(rows, rs[..|rs| - 1]);
      IdStored(front, rs[|rs| - 1].event.id);
      hide IdsOf;
    }
  }

  lemma {:induction false} SessionEventsAppend(a: seq<Record>, b: seq<Record>, session: string)
    ensures SessionEvents(a + b, session) == SessionEvents(a, session) + SessionEvents(b, session)
  {
    if b == [] {
      assert a + b == a;
    } else {
      var front := b[..|b| - 1];
      assert (a + b)[..|a + b| - 1] == a + front;
      SessionEventsAppend(a, front, session);
    }
  }

  lemma {:induction false} DistinctAreAllFirst(seen: set<string>, rs: seq<Record>)
    requires UniqueIds(rs) && seen !! IdsOf(rs)
    ensures FirstOf(seen, rs) == rs
  {
    if rs != [] {
      var front, r := rs[..|rs| - 1], rs[|rs| - 1];
      assert rs == front + [r];
      IdsGrow(front, r);
      DistinctAreAllFirst(seen, front);
      IdStored(front, r.event.id);
      hide FirstOf, IdsOf;
      FirstsSnoc(seen, front, r);
    }
  }

  lemma {:induction false} ReplayPosition(rows: seq<Record>, session: string, i: nat)
    requires i < |rows| && rows[i].session == session
    ensures |SessionEvents(rows[..i], session)| < |SessionEvents(rows, session)|
    ensures SessionEvents(rows, session)[|SessionEvents(rows[..i], session)|] == rows[i].event
  {
    var front := rows[..|rows| - 1];
    if i < |front| {
      assert front[..i] == rows[..i];
      ReplayPosition(front, session, i);
    }
  }

  function RowsOf(rows: seq<Record>, session: string): set<nat> {
    set i: nat | i < |rows| && rows[i].session == session
  }

  /** The replay of a session has one event per record of the session, the record's own, in their order. */
  lemma {:induction false} ReplayIsTheSession(rows: seq<Record>, session: string)
    ensures |SessionEvents(rows, session)| == |RowsOf(rows, session)|
    ensures forall i :: i in RowsOf(rows, session) ==>
              && |SessionEvents(rows[..i], session)| < |SessionEvents(rows, session)|
              && SessionEvents(rows, session)[|SessionEvents(rows[..i], session)|] == rows[i].event
  {
    ReplayCounts(rows, session);
    forall i | i in RowsOf(rows, session)
      ensures |SessionEvents(rows[..i], session)| < |SessionEvents(rows, session)|
      ensures SessionEvents(rows, session)[|SessionEvents(rows[..i], session)|] == rows[i].event
    {
      ReplayPosition(rows, session, i);
    }
  }

  lemma {:induction false} ReplayCounts(rows: seq<Record>, session: string)
    ensures |SessionEvents(rows, session)| == |RowsOf(rows, session)|
  {
    if rows == [] {
      assert RowsOf(rows, session) == {};
    } else {
      var front := rows[..|rows| - 1];
      ReplayCounts(front, session);
      assert RowsOf(rows, session) == RowsOf(front, session) + if rows[|front|].session == session then {|front|} else {};
    }
  }

  /** If all ids are new and distinct, every session replays exactly the events it published, in order,
      however the sessions were interleaved. */
  lemma ReplayIsWhatWasPublished(rows: seq<Record>, rs: seq<Record>, session: string)
    requires UniqueIds(rs) && IdsOf(rows) !! IdsOf(rs)
    ensures SessionEvents(PersistAll(rows, rs), session) == SessionEvents(rows, session) + SessionEvents(rs, session)
  {
    StoreKeepsFirsts(rows, rs);
    DistinctAreAllFirst(IdsOf(rows), rs);
    SessionEventsAppend(rows, rs, session);
  }

  // ---------- Rebuilding the read models ----------

  lemma {:induction false} FoldResumes(m: Model, a: seq<Event>, b: seq<Event>, maxRecent: int)
    ensures Fold(m, a + b, maxRecent) == Fold(Fold(m, a, maxRecent), b, maxRecent)
  {
    if b == [] {
      assert a + b == a;
    } else {
      var front := b[..|b| - 1];
      assert (a + b)[..|a + b| - 1] == a + front;
      FoldResumes(m, a, front, maxRecent);
    }
  }

  /** With new and distinct ids, taking the view as it was after the session's first `n` events and folding
      in the rest of the stored log gives the live view: from the empty view (n == 0) and from any later one. */
  lemma RebuildFromAnyPrefix(rows: seq<Record>, rs: seq<Record>, session: string, m: Model, maxRecent: int, n: nat)
    requires UniqueIds(rs) && IdsOf(rows) !! IdsOf(rs) && SessionEvents(rows, session) == []
    requires n <= |SessionEvents(rs, session)|
    ensures var published, stored := SessionEvents(rs, session), SessionEvents(PersistAll(rows, rs), session);
            && n <= |stored|
            && Fold(Fold(m, published[..n], maxRecent), stored[n..], maxRecent) == Fold(m, published, maxRecent)
  {
    hide Fold, SessionEvents, PersistAll, IdsOf, UniqueIds;
    ReplayIsWhatWasPublished(rows, rs, session);
    var published := SessionEvents(rs, session);
    assert SessionEvents(PersistAll(rows, rs), session) == published;
    FoldResumes(m, published[..n], published[n..], maxRecent);
    assert published[..n] + published[n..] == published;
  }

  // ---------- Repeated ids ----------

  datatype Kind = Closing | Signal | Rejection | Halt | Uncounted

  function KindOf(e: Event): Kind {
    match e
    case TradeClosed(_, _, _, _, _, _) => Closing
    case SignalGenerated(_, _, _, _, _, _) => Signal
    case OrderRejected(_, _, _, _) => Rejection
    case RiskHalt(_, _, _) => Halt
    case _ => Uncounted
  }

  predicate Counted(e: Event) {
    !KindOf(e).Uncounted?
  }

  /** How many of the session's events are of this kind. */
  function Tally(rs: seq<Record>, session: string, kind: Kind): nat {
    if rs == [] then 0
    else
      var r := rs[|rs| - 1];
      Tally(rs[..|rs| - 1], session, kind) + if r.session == session && KindOf(r.event) == kind then 1 else 0
  }

  function CountOf(p: Performance, kind: Kind): nat {
    match kind
    case Closing => p.tradeCount
    case Signal => p.signalCount
    case Rejection => p.rejectionCount
    case Halt => p.haltCount
    case Uncounted => 0
  }

  lemma {:induction false} FoldTallies(rs: seq<Record>, session: string, maxRecent: int, kind: Kind)
    requires !kind.Uncounted?
    ensures CountOf(Fold(EMPTY, SessionEvents(rs, session), maxRecent).performance, kind) == Tally(rs, session, kind)
  {
    if rs != [] {
      var front, r := rs[..|rs| - 1], rs[|rs| - 1];
      FoldTallies(front, session, maxRecent, kind);
      assert rs == front + [r];
      hide Fold, NextRecent, NextPositions, Tally, SessionEvents;
      TallySnoc(front, r, session, kind);
      SessionSnoc(front, r, session);
      FoldSnoc(EMPTY, SessionEvents(front, session), r.event, maxRecent);
    } else {
      FoldNothing(EMPTY, maxRecent);
    }
  }

  lemma TallySnoc(rs: seq<Record>, r: Record, session: string, kind: Kind)
    ensures Tally(rs + [r], session, kind)
         == Tally(rs, session, kind) + if r.session == session && KindOf(r.event) == kind then 1 else 0
  {
    assert (rs + [r])[..|rs|] == rs;
  }

  lemma {:induction false} TallySplits(seen: set<string>, rs: seq<Record>, session: string, kind: Kind)
    ensures Tally(rs, session, kind)
         == Tally(FirstOf(seen, rs), session, kind) + Tally(RepeatsOf(seen, rs), session, kind)
  {
    if rs != [] {
      var front, r := rs[..|rs| - 1], rs[|rs| - 1];
      TallySplits(seen, front, session, kind);
      assert rs == front + [r];
      hide Tally, IdsOf, KindOf, FirstOf, RepeatsOf;
      FirstsSnoc(seen, front, r);
      TallySnoc(front, r, session, kind);
      TallySnoc(FirstOf(seen, front), r, session, kind);
      TallySnoc(RepeatsOf(seen, front), r, session, kind);
    }
  }

  /** None of the session's repeats is counted. */
  ghost predicate NothingCountedLost(lost: seq<Record>, session: string) {
    forall i :: 0 <= i < |lost| && lost[i].session == session ==> !Counted(lost[i].event)
  }

  lemma {:induction false} LostIsTallied(lost: seq<Record>, session: string, i: nat)
    requires i < |lost| && lost[i].session == session
    ensures Tally(lost, session, KindOf(lost[i].event)) > 0
  {
    if i < |lost| - 1 {
      LostIsTallied(lost[..|lost| - 1], session, i);
    }
  }

  lemma {:induction false} SamePerformanceIfNothingCountedLost(
      seen: set<string>, rs: seq<Record>, session: string, maxRecent: int)
    requires NothingCountedLost(RepeatsOf(seen, rs), session)
    ensures Fold(EMPTY, SessionEvents(rs, session), maxRecent).performance
         == Fold(EMPTY, SessionEvents(FirstOf(seen, rs), session), maxRecent).performance
  {
    if rs != [] {
      var front, r := rs[..|rs| - 1], rs[|rs| - 1];
      var kept, lost := FirstOf(seen, front), RepeatsOf(seen, front);
      assert rs == front + [r];
      FirstsSnoc(seen, front, r);
      assert forall i :: 0 <= i < |lost| ==> RepeatsOf(seen, rs)[i] == lost[i];
      SamePerformanceIfNothingCountedLost(seen, front, session, maxRecent);
      hide Fold, NextRecent, NextPositions, SessionEvents, FirstOf, RepeatsOf, IdsOf;
      SessionSnoc(front, r, session);
      SessionSnoc(kept, r, session);
      FoldSnoc(EMPTY, SessionEvents(front, session), r.event, maxRecent);
      FoldSnoc(EMPTY, SessionEvents(kept, session), r.event, maxRecent);
      if r.event.id in seen + IdsOf(front) {
        assert RepeatsOf(seen, rs)[|lost|] == r;
      }
    }
  }

  /** Whatever is published and however ids repeat, the performance view rebuilt from the stored log equals
      the live one exactly if no event the view counts was turned away as a repeat. */
  lemma PerformanceRebuildsExactlyWhen(rows: seq<Record>, rs: seq<Record>, session: string, maxRecent: int)
    requires SessionEvents(rows, session) == []
    ensures Fold(EMPTY, SessionEvents(rs, session), maxRecent).performance
         == Fold(EMPTY, SessionEvents(PersistAll(rows, rs), session), maxRecent).performance
       <==> NothingCountedLost(RepeatsOf(IdsOf(rows), rs), session)
  {
    var seen := IdsOf(rows);
    var kept, lost := FirstOf(seen, rs), RepeatsOf(seen, rs);
    StoreKeepsFirsts(rows, rs);
    SessionEventsAppend(rows, kept, session);
    hide Fold, Tally, FirstOf, RepeatsOf, SessionEvents, IdsOf, PersistAll, KindOf;
    assert SessionEvents(PersistAll(rows, rs), session) == SessionEvents(kept, session);
    if NothingCountedLost(lost, session) {
      SamePerformanceIfNothingCountedLost(seen, rs, session, maxRecent);
    } else {
      var i :| 0 <= i < |lost| && lost[i].session == session && Counted(lost[i].event);
      var kind := KindOf(lost[i].event);
      LostIsTallied(lost, session, i);
      TallySplits(seen, rs, session, kind);
      FoldTallies(rs, session, maxRecent, kind);
      FoldTallies(kept, session, maxRecent, kind);
    }
  }

  // ---------- Positions rebuilt ----------

  predicate IsMove(e: Event) {
    e.TradeOpened? || e.TradeClosed?
  }

  /** What a trade's last open or close event makes the position view show: a position or nothing. */
  function Shown(last: Option<Event>): Option<PositionView> {
    if last.Some? && last.value.TradeOpened? then Some(ViewOf(last.value)) else None
  }

  /** Live and stored events of a session show the same for every trade. */
  ghost predicate ShowAlike(live: seq<Event>, stored: seq<Event>) {
    forall t: string :: Shown(LastMove(live, t)) == Shown(LastMove(stored, t))
  }

  lemma ViewShows(es: seq<Event>, maxRecent: int, t: string)
    ensures var ps := Fold(EMPTY, es, maxRecent).positions;
            (if t in ps then Some(ps[t]) else None) == Shown(LastMove(es, t))
  {
    hide Fold, LastMove;
    PositionsAreOpenTrades(es, maxRecent, t);
  }

  lemma PositionsAlikeExactlyWhen(live: seq<Event>, stored: seq<Event>, maxRecent: int)
    ensures Fold(EMPTY, live, maxRecent).positions == Fold(EMPTY, stored, maxRecent).positions <==> ShowAlike(live, stored)
  {
    hide Fold, LastMove, Shown;
    var a, b := Fold(EMPTY, live, maxRecent).positions, Fold(EMPTY, stored, maxRecent).positions;
    forall t: string
      ensures (if t in a then Some(a[t]) else None) == Shown(LastMove(live, t))
      ensures (if t in b then Some(b[t]) else None) == Shown(LastMove(stored, t))
    {
      ViewShows(live, maxRecent, t);
      ViewShows(stored, maxRecent, t);
    }
    if ShowAlike(live, stored) {
      assert forall t: string :: (if t in a then Some(a[t]) else None) == (if t in b then Some(b[t]) else None);
      assert forall t: string :: t in a <==> t in b;
    }
  }

  /** Record `i` was turned away: its id was in the table or came earlier in the run. */
  predicate TurnedAway(seen: set<string>, rs: seq<Record>, i: nat)
    requires i < |rs|
  {
    rs[i].event.id in seen + IdsOf(rs[..i])
  }

  /** Record `i` is the session's last open or close event about its trade. */
  ghost predicate LastAbout(rs: seq<Record>, session: string, i: nat)
    requires i < |rs|
  {
    && rs[i].session == session && IsMove(rs[i].event)
    && forall j :: i < j < |rs| && rs[j].session == session && IsMove(rs[j].event) ==>
         rs[j].event.tradeId != rs[i].event.tradeId
  }

  /** The delivery-side condition: where the last open or close event about a trade was turned away, the
      last one that was stored shows the same. */
  ghost predicate LostMovesHarmless(seen: set<string>, rs: seq<Record>, session: string) {
    forall i :: 0 <= i < |rs| && LastAbout(rs, session, i) && TurnedAway(seen, rs, i) ==>
      Shown(Some(rs[i].event)) == Shown(LastMove(SessionEvents(FirstOf(seen, rs), session), rs[i].event.tradeId))
  }

  lemma LastMoveSnoc(es: seq<Event>, e: Event, t: string)
    ensures LastMove(es + [e], t) == if IsMove(e) && e.tradeId == t then Some(e) else LastMove(es, t)
    ensures LastMove([], t) == None
  {
    assert (es + [e])[..|es|] == es;
  }

  /** Where the last move about a trade is found in the run, and that it is the last stored one unless it
      was turned away. */
  lemma {:induction false} LastMoveIndex(seen: set<string>, rs: seq<Record>, session: string, t: string) returns (i: nat)
    ensures i <= |rs|
    ensures i == |rs| ==>
              LastMove(SessionEvents(rs, session), t) == None == LastMove(SessionEvents(FirstOf(seen, rs), session), t)
    ensures i < |rs| ==>
              && LastAbout(rs, session, i) && rs[i].event.tradeId == t
              && LastMove(SessionEvents(rs, session), t) == Some(rs[i].event)
              && (!TurnedAway(seen, rs, i) ==>
                   LastMove(SessionEvents(FirstOf(seen, rs), session), t) == Some(rs[i].event))
  {
    if rs == [] {
      i := 0;
    } else {
      var front, r := rs[..|rs| - 1], rs[|rs| - 1];
      i := LastMoveIndex(seen, front, session, t);
      assert rs == front + [r];
      LastMoveIndexStep(seen, front, r, session, t, i);
      if r.session == session && IsMove(r.event) && r.event.tradeId == t {
        i := |front|;
      } else if i == |front| {
        i := |rs|;
      }
    }
  }

  /** The effect of one more record on the last moves. */
  lemma LastMoveIndexStep(seen: set<string>, rs: seq<Record>, r: Record, session: string, t: string, i: nat)
    requires i <= |rs|
    ensures var about := r.session == session && IsMove(r.event) && r.event.tradeId == t;
            var all := SessionEvents(rs + [r], session);
            var kept := SessionEvents(FirstOf(seen, rs + [r]), session);
            && LastMove(all, t) == (if about then Some(r.event) else LastMove(SessionEvents(rs, session), t))
            && LastMove(kept, t)
            == (if about && !TurnedAway(seen, rs + [r], |rs|) then Some(r.event)
                else LastMove(SessionEvents(FirstOf(seen, rs), session), t))
            && (i < |rs| ==> (TurnedAway(seen, rs + [r], i) <==> TurnedAway(seen, rs, i)))
  {
    hide LastMove, SessionEvents, FirstOf, IdsOf;
    assert (rs + [r])[..|rs|] == rs;
    assert i < |rs| ==> (rs + [r])[..i] == rs[..i];
    FirstsSnoc(seen, rs, r);
    SessionSnoc(rs, r, session);
    SessionSnoc(FirstOf(seen, rs), r, session);
    LastMoveSnoc(SessionEvents(rs, session), r.event, t);
    LastMoveSnoc(SessionEvents(FirstOf(seen, rs), session), r.event, t);
  }

  /** Whatever is published and however ids repeat, the position view rebuilt from the stored log equals the
      live one exactly if for every trade the last open or close event published and the last one stored show
      the same; and that is so exactly if no turned-away record was the last word on a trade with something
      else stored. */
  lemma PositionsRebuildExactlyWhen(rows: seq<Record>, rs: seq<Record>, session: string, maxRecent: int)
    requires SessionEvents(rows, session) == []
    ensures var live := SessionEvents(rs, session);
            var stored := SessionEvents(PersistAll(rows, rs), session);
            var alike := Fold(EMPTY, live, maxRecent).positions == Fold(EMPTY, stored, maxRecent).positions;
            && (alike <==> ShowAlike(live, SessionEvents(FirstOf(IdsOf(rows), rs), session)))
            && (alike <==> LostMovesHarmless(IdsOf(rows), rs, session))
  {
    hide Fold, LastMove, Shown, SessionEvents, FirstOf, IdsOf, PersistAll, TurnedAway;
    var seen := IdsOf(rows);
    var live, kept := SessionEvents(rs, session), SessionEvents(FirstOf(seen, rs), session);
    StoreKeepsFirsts(rows, rs);
    SessionEventsAppend(rows, FirstOf(seen, rs), session);
    assert SessionEvents(PersistAll(rows, rs), session) == kept;
    PositionsAlikeExactlyWhen(live, kept, maxRecent);
    if LostMovesHarmless(seen, rs, session) {
      forall t: string ensures Shown(LastMove(live, t)) == Shown(LastMove(kept, t)) {
        var i := LastMoveIndex(seen, rs, session, t);
      }
    }
    if ShowAlike(live, kept) {
      forall i | 0 <= i < |rs| && LastAbout(rs, session, i) && TurnedAway(seen, rs, i)
        ensures Shown(Some(rs[i].event)) == Shown(LastMove(kept, rs[i].event.tradeId))
      {
        var j := LastMoveIndex(seen, rs, session, rs[i].event.tradeId);
        LastAboutIsLast(rs, session, i);
      }
    }
  }

  lemma {:induction false} LastAboutIsLast(rs: seq<Record>, session: string, i: nat)
    requires i < |rs| && LastAbout(rs, session, i)
    ensures LastMove(SessionEvents(rs, session), rs[i].event.tradeId) == Some(rs[i].event)
  {
    var front, r := rs[..|rs| - 1], rs[|rs| - 1];
    assert rs == front + [r];
    if i < |front| {
      LastAboutIsLast(front, session, i);
    }
    hide LastMove, SessionEvents;
    SessionSnoc(front, r, session);
    LastMoveSnoc(SessionEvents(front, session), r.event, rs[i].event.tradeId);
  }

  /** If no turned-away record is the last word on its trade, the rebuilt position view is the live one. */
  lemma PositionsRebuildIfLastMovesStored(rows: seq<Record>, rs: seq<Record>, session: string, maxRecent: int)
    requires SessionEvents(rows, session) == []
    requires forall i :: 0 <= i < |rs| && LastAbout(rs, session, i) ==> !TurnedAway(IdsOf(rows), rs, i)
    ensures Fold(EMPTY, SessionEvents(rs, session), maxRecent).positions
         == Fold(EMPTY, SessionEvents(PersistAll(rows, rs), session), maxRecent).positions
  {
    hide Fold, SessionEvents, FirstOf, IdsOf, PersistAll, TurnedAway, LastAbout;
    PositionsRebuildExactlyWhen(rows, rs, session, maxRecent);
  }

  /** An opening delivered again after the trade closed brings the trade back in the live position view,
      but not in the view rebuilt from the store. */
  lemma RedeliveredOpeningRevives(opening: Event, closing: Event, session: string, maxRecent: int)
    requires opening.TradeOpened? && closing.TradeClosed?
    requires opening.tradeId == closing.tradeId && opening.id != closing.id
    ensures var published := [Record(opening, session), Record(closing, session), Record(opening, session)];
            && opening.tradeId in Fold(EMPTY, SessionEvents(published, session), maxRecent).positions
            && opening.tradeId !in Fold(EMPTY, SessionEvents(PersistAll([], published), session), maxRecent).positions
  {
    var a, b := Record(opening, session), Record(closing, session);
    var published := [a, b, a];
    assert published[..2] == [a, b] && [a, b][..1] == [a] && [a][..0] == [];
    assert PersistAll([], published) == [a, b] by {
      assert PersistAll([], [a]) == [a];
      assert IdsOf([a]) == {opening.id} && IdsOf([a, b]) == {opening.id, closing.id};
    }
    assert SessionEvents([a, b], session) == [opening, closing] by {
      assert SessionEvents([a], session) == [opening];
    }
    assert SessionEvents(published, session) == [opening, closing, opening];
    assert [opening, closing, opening][..2] == [opening, closing];
    PositionsAreOpenTrades([opening, closing, opening], maxRecent, opening.tradeId);
    PositionsAreOpenTrades([opening, closing], maxRecent, opening.tradeId);
  }
}
