/** Exporting and restoring the configuration table (src/config/snapshots.py). The content hash is a
    parameter; every snapshot entry carries all of its fields. */
module ConfigSnapshots {
  import opened Common
  import opened ConfigRepository

  datatype Item = Item(entry: Entry, version: nat)

  datatype Snapshot = Snapshot(version: string, items: seq<Item>, checksum: string)

  datatype Detail = Detail(key: Key, action: string, oldValue: Option<string>, newValue: string)

  datatype Changes = Changes(created: nat, updated: nat, skipped: nat, details: seq<Detail>)

  datatype Report = Report(changes: Changes, dryRun: bool, total: nat)

  datatype Progress = Progress(db: Db, changes: Changes)

  function ItemOf(k: Key, row: Row): Item {
    Item(Entry(k, row.value, row.valueType, row.description, row.isSecret, row.isEditable, row.rule), row.version)
  }

  /** An empty list of categories means all of them. */
  predicate Chosen(categories: seq<string>, k: Key) {
    categories == [] || k.category in categories
  }

  /** A snapshot without a checksum is taken on trust. */
  predicate Intact(hash: seq<Item> -> string, s: Snapshot) {
    s.checksum == "" || hash(s.items) == s.checksum
  }

  function Selected(items: seq<Item>, categories: seq<string>, skipSecrets: bool): (es: seq<Entry>)
    ensures forall e :: e in es <==>
              exists i :: 0 <= i < |items| && items[i].entry == e && Chosen(categories, e.key)
                          && !(skipSecrets && e.isSecret)
  {
    if items == [] then []
    else
      var front, e := Selected(items[..|items| - 1], categories, skipSecrets), items[|items| - 1].entry;
      if Chosen(categories, e.key) && !(skipSecrets && e.isSecret) then front + [e] else front
  }

  function Look(table: map<Key, Row>, k: Key): Option<string> {
    if k in table then Some(table[k].value) else None
  }

  /** One entry of a restore: skipped if the table already holds its value, otherwise counted, reported,
      and, unless this is a dry run, written. */
  function Visit(p: Progress, e: Entry, dryRun: bool, user: string, reason: string): Progress {
    var current, c := Look(p.db.table, e.key), p.changes;
    if current == Some(e.value) then p.(changes := c.(skipped := c.skipped + 1))
    else if current.Some? then
      Progress(if dryRun then p.db else SetDb(p.db, e, user, reason),
               c.(updated := c.updated + 1, details := c.details + [Detail(e.key, "update", current, e.value)]))
    else
      Progress(if dryRun then p.db else SetDb(p.db, e, user, reason),
               c.(created := c.created + 1, details := c.details + [Detail(e.key, "create", current, e.value)]))
  }

  function VisitAll(db: Db, es: seq<Entry>, dryRun: bool, user: string, reason: string): Progress {
    if es == [] then Progress(db, Changes(0, 0, 0, []))
    else Visit(VisitAll(db, es[..|es| - 1], dryRun, user, reason), es[|es| - 1], dryRun, user, reason)
  }

  lemma VisitNext(db: Db, es: seq<Entry>, i: nat, dryRun: bool, user: string, reason: string)
    requires i < |es|
    ensures VisitAll(db, es[..i + 1], dryRun, user, reason)
         == Visit(VisitAll(db, es[..i], dryRun, user, reason), es[i], dryRun, user, reason)
  {
    assert es[..i + 1][..i] == es[..i];
  }

  ghost predicate DistinctKeys(es: seq<Entry>) {
    forall i, j :: 0 <= i < j < |es| ==> es[i].key != es[j].key
  }

  /** The items are the chosen rows of the table, each once. */
  ghost predicate Covers(items: seq<Item>, table: map<Key, Row>, categories: seq<string>) {
    && (forall i, j :: 0 <= i < j < |items| ==> items[i].entry.key != items[j].entry.key)
    && (forall i :: 0 <= i < |items| ==>
         var k := items[i].entry.key; k in table && Chosen(categories, k) && items[i] == ItemOf(k, table[k]))
    && (forall k :: k in table && Chosen(categories, k) ==> exists i :: 0 <= i < |items| && items[i].entry.key == k)
  }

  class SnapshotManager {
    const repo: Repository
    const hash: seq<Item> -> string

    constructor (repo: Repository, hash: seq<Item> -> string)
      ensures this.repo == repo && this.hash == hash
    {
      this.repo, this.hash := repo, hash;
    }

    /** The rows come in whatever order the table yields them. */
    method Export(version: string, categories: seq<string>) returns (s: Snapshot)
      ensures s.version == version && Covers(s.items, repo.table, categories) && Intact(hash, s)
    {
      var items: seq<Item> := [];
      var pending := repo.table.Keys;
      while pending != {}
        invariant pending <= repo.table.Keys
        invariant forall i, j :: 0 <= i < j < |items| ==> items[i].entry.key != items[j].entry.key
        invariant forall i :: 0 <= i < |items| ==>
          var k := items[i].entry.key;
          k in repo.table && k !in pending && Chosen(categories, k) && items[i] == ItemOf(k, repo.table[k])
        invariant forall k :: k in repo.table && k !in pending && Chosen(categories, k) ==>
          exists i :: 0 <= i < |items| && items[i].entry.key == k
        decreases |pending|
      {
        var k :| k in pending;
        ghost var before := items;
        if Chosen(categories, k) {
          items := items + [ItemOf(k, repo.table[k])];
          assert items[|before|].entry.key == k;
        }
        assert forall i :: 0 <= i < |before| ==> items[i] == before[i];
        pending := pending - {k};
      }
      s := Snapshot(version, items, hash(items));
    }

    method Restore(s: Snapshot, user: string, categories: seq<string>, dryRun: bool, skipSecrets: bool)
      returns (r: Option<Report>)
      modifies repo
      ensures r.Some? <==> s.checksum == "" || s.checksum == hash(s.items)
      ensures r.None? ==> repo.View() == old(repo.View())
      ensures r.Some? ==>
        var es := Selected(s.items, categories, skipSecrets);
        var p := VisitAll(old(repo.View()), es, dryRun, user, "Restored from snapshot " + s.version);
        repo.View() == p.db && r.value == Report(p.changes, dryRun, |es|)
    {
      if s.checksum != "" && hash(s.items) != s.checksum {
        return None;
      }
      var es := Selected(s.items, categories, skipSecrets);
      var reason := "Restored from snapshot " + s.version;
      var c := Changes(0, 0, 0, []);
      for i := 0 to |es|
        invariant Progress(repo.View(), c) == VisitAll(old(repo.View()), es[..i], dryRun, user, reason)
      {
        hide SetDb, VisitAll, Selected;
        VisitNext(old(repo.View()), es, i, dryRun, user, reason);
        var existing := repo.Get(es[i].key);
        if existing.Some? && existing.value.value == es[i].value {
          c := c.(skipped := c.skipped + 1);
          continue;
        }
        var action := if existing.Some? then "update" else "create";
        var oldValue := if existing.Some? then Some(existing.value.value) else None;
        c := c.(details := c.details + [Detail(es[i].key, action, oldValue, es[i].value)]);
        if !dryRun {
          var _ := repo.Set(es[i], user, reason);
        }
        if action == "create" {
          c := c.(created := c.created + 1);
        } else {
          c := c.(updated := c.updated + 1);
        }
      }
      assert es[..|es|] == es;
      r := Some(Report(c, dryRun, |es|));
    }
  }

  // ---------- What a restore does ----------

  /** Value of the last entry about a key. */
  function LastValue(es: seq<Entry>, k: Key): Option<string> {
    if es == [] then None
    else if es[|es| - 1].key == k then Some(es[|es| - 1].value)
    else LastValue(es[..|es| - 1], k)
  }

  lemma SetWritesOneKey(db: Db, e: Entry, user: string, reason: string)
    ensures var db' := SetDb(db, e, user, reason);
            && e.key in db'.table && db'.table[e.key] == Stored(db.table, e, user) && db'.table[e.key].value == e.value
            && (forall k :: k != e.key ==>
                 (k in db'.table <==> k in db.table) && (k in db.table ==> db'.table[k] == db.table[k]))
            && db'.audit == db.audit + [SetAudit(db.table, e, user, reason)]
  {
  }

  /** After a restore, every key named holds the value its last entry gives it, and every other row is
      untouched: for any entries, repeated keys included. */
  lemma {:induction false} RestoreWrites(db: Db, es: seq<Entry>, user: string, reason: string, k: Key)
    ensures var t := VisitAll(db, es, false, user, reason).db.table;
            && Look(t, k) == (if LastValue(es, k).Some? then LastValue(es, k) else Look(db.table, k))
            && (LastValue(es, k).None? && k in db.table ==> t[k] == db.table[k])
  {
    hide SetDb;
    if es != [] {
      var front := es[..|es| - 1];
      RestoreWrites(db, front, user, reason, k);
      SetWritesOneKey(VisitAll(db, front, false, user, reason).db, es[|es| - 1], user, reason);
    }
  }

  /** A dry run leaves table and log alone. */
  lemma {:induction false} DryRunWritesNothing(db: Db, es: seq<Entry>, user: string, reason: string)
    ensures VisitAll(db, es, true, user, reason).db == db
  {
    if es != [] {
      DryRunWritesNothing(db, es[..|es| - 1], user, reason);
    }
  }

  /** Every selected entry is counted once, dry run or not, and every change is reported. */
  lemma {:induction false} CountsAddUp(db: Db, es: seq<Entry>, dryRun: bool, user: string, reason: string)
    ensures var c := VisitAll(db, es, dryRun, user, reason).changes;
            c.created + c.updated + c.skipped == |es| && |c.details| == c.created + c.updated
  {
    if es != [] {
      CountsAddUp(db, es[..|es| - 1], dryRun, user, reason);
    }
  }

  function CountOf(ds: seq<Detail>, action: string): nat {
    if ds == [] then 0 else CountOf(ds[..|ds| - 1], action) + if ds[|ds| - 1].action == action then 1 else 0
  }

  lemma CountSnoc(ds: seq<Detail>, d: Detail, action: string)
    ensures CountOf(ds + [d], action) == CountOf(ds, action) + if d.action == action then 1 else 0
  {
    assert (ds + [d])[..|ds|] == ds;
  }

  /** The two counters count the reported actions, and an action is a creation exactly if there was no value
      before; an update always changes the value. */
  ghost predicate CountsActions(c: Changes) {
    && c.created == CountOf(c.details, "create") && c.updated == CountOf(c.details, "update")
    && (forall i :: 0 <= i < |c.details| ==> Honest(c.details[i]))
  }

  predicate Honest(d: Detail) {
    d.action == (if d.oldValue.None? then "create" else "update") && d.oldValue != Some(d.newValue)
  }

  lemma VisitCountsActions(p: Progress, e: Entry, dryRun: bool, user: string, reason: string)
    requires CountsActions(p.changes)
    ensures CountsActions(Visit(p, e, dryRun, user, reason).changes)
  {
    hide SetDb, CountOf, Look;
    var before := Look(p.db.table, e.key);
    assert "update"[0] != "create"[0];
    if before != Some(e.value) {
      var d := Detail(e.key, if before.Some? then "update" else "create", before, e.value);
      CountSnoc(p.changes.details, d, "create");
      CountSnoc(p.changes.details, d, "update");
    }
  }

  lemma {:induction false} CountsByAction(db: Db, es: seq<Entry>, dryRun: bool, user: string, reason: string)
    ensures CountsActions(VisitAll(db, es, dryRun, user, reason).changes)
  {
    hide Visit, CountsActions;
    if es != [] {
      CountsByAction(db, es[..|es| - 1], dryRun, user, reason);
      VisitCountsActions(VisitAll(db, es[..|es| - 1], dryRun, user, reason), es[|es| - 1], dryRun, user, reason);
    } else {
      NothingCounted();
    }
  }

  lemma NothingCounted()
    ensures CountsActions(Changes(0, 0, 0, []))
  {
  }

  /** The changes a restore reports are, one for one, the audit rows it appends. */
  lemma {:induction false} ReportMatchesAudit(db: Db, es: seq<Entry>, user: string, reason: string)
    ensures var p := VisitAll(db, es, false, user, reason);
            && |p.db.audit| == |db.audit| + |p.changes.details|
            && p.db.audit[..|db.audit|] == db.audit
            && (forall i :: 0 <= i < |p.changes.details| ==>
                 var a, d := p.db.audit[|db.audit| + i], p.changes.details[i];
                 a.key == d.key && a.oldValue == d.oldValue && a.newValue == d.newValue)
  {
    if es != [] {
      var front, e := es[..|es| - 1], es[|es| - 1];
      ReportMatchesAudit(db, front, user, reason);
      hide SetDb;
      SetWritesOneKey(VisitAll(db, front, false, user, reason).db, e, user, reason);
    }
  }

  lemma {:induction false} LastValueOf(es: seq<Entry>, k: Key)
    ensures LastValue(es, k).Some? ==>
              exists i :: 0 <= i < |es| && es[i].key == k && LastValue(es, k) == Some(es[i].value)
    ensures forall i :: 0 <= i < |es| && es[i].key == k ==> LastValue(es, k).Some?
  {
    if es != [] {
      var front := es[..|es| - 1];
      LastValueOf(front, k);
      if es[|es| - 1].key != k && LastValue(es, k).Some? {
        var i :| 0 <= i < |front| && front[i].key == k && LastValue(front, k) == Some(front[i].value);
        assert es[i] == front[i];
      }
    }
  }

  /** The row left for an entry when keys are distinct: untouched if the value was already there,
      version 1 if the key is new, otherwise one version up with its secret and editable flags kept. */
  lemma {:induction false} RestoredRow(db: Db, es: seq<Entry>, user: string, reason: string, i: nat)
    requires DistinctKeys(es) && i < |es|
    ensures var t, e := VisitAll(db, es, false, user, reason).db.table, es[i];
            && e.key in t
            && t[e.key] == if Look(db.table, e.key) == Some(e.value) then db.table[e.key] else Stored(db.table, e, user)
  {
    var front, e := es[..|es| - 1], es[|es| - 1];
    var p := VisitAll(db, front, false, user, reason);
    hide SetDb, Stored;
    SetWritesOneKey(p.db, e, user, reason);
    if i < |front| {
      RestoredRow(db, front, user, reason, i);
    } else {
      LastValueOf(front, e.key);
      RestoreWrites(db, front, user, reason, e.key);
      StoredLooksAtOneRow(p.db.table, db.table, e, user);
    }
  }

  lemma StoredLooksAtOneRow(t: map<Key, Row>, u: map<Key, Row>, e: Entry, user: string)
    requires e.key in t <==> e.key in u
    requires e.key in t ==> t[e.key] == u[e.key]
    ensures Stored(t, e, user) == Stored(u, e, user)
  {
  }

  /** With distinct keys, an entry's row ends up with the entry's type exactly if the restore wrote it (its
      value was not already there) or the type was right before. Its secret and editable flags are the
      entry's exactly if the key is new or they were right before. */
  lemma RestoredTypeAndFlags(db: Db, es: seq<Entry>, user: string, reason: string, i: nat)
    requires DistinctKeys(es) && i < |es|
    ensures var t, e := VisitAll(db, es, false, user, reason).db.table, es[i];
            && e.key in t
            && (t[e.key].valueType == e.valueType <==>
                 Look(db.table, e.key) != Some(e.value) || db.table[e.key].valueType == e.valueType)
            && (t[e.key].isSecret == e.isSecret <==>
                 e.key !in db.table || db.table[e.key].isSecret == e.isSecret)
            && (t[e.key].isEditable == e.isEditable <==>
                 e.key !in db.table || db.table[e.key].isEditable == e.isEditable)
  {
    hide VisitAll, DistinctKeys;
    RestoredRow(db, es, user, reason, i);
  }

  // ---------- Restoring twice ----------

  /** Entries about the same key give it the same value. */
  ghost predicate Agreeing(es: seq<Entry>) {
    forall i, j :: 0 <= i < |es| && 0 <= j < |es| && es[i].key == es[j].key ==> es[i].value == es[j].value
  }

  ghost predicate AlreadyHeld(db: Db, es: seq<Entry>) {
    forall i :: 0 <= i < |es| ==> Look(db.table, es[i].key) == Some(es[i].value)
  }

  /** A restore skips everything exactly if the table already holds every entry. */
  lemma {:induction false} SkipsAllExactlyWhenHeld(db: Db, es: seq<Entry>, user: string, reason: string)
    ensures VisitAll(db, es, false, user, reason).changes.skipped == |es| <==> AlreadyHeld(db, es)
    ensures AlreadyHeld(db, es) ==> VisitAll(db, es, false, user, reason) == Progress(db, Changes(0, 0, |es|, []))
  {
    hide SetDb;
    CountsAddUp(db, es, false, user, reason);
    if es != [] {
      var front, e := es[..|es| - 1], es[|es| - 1];
      CountsAddUp(db, front, false, user, reason);
      SkipsAllExactlyWhenHeld(db, front, user, reason);
      assert AlreadyHeld(db, es) <==> AlreadyHeld(db, front) && Look(db.table, e.key) == Some(e.value) by {
        assert forall i :: 0 <= i < |front| ==> es[i] == front[i];
      }
    }
  }

  lemma RestoredTableHolds(db: Db, es: seq<Entry>, user: string, reason: string)
    ensures AlreadyHeld(VisitAll(db, es, false, user, reason).db, es) <==> Agreeing(es)
  {
    hide VisitAll, Look;
    var db' := VisitAll(db, es, false, user, reason).db;
    forall i | 0 <= i < |es| ensures Look(db'.table, es[i].key) == LastValue(es, es[i].key) {
      LastValueOf(es, es[i].key);
      RestoreWrites(db, es, user, reason, es[i].key);
    }
    if Agreeing(es) {
      forall i | 0 <= i < |es| ensures Look(db'.table, es[i].key) == Some(es[i].value) {
        LastValueOf(es, es[i].key);
      }
    }
  }

  /** Restoring the same entries again changes nothing and skips everything, exactly if no two of them
      give one key different values. */
  lemma SecondRestoreSkips(db: Db, es: seq<Entry>, user: string, reason: string)
    ensures var first := VisitAll(db, es, false, user, reason).db;
            var second := VisitAll(first, es, false, user, reason);
            && (second.changes.skipped == |es| <==> Agreeing(es))
            && (Agreeing(es) ==> second == Progress(first, Changes(0, 0, |es|, [])))
  {
    hide VisitAll, AlreadyHeld, Agreeing;
    RestoredTableHolds(db, es, user, reason);
    SkipsAllExactlyWhenHeld(VisitAll(db, es, false, user, reason).db, es, user, reason);
  }

  // ---------- Dry runs ----------

  /** No entry that would change its key is followed by another entry about that key. */
  ghost predicate ChangesOnce(table: map<Key, Row>, es: seq<Entry>) {
    forall i, j :: 0 <= i < j < |es| && es[i].key == es[j].key ==> Look(table, es[i].key) == Some(es[i].value)
  }

  /** The reported changes of one key, in order. */
  function About(ds: seq<Detail>, k: Key): seq<Detail> {
    if ds == [] then []
    else
      var front, d := About(ds[..|ds| - 1], k), ds[|ds| - 1];
      if d.key == k then front + [d] else front
  }

  lemma AboutSnoc(ds: seq<Detail>, d: Detail, k: Key)
    ensures About(ds + [d], k) == if d.key == k then About(ds, k) + [d] else About(ds, k)
  {
    assert (ds + [d])[..|ds|] == ds;
  }

  /** What one entry does to the value and the reported changes of key `k`. */
  lemma VisitAtKey(p: Progress, e: Entry, dryRun: bool, user: string, reason: string, k: Key)
    ensures var p', current := Visit(p, e, dryRun, user, reason), Look(p.db.table, k);
            && Look(p'.db.table, k) == (if e.key == k && !dryRun then Some(e.value) else current)
            && About(p'.changes.details, k)
            == if e.key == k && current != Some(e.value)
               then About(p.changes.details, k) + [Detail(k, if current.Some? then "update" else "create", current, e.value)]
               else About(p.changes.details, k)
  {
    hide SetDb, About;
    SetWritesOneKey(p.db, e, user, reason);
    var current := Look(p.db.table, e.key);
    AboutSnoc(p.changes.details, Detail(e.key, if current.Some? then "update" else "create", current, e.value), k);
  }

  /** A chain of changes of one key's value from `start` to `end`. */
  ghost predicate Chain(start: Option<string>, ds: seq<Detail>, end: Option<string>) {
    && (ds == [] ==> end == start)
    && (ds != [] ==> Some(ds[0].newValue) != start && end == Some(ds[|ds| - 1].newValue))
    && (|ds| >= 2 ==> ds[1].oldValue == Some(ds[0].newValue))
  }

  lemma {:induction false} RestoreReportsChain(db: Db, es: seq<Entry>, user: string, reason: string, k: Key)
    ensures var p := VisitAll(db, es, false, user, reason);
            Chain(Look(db.table, k), About(p.changes.details, k), Look(p.db.table, k))
  {
    hide Visit, Look, About;
    if es != [] {
      var front, e := es[..|es| - 1], es[|es| - 1];
      RestoreReportsChain(db, front, user, reason, k);
      VisitAtKey(VisitAll(db, front, false, user, reason), e, false, user, reason, k);
    } else {
      AboutNothing(k);
    }
  }

  lemma AboutNothing(k: Key)
    ensures About([], k) == []
  {
  }

  /** Number of entries about `k` whose value is not `held`. */
  function Departures(es: seq<Entry>, k: Key, held: Option<string>): nat {
    if es == [] then 0
    else
      var e := es[|es| - 1];
      Departures(es[..|es| - 1], k, held) + if e.key == k && held != Some(e.value) then 1 else 0
  }

  lemma {:induction false} DeparturesCount(es: seq<Entry>, k: Key, held: Option<string>, i: nat, j: nat)
    requires i < j < |es| && es[i].key == es[j].key == k && held != Some(es[i].value)
    ensures Departures(es, k, held) >= 1
    ensures held != Some(es[j].value) ==> Departures(es, k, held) >= 2
    ensures Departures(es, k, held) == 1 ==> LastValue(es, k) == held
  {
    var front := es[..|es| - 1];
    if j < |front| {
      DeparturesCount(front, k, held, i, j);
    } else {
      DeparturesNonzero(front, k, held, i);
    }
  }

  lemma {:induction false} DeparturesNonzero(es: seq<Entry>, k: Key, held: Option<string>, i: nat)
    requires i < |es| && es[i].key == k && held != Some(es[i].value)
    ensures Departures(es, k, held) >= 1
  {
    if i < |es| - 1 {
      DeparturesNonzero(es[..|es| - 1], k, held, i);
    }
  }

  /** A dry run reports each departure from the table, always against the table's own value. */
  lemma {:induction false} DryRunReports(db: Db, es: seq<Entry>, user: string, reason: string, k: Key)
    ensures var held, ds := Look(db.table, k), About(VisitAll(db, es, true, user, reason).changes.details, k);
            && |ds| == Departures(es, k, held)
            && (forall i :: 0 <= i < |ds| ==> ds[i].oldValue == held)
  {
    hide Visit, Look, About;
    if es != [] {
      var front, e := es[..|es| - 1], es[|es| - 1];
      DryRunReports(db, front, user, reason, k);
      DryRunWritesNothing(db, front, user, reason);
      VisitAtKey(VisitAll(db, front, true, user, reason), e, true, user, reason, k);
    } else {
      AboutNothing(k);
    }
  }

  /** If the two reports are the same, no changed key is named again. */
  lemma SameReportsChangeOnce(db: Db, es: seq<Entry>, user: string, reason: string, i: nat, j: nat)
    requires VisitAll(db, es, true, user, reason).changes == VisitAll(db, es, false, user, reason).changes
    requires i < j < |es| && es[i].key == es[j].key
    ensures Look(db.table, es[i].key) == Some(es[i].value)
  {
    hide VisitAll, Look, About, Departures, LastValue;
    var k := es[i].key;
    var held := Look(db.table, k);
    if held != Some(es[i].value) {
      DryRunReports(db, es, user, reason, k);
      RestoreReportsChain(db, es, user, reason, k);
      DeparturesCount(es, k, held, i, j);
      RestoreWrites(db, es, user, reason, k);
      LastValueOf(es, k);
    }
  }

  /** While no changed key is named again, dry run and restore report the same, step by step. */
  lemma {:induction false} ChangesOnceReportsAgree(db: Db, es: seq<Entry>, user: string, reason: string)
    requires ChangesOnce(db.table, es)
    ensures VisitAll(db, es, true, user, reason).changes == VisitAll(db, es, false, user, reason).changes
  {
    hide SetDb, Look;
    if es != [] {
      var front, e := es[..|es| - 1], es[|es| - 1];
      ChangesOnceReportsAgree(db, front, user, reason);
      DryRunWritesNothing(db, front, user, reason);
      RestoreWrites(db, front, user, reason, e.key);
      LastValueOf(front, e.key);
      if LastValue(front, e.key).Some? {
        var i :| 0 <= i < |front| && front[i].key == e.key && LastValue(front, e.key) == Some(front[i].value);
        assert es[i] == front[i];
      }
    }
  }

  /** A dry run reports exactly what the restore would do if and only if no entry that changes its key is
      followed by another entry about that key; with distinct keys it always does. */
  lemma DryRunForetells(db: Db, es: seq<Entry>, user: string, reason: string)
    ensures VisitAll(db, es, true, user, reason).changes == VisitAll(db, es, false, user, reason).changes
       <==> ChangesOnce(db.table, es)
    ensures DistinctKeys(es) ==> ChangesOnce(db.table, es)
  {
    hide VisitAll, Look;
    if ChangesOnce(db.table, es) {
      ChangesOnceReportsAgree(db, es, user, reason);
    } else {
      var i, j :| 0 <= i < j < |es| && es[i].key == es[j].key && Look(db.table, es[i].key) != Some(es[i].value);
      if VisitAll(db, es, true, user, reason).changes == VisitAll(db, es, false, user, reason).changes {
        SameReportsChangeOnce(db, es, user, reason, i, j);
      }
    }
  }

  // ---------- Export, then restore ----------

  predicate Wanted(categories: seq<string>, skipSecrets: bool, k: Key, row: Row) {
    Chosen(categories, k) && !(skipSecrets && row.isSecret)
  }

  lemma {:induction false} SelectedDistinct(items: seq<Item>, categories: seq<string>, skipSecrets: bool)
    requires forall i, j :: 0 <= i < j < |items| ==> items[i].entry.key != items[j].entry.key
    ensures DistinctKeys(Selected(items, categories, skipSecrets))
  {
    if items != [] {
      var front := items[..|items| - 1];
      SelectedDistinct(front, categories, skipSecrets);
      var es := Selected(front, categories, skipSecrets);
      forall i | 0 <= i < |es| ensures es[i].key != items[|items| - 1].entry.key {
        assert es[i] in es;
      }
    }
  }

  /** Restoring an export of table `source` into any database gives every wanted row of the source its
      value there and leaves every other row alone; a second restore of it skips every entry; and a dry run
      foretells the report. */
  lemma ExportThenRestore(
      source: map<Key, Row>, items: seq<Item>, exported: seq<string>, categories: seq<string>, skipSecrets: bool,
      db: Db, user: string, reason: string, k: Key)
    requires Covers(items, source, exported)
    ensures var es := Selected(items, categories, skipSecrets);
            var p := VisitAll(db, es, false, user, reason);
            && (if k in source && (exported == [] || k.category in exported)
                   && (categories == [] || k.category in categories) && !(skipSecrets && source[k].isSecret)
                then k in p.db.table && p.db.table[k].value == source[k].value
                else (k in p.db.table <==> k in db.table) && (k in db.table ==> p.db.table[k] == db.table[k]))
            && VisitAll(p.db, es, false, user, reason) == Progress(p.db, Changes(0, 0, |es|, []))
            && VisitAll(db, es, true, user, reason) == Progress(db, p.changes)
  {
    hide VisitAll, Selected, LastValue;
    var es := Selected(items, categories, skipSecrets);
    SelectedDistinct(items, categories, skipSecrets);
    SecondRestoreSkips(db, es, user, reason);
    DryRunForetells(db, es, user, reason);
    DryRunWritesNothing(db, es, user, reason);
    RestoreWrites(db, es, user, reason, k);
    LastValueOf(es, k);
    assert LastValue(es, k) == (if k in source && Chosen(exported, k) && Wanted(categories, skipSecrets, k, source[k])
                                then Some(source[k].value) else None) by {
      ExportedEntry(source, items, exported, categories, skipSecrets, k);
    }
  }

  lemma ExportedEntry(
      source: map<Key, Row>, items: seq<Item>, exported: seq<string>, categories: seq<string>, skipSecrets: bool, k: Key)
    requires Covers(items, source, exported)
    ensures LastValue(Selected(items, categories, skipSecrets), k)
         == if k in source && Chosen(exported, k) && Wanted(categories, skipSecrets, k, source[k])
            then Some(source[k].value) else None
  {
    hide LastValue;
    var es := Selected(items, categories, skipSecrets);
    if k in source && Chosen(exported, k) && Wanted(categories, skipSecrets, k, source[k]) {
      var i :| 0 <= i < |items| && items[i].entry.key == k;
      assert items[i].entry in es;
    }
    LastValueOf(es, k);
    if LastValue(es, k).Some? {
      var i :| 0 <= i < |es| && es[i].key == k && LastValue(es, k) == Some(es[i].value);
      assert es[i] in es;
    }
  }

  /** Cloning: a wanted row restored into a database without its key is the exported row with version one,
      whoever restored it as its writer. */
  lemma RestoredClone(
      source: map<Key, Row>, items: seq<Item>, exported: seq<string>, categories: seq<string>, skipSecrets: bool,
      db: Db, user: string, reason: string, k: Key)
    requires Covers(items, source, exported) && k in source && Chosen(exported, k)
    requires Wanted(categories, skipSecrets, k, source[k]) && k !in db.table
    ensures var t, row := VisitAll(db, Selected(items, categories, skipSecrets), false, user, reason).db.table, source[k];
            && k in t
            && t[k] == Row(row.value, row.valueType, row.description, row.isSecret, row.isEditable, row.rule, user, 1)
  {
    hide VisitAll, LastValue;
    var es := Selected(items, categories, skipSecrets);
    SelectedDistinct(items, categories, skipSecrets);
    var j :| 0 <= j < |items| && items[j].entry.key == k;
    assert items[j].entry in es;
    var i :| 0 <= i < |es| && es[i] == items[j].entry;
    RestoredRow(db, es, user, reason, i);
  }

  /** An exported item also carries the version of its row. */
  lemma ExportedVersion(source: map<Key, Row>, items: seq<Item>, exported: seq<string>, i: nat)
    requires Covers(items, source, exported) && i < |items|
    ensures items[i].entry.key in source && items[i].version == source[items[i].entry.key].version
  {
  }
}
