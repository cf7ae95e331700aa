/** The configuration table and its audit log (src/config/repository.py). Timestamps and row ids are left
    out; the table is a map from (category, key) to the current row. */
module ConfigRepository {
  import opened Common

  const DELETED := "<DELETED>"

  datatype Key = Key(category: string, name: string)

  datatype Row = Row(
    value: string, valueType: string, description: string, isSecret: bool, isEditable: bool, rule: string,
    updatedBy: string, version: nat)

  datatype Audit = Audit(
    key: Key, oldValue: Option<string>, newValue: string, oldVersion: Option<nat>, newVersion: nat,
    changedBy: string, reason: string)

  /** What a caller asks to be stored. */
  datatype Entry = Entry(
    key: Key, value: string, valueType: string, description: string, isSecret: bool, isEditable: bool, rule: string)

  datatype Db = Db(table: map<Key, Row>, audit: seq<Audit>)

  const EMPTY := Db(map[], [])

  /** Row after storing `e`: an update keeps the secret and editable flags, and keeps description and rule
      when the new ones are empty. */
  function Stored(table: map<Key, Row>, e: Entry, user: string): Row {
    if e.key in table then
      var row := table[e.key];
      row.(value := e.value, valueType := e.valueType, version := row.version + 1, updatedBy := user,
           description := if e.description != "" then e.description else row.description,
           rule := if e.rule != "" then e.rule else row.rule)
    else Row(e.value, e.valueType, e.description, e.isSecret, e.isEditable, e.rule, user, 1)
  }

  function SetAudit(table: map<Key, Row>, e: Entry, user: string, reason: string): Audit {
    if e.key in table then
      Audit(e.key, Some(table[e.key].value), e.value, Some(table[e.key].version), table[e.key].version + 1, user, reason)
    else
      Audit(e.key, None, e.value, None, 1, user, if reason != "" then reason else "initial_creation")
  }

  function SetDb(db: Db, e: Entry, user: string, reason: string): Db {
    Db(db.table[e.key := Stored(db.table, e, user)], db.audit + [SetAudit(db.table, e, user, reason)])
  }

  function DeleteDb(db: Db, k: Key, user: string): Db {
    if k in db.table then
      Db(db.table - {k},
         db.audit + [Audit(k, Some(db.table[k].value), DELETED, Some(db.table[k].version), db.table[k].version + 1, user, "deleted")])
    else db
  }

  function BulkDb(db: Db, entries: seq<Entry>, user: string, reason: string): Db {
    if entries == [] then db
    else SetDb(BulkDb(db, entries[..|entries| - 1], user, reason), entries[|entries| - 1], user, reason)
  }

  class Repository {
    var table: map<Key, Row>
    var audit: seq<Audit>

    ghost function View(): Db
      reads this
    {
      Db(table, audit)
    }

    constructor ()
      ensures View() == EMPTY
    {
      table, audit := map[], [];
    }

    method Get(k: Key) returns (r: Option<Row>)
      ensures r == if k in table then Some(table[k]) else None
    {
      r := if k in table then Some(table[k]) else None;
    }

    method Set(e: Entry, user: string, reason: string) returns (r: Row)
      modifies this
      ensures View() == SetDb(old(View()), e, user, reason) && r == table[e.key]
    {
      if e.key in table {
        var existing := table[e.key];
        var oldValue, oldVersion := existing.value, existing.version;
        existing := existing.(value := e.value, valueType := e.valueType, version := oldVersion + 1, updatedBy := user);
        if e.description != "" {
          existing := existing.(description := e.description);
        }
        if e.rule != "" {
          existing := existing.(rule := e.rule);
        }
        table := table[e.key := existing];
        audit := audit + [Audit(e.key, Some(oldValue), e.value, Some(oldVersion), existing.version, user, reason)];
        r := existing;
      } else {
        r := Row(e.value, e.valueType, e.description, e.isSecret, e.isEditable, e.rule, user, 1);
        table := table[e.key := r];
        audit := audit + [Audit(e.key, None, e.value, None, 1, user, if reason != "" then reason else "initial_creation")];
      }
    }

    method Delete(k: Key, user: string) returns (deleted: bool)
      modifies this
      ensures View() == DeleteDb(old(View()), k, user)
      ensures deleted <==> k in old(table)
    {
      if k !in table {
        return false;
      }
      var existing := table[k];
      audit := audit + [Audit(k, Some(existing.value), DELETED, Some(existing.version), existing.version + 1, user, "deleted")];
      table := table - {k};
      deleted := true;
    }

    method BulkSet(entries: seq<Entry>, user: string, reason: string) returns (count: nat)
      modifies this
      ensures View() == BulkDb(old(View()), entries, user, reason) && count == |entries|
    {
      count := 0;
      for i := 0 to |entries|
        invariant View() == BulkDb(old(View()), entries[..i], user, reason) && count == i
      {
        assert entries[..i + 1][..i] == entries[..i];
        hide SetDb;
        var _ := Set(entries[i], user, reason);
        count := count + 1;
      }
      assert entries[..|entries|] == entries;
    }
  }

  // ---------- Runs ----------

  datatype Op =
    | Put(entry: Entry, user: string, reason: string)
    | Remove(key: Key, user: string)
    | Bulk(entries: seq<Entry>, user: string, reason: string)

  function Do(db: Db, op: Op): Db {
    match op
    case Put(e, user, reason) => SetDb(db, e, user, reason)
    case Remove(k, user) => DeleteDb(db, k, user)
    case Bulk(es, user, reason) => BulkDb(db, es, user, reason)
  }

  function Run(ops: seq<Op>): Db {
    if ops == [] then EMPTY else Do(Run(ops[..|ops| - 1]), ops[|ops| - 1])
  }

  // ---------- The log determines the table ----------

  /** Value and version of every key, read off the audit log alone. */
  function Fold(audit: seq<Audit>): map<Key, (string, nat)> {
    if audit == [] then map[]
    else
      var a := audit[|audit| - 1];
      if a.newValue == DELETED then Fold(audit[..|audit| - 1]) - {a.key}
      else Fold(audit[..|audit| - 1])[a.key := (a.newValue, a.newVersion)]
  }

  function Contents(table: map<Key, Row>): map<Key, (string, nat)> {
    map k | k in table :: (table[k].value, table[k].version)
  }

  /** The rows whose value is not the delete marker. */
  function Unmarked(table: map<Key, Row>): map<Key, (string, nat)> {
    map k | k in table && table[k].value != DELETED :: (table[k].value, table[k].version)
  }

  /** Last audit row about a key. */
  function LastRow(audit: seq<Audit>, k: Key): Option<Audit> {
    if audit == [] then None
    else if audit[|audit| - 1].key == k then Some(audit[|audit| - 1])
    else LastRow(audit[..|audit| - 1], k)
  }

  /** A new audit row `a` continues the log before it: an update or deletion starts from exactly what the
      key's previous row ended with; a creation starts at version 1 from a key never seen or deleted. */
  predicate Continues(before: seq<Audit>, a: Audit) {
    var last := LastRow(before, a.key);
    if a.oldVersion.Some? then
      && last.Some? && a.oldValue == Some(last.value.newValue) && a.oldVersion == Some(last.value.newVersion)
      && a.newVersion == last.value.newVersion + 1
    else a.oldValue.None? && a.newVersion == 1 && (last.Some? ==> last.value.newValue == DELETED)
  }

  ghost predicate Chained(audit: seq<Audit>) {
    forall i :: 0 <= i < |audit| ==> Continues(audit[..i], audit[i])
  }

  /** The table and the log agree: every stored row is its key's last audit row, every other key was never
      seen or deleted, and folding the log gives the unmarked rows. */
  ghost predicate Consistent(db: Db) {
    && (forall k :: k in db.table ==>
         var last := LastRow(db.audit, k);
         last.Some? && last.value.newValue == db.table[k].value && last.value.newVersion == db.table[k].version)
    && (forall k :: k !in db.table ==>
         var last := LastRow(db.audit, k); last.Some? ==> last.value.newValue == DELETED)
    && Fold(db.audit) == Unmarked(db.table)
    && Chained(db.audit)
  }

  lemma LogGrows(audit: seq<Audit>, a: Audit)
    requires Chained(audit) && Continues(audit, a)
    ensures Chained(audit + [a])
    ensures Fold(audit + [a]) == if a.newValue == DELETED then Fold(audit) - {a.key} else Fold(audit)[a.key := (a.newValue, a.newVersion)]
    ensures forall k :: LastRow(audit + [a], k) == if k == a.key then Some(a) else LastRow(audit, k)
  {
    assert (audit + [a])[..|audit|] == audit;
    forall i | 0 <= i < |audit + [a]| ensures Continues((audit + [a])[..i], (audit + [a])[i]) {
      if i < |audit| {
        assert (audit + [a])[..i] == audit[..i];
      }
    }
  }

  lemma StoredMatchesAudit(table: map<Key, Row>, e: Entry, user: string, reason: string)
    ensures var r, a := Stored(table, e, user), SetAudit(table, e, user, reason);
            r.value == e.value == a.newValue && r.version == a.newVersion && a.key == e.key
  {
  }

  lemma SetContinues(db: Db, e: Entry, user: string, reason: string)
    requires Consistent(db)
    ensures Continues(db.audit, SetAudit(db.table, e, user, reason))
  {
    hide Fold, Unmarked, Chained;
  }

  lemma SetUnmarked(table: map<Key, Row>, k: Key, r: Row)
    ensures Unmarked(table[k := r])
         == if r.value == DELETED then Unmarked(table) - {k} else Unmarked(table)[k := (r.value, r.version)]
  {
  }

  lemma SetConsistent(db: Db, e: Entry, user: string, reason: string)
    requires Consistent(db)
    ensures Consistent(SetDb(db, e, user, reason))
  {
    hide Stored, SetAudit, Chained, Fold, LastRow, Continues, Unmarked;
    SetContinues(db, e, user, reason);
    StoredMatchesAudit(db.table, e, user, reason);
    SetUnmarked(db.table, e.key, Stored(db.table, e, user));
    LogGrows(db.audit, SetAudit(db.table, e, user, reason));
  }

  lemma DeleteConsistent(db: Db, k: Key, user: string)
    requires Consistent(db)
    ensures Consistent(DeleteDb(db, k, user))
  {
    if k in db.table {
      var db' := DeleteDb(db, k, user);
      LogGrows(db.audit, db'.audit[|db.audit|]);
      hide Chained, Fold, LastRow, Continues;
      assert Unmarked(db'.table) == Unmarked(db.table) - {k};
    }
  }

  lemma {:induction false} BulkConsistent(db: Db, entries: seq<Entry>, user: string, reason: string)
    requires Consistent(db)
    ensures Consistent(BulkDb(db, entries, user, reason))
  {
    hide Consistent, SetDb;
    if entries != [] {
      BulkConsistent(db, entries[..|entries| - 1], user, reason);
      SetConsistent(BulkDb(db, entries[..|entries| - 1], user, reason), entries[|entries| - 1], user, reason);
    }
  }

  lemma {:induction false} RunsConsistent(ops: seq<Op>)
    ensures Consistent(Run(ops))
  {
    if ops != [] {
      var db, op := Run(ops[..|ops| - 1]), ops[|ops| - 1];
      RunsConsistent(ops[..|ops| - 1]);
      hide Consistent, SetDb, DeleteDb, BulkDb;
      match op
      case Put(e, user, reason) => SetConsistent(db, e, user, reason);
      case Remove(k, user) => DeleteConsistent(db, k, user);
      case Bulk(es, user, reason) => BulkConsistent(db, es, user, reason);
    }
  }

  /** After any sequence of operations, folding the audit log gives back presence, value and version of
      every key, exactly if no key currently stores the delete marker as its value. */
  lemma AuditDeterminesTable(ops: seq<Op>)
    ensures var db := Run(ops);
            Fold(db.audit) == Contents(db.table) <==> forall k :: k in db.table ==> db.table[k].value != DELETED
  {
    RunsConsistent(ops);
    var db := Run(ops);
    hide Run, Fold, Chained, LastRow;
    if forall k :: k in db.table ==> db.table[k].value != DELETED {
      assert Unmarked(db.table) == Contents(db.table);
    } else {
      var k :| k in db.table && db.table[k].value == DELETED;
      assert k in Contents(db.table) && k !in Unmarked(db.table);
    }
  }

  /** Every audit row starts from what the previous row about its key ended with. */
  lemma AuditRowsAreLinked(ops: seq<Op>, i: nat)
    requires i < |Run(ops).audit|
    ensures Continues(Run(ops).audit[..i], Run(ops).audit[i])
  {
    RunsConsistent(ops);
    hide Run, Fold, LastRow, Continues, Unmarked;
  }

  // ---------- What a read returns ----------

  /** One write of a key: what was stored, by whom and why. */
  datatype Write = Write(entry: Entry, user: string, reason: string)

  function WritesAbout(es: seq<Entry>, user: string, reason: string, k: Key): seq<Write> {
    if es == [] then []
    else
      var front, e := WritesAbout(es[..|es| - 1], user, reason, k), es[|es| - 1];
      if e.key == k then front + [Write(e, user, reason)] else front
  }

  /** The writes of a key since it was last removed, read off the run. */
  function WritesOf(ops: seq<Op>, k: Key): seq<Write> {
    if ops == [] then []
    else
      var front := WritesOf(ops[..|ops| - 1], k);
      match ops[|ops| - 1]
      case Put(e, user, reason) => if e.key == k then front + [Write(e, user, reason)] else front
      case Remove(key, _) => if key == k then [] else front
      case Bulk(es, user, reason) => front + WritesAbout(es, user, reason, k)
  }

  function LastDescription(ws: seq<Write>): string {
    if ws == [] then ""
    else if ws[|ws| - 1].entry.description != "" then ws[|ws| - 1].entry.description
    else LastDescription(ws[..|ws| - 1])
  }

  function LastRule(ws: seq<Write>): string {
    if ws == [] then ""
    else if ws[|ws| - 1].entry.rule != "" then ws[|ws| - 1].entry.rule
    else LastRule(ws[..|ws| - 1])
  }

  /** The row of a key tells its writes: value, type and writer of the last one, the last description and rule
      that were not empty, the flags of the first one, and their number as the version; no writes, no row. The
      key's last audit row names the last writer and reason. */
  ghost predicate TellsWrites(db: Db, k: Key, ws: seq<Write>) {
    && (k in db.table <==> ws != [])
    && (k in db.table ==>
         var row, first, last, logged := db.table[k], ws[0], ws[|ws| - 1], LastRow(db.audit, k);
         && row.value == last.entry.value && row.valueType == last.entry.valueType && row.updatedBy == last.user
         && row.description == LastDescription(ws) && row.rule == LastRule(ws)
         && row.isSecret == first.entry.isSecret && row.isEditable == first.entry.isEditable
         && row.version == |ws|
         && logged.Some? && logged.value.changedBy == last.user
         && logged.value.reason == if |ws| == 1 && last.reason == "" then "initial_creation" else last.reason)
  }

  lemma LastRowSnoc(audit: seq<Audit>, a: Audit, k: Key)
    ensures LastRow(audit + [a], k) == if a.key == k then Some(a) else LastRow(audit, k)
  {
    assert (audit + [a])[..|audit|] == audit;
  }

  lemma LastTextsSnoc(ws: seq<Write>, w: Write)
    ensures LastDescription(ws + [w]) == if w.entry.description != "" then w.entry.description else LastDescription(ws)
    ensures LastRule(ws + [w]) == if w.entry.rule != "" then w.entry.rule else LastRule(ws)
    ensures LastDescription([]) == LastRule([]) == ""
  {
    assert (ws + [w])[..|ws|] == ws;
  }

  lemma SetTellsWrites(db: Db, e: Entry, user: string, reason: string, k: Key, ws: seq<Write>)
    requires TellsWrites(db, k, ws)
    ensures TellsWrites(SetDb(db, e, user, reason), k, if e.key == k then ws + [Write(e, user, reason)] else ws)
  {
    hide LastRow, LastDescription, LastRule;
    LastRowSnoc(db.audit, SetAudit(db.table, e, user, reason), k);
    LastTextsSnoc(ws, Write(e, user, reason));
  }

  lemma {:induction false} BulkTellsWrites(db: Db, es: seq<Entry>, user: string, reason: string, k: Key, ws: seq<Write>)
    requires TellsWrites(db, k, ws)
    ensures TellsWrites(BulkDb(db, es, user, reason), k, ws + WritesAbout(es, user, reason, k))
  {
    hide TellsWrites, SetDb;
    if es == [] {
      assert ws + WritesAbout(es, user, reason, k) == ws;
    } else {
      var front, e := es[..|es| - 1], es[|es| - 1];
      var more := WritesAbout(front, user, reason, k);
      BulkTellsWrites(db, front, user, reason, k, ws);
      SetTellsWrites(BulkDb(db, front, user, reason), e, user, reason, k, ws + more);
      assert ws + WritesAbout(es, user, reason, k)
          == if e.key == k then ws + more + [Write(e, user, reason)] else ws + more;
    }
  }

  lemma DeleteTellsWrites(db: Db, key: Key, user: string, k: Key, ws: seq<Write>)
    requires TellsWrites(db, k, ws)
    ensures TellsWrites(DeleteDb(db, key, user), k, if key == k then [] else ws)
  {
    hide LastRow, LastDescription, LastRule;
    if key in db.table {
      LastRowSnoc(db.audit, DeleteDb(db, key, user).audit[|db.audit|], k);
    }
  }

  /** After any sequence of operations a read of a key returns exactly what its writes say. */
  lemma {:induction false} ReadsTellWrites(ops: seq<Op>, k: Key)
    ensures TellsWrites(Run(ops), k, WritesOf(ops, k))
  {
    if ops != [] {
      var front := ops[..|ops| - 1];
      var db, ws := Run(front), WritesOf(front, k);
      ReadsTellWrites(front, k);
      hide SetDb, BulkDb, DeleteDb, TellsWrites;
      match ops[|ops| - 1]
      case Put(e, user, reason) => SetTellsWrites(db, e, user, reason, k, ws);
      case Remove(key, user) => DeleteTellsWrites(db, key, user, k, ws);
      case Bulk(es, user, reason) => BulkTellsWrites(db, es, user, reason, k, ws);
    }
  }

  /** Removing a stored key logs its value and version, the marker and who removed it; removing any other key
      changes nothing. */
  lemma RemovalIsLogged(db: Db, k: Key, user: string)
    ensures var db' := DeleteDb(db, k, user);
            if k !in db.table then db' == db
            else
              var row := db.table[k];
              && k !in db'.table && db'.table.Keys == db.table.Keys - {k}
              && LastRow(db'.audit, k)
              == Some(Audit(k, Some(row.value), "<DELETED>", Some(row.version), row.version + 1, user, "deleted"))
  {
  }
}
