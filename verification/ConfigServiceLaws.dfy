/** When the service's cache agrees with the table, over whole runs of one service as the sole writer. */
module ConfigServiceLaws {
  import opened Common
  import opened ConfigRepository
  import opened ConfigService

  datatype Call =
    | SetCall(q: Request)
    | BulkCall(items: seq<BulkItem>, user: string, reason: string)
    | RefreshCall

  ghost function Serve(rules: Rules, st: State, call: Call): State {
    match call
    case SetCall(q) => AfterSet(rules, st, q)
    case BulkCall(items, user, reason) => AfterBulk(rules.codec, st, items, user, reason)
    case RefreshCall => AfterRefresh(rules.codec, st)
  }

  ghost function ServeAll(rules: Rules, st: State, calls: seq<Call>): State {
    if calls == [] then st else Serve(rules, ServeAll(rules, st, calls[..|calls| - 1]), calls[|calls| - 1])
  }

  lemma SetTableRow(db: Db, e: Entry, user: string, reason: string)
    ensures var t := SetDb(db, e, user, reason).table;
            && e.key in t && t[e.key].value == e.value && t[e.key].valueType == e.valueType
            && t.Keys == db.table.Keys + {e.key}
            && (forall k :: k in db.table && k != e.key ==> t[k] == db.table[k])
  {
  }

  /** Keys written by bulk writes that raised since the last load that succeeded, and not set again since. */
  ghost function Behind(rules: Rules, st: State, calls: seq<Call>): set<Key> {
    if calls == [] then {}
    else
      var front, last := calls[..|calls| - 1], calls[|calls| - 1];
      var before := ServeAll(rules, st, front);
      BehindAfter(rules, before, last, Behind(rules, st, front))
  }

  ghost function BehindAfter(rules: Rules, st: State, call: Call, behind: set<Key>): set<Key> {
    match call
    case SetCall(q) => if Verdict(rules, st.raw, q).Refused? then behind else behind - {q.key}
    case BulkCall(items, _, _) =>
      if AllParse(rules.codec, Serve(rules, st, call).db.table) then {} else behind + KeysOf(items)
    case RefreshCall => if AllParse(rules.codec, st.db.table) then {} else behind
  }

  function KeysOf(items: seq<BulkItem>): set<Key> {
    if items == [] then {} else KeysOf(items[..|items| - 1]) + {items[|items| - 1].key}
  }

  predicate StoredParses(c: Codec, table: map<Key, Row>, k: Key)
    requires k in table
  {
    Parse(c, table[k].value, table[k].valueType).Some?
  }

  /** The key's stored text is cached as parsed. */
  predicate CachedAsParsed(c: Codec, st: State, k: Key) {
    k in st.db.table && k in st.cache
    && Parse(c, st.db.table[k].value, st.db.table[k].valueType) == Some(st.cache[k])
  }

  /** Outside the keys left behind, every stored text that parses is cached as parsed. */
  ghost predicate TracksBut(c: Codec, st: State, behind: set<Key>) {
    && st.cache.Keys <= st.db.table.Keys
    && behind <= st.db.table.Keys
    && (forall k :: k in st.db.table && k !in behind && StoredParses(c, st.db.table, k) ==> CachedAsParsed(c, st, k))
  }

  lemma CurrentExactlyWhenCaughtUp(c: Codec, st: State, behind: set<Key>)
    requires TracksBut(c, st, behind)
    ensures Current(c, st) <==> AllParse(c, st.db.table) && forall k :: k in behind ==> CachedAsParsed(c, st, k)
  {
    hide Parse;
    if AllParse(c, st.db.table) && forall k :: k in behind ==> CachedAsParsed(c, st, k) {
      forall k | k in st.db.table ensures CachedAsParsed(c, st, k) {
      }
      assert st.cache == ParsedTable(c, st.db.table);
    }
  }

  lemma CurrentTracksAll(c: Codec, st: State)
    requires Current(c, st)
    ensures TracksBut(c, st, {})
  {
    hide Parse;
  }

  lemma SetTracksBut(rules: Rules, st: State, q: Request, behind: set<Key>)
    requires TracksBut(rules.codec, st, behind)
    ensures TracksBut(rules.codec, AfterSet(rules, st, q), BehindAfter(rules, st, SetCall(q), behind))
  {
    WrittenParses(rules, st.raw, q);
    hide Parse, Serialize, SetDb, Verdict, EntryOf, AllParse;
    SetTableRow(st.db, EntryOf(rules.codec, q), q.user, q.reason);
    EntryKey(rules.codec, q);
  }

  lemma EntryKey(c: Codec, q: Request)
    ensures EntryOf(c, q).key == q.key
  {
  }

  lemma WrittenParses(rules: Rules, raw: map<Key, Row>, q: Request)
    ensures var e, v := EntryOf(rules.codec, q), Verdict(rules, raw, q);
            !v.Refused? ==> (v.Written? <==> Parse(rules.codec, e.value, e.valueType).Some?)
  {
  }

  lemma {:induction false} BulkRows(c: Codec, db: Db, items: seq<BulkItem>, user: string, reason: string)
    ensures var t := BulkDb(db, SerializedAll(c, items), user, reason).table;
            && t.Keys == db.table.Keys + KeysOf(items)
            && (forall k :: k in db.table && k !in KeysOf(items) ==> t[k] == db.table[k])
  {
    hide SetDb, Serialize;
    if items != [] {
      var front, es := items[..|items| - 1], SerializedAll(c, items);
      BulkRows(c, db, front, user, reason);
      assert es[..|es| - 1] == SerializedAll(c, front);
      SetTableRow(BulkDb(db, SerializedAll(c, front), user, reason), es[|es| - 1], user, reason);
    }
  }

  lemma BulkTracksBut(rules: Rules, st: State, items: seq<BulkItem>, user: string, reason: string, behind: set<Key>)
    requires TracksBut(rules.codec, st, behind)
    ensures var call := BulkCall(items, user, reason);
            TracksBut(rules.codec, Serve(rules, st, call), BehindAfter(rules, st, call, behind))
  {
    hide Parse, Serialize, BulkDb, KeysOf;
    BulkRows(rules.codec, st.db, items, user, reason);
    RefreshTracksBut(rules.codec, st.(db := BulkDb(st.db, SerializedAll(rules.codec, items), user, reason)));
  }

  lemma RefreshTracksBut(c: Codec, st: State)
    ensures AllParse(c, st.db.table) ==> TracksBut(c, AfterRefresh(c, st), {})
    ensures !AllParse(c, st.db.table) ==> AfterRefresh(c, st) == st
  {
    hide Parse;
  }

  lemma {:induction false} RunsTrack(rules: Rules, st: State, calls: seq<Call>)
    requires Current(rules.codec, st)
    ensures TracksBut(rules.codec, ServeAll(rules, st, calls), Behind(rules, st, calls))
  {
    hide AllParse, TracksBut, BulkDb, AfterSet, Current, BehindAfter;
    if calls == [] {
      CurrentTracksAll(rules.codec, st);
    } else {
      var front, call := calls[..|calls| - 1], calls[|calls| - 1];
      RunsTrack(rules, st, front);
      StepTracksBut(rules, ServeAll(rules, st, front), call, Behind(rules, st, front));
    }
  }

  lemma StepTracksBut(rules: Rules, st: State, call: Call, behind: set<Key>)
    requires TracksBut(rules.codec, st, behind)
    ensures TracksBut(rules.codec, Serve(rules, st, call), BehindAfter(rules, st, call, behind))
  {
    hide AllParse, TracksBut, AfterSet, AfterBulk;
    match call
    case SetCall(q) => SetTracksBut(rules, st, q, behind);
    case BulkCall(items, user, reason) => BulkTracksBut(rules, st, items, user, reason, behind);
    case RefreshCall => RefreshTracksBut(rules.codec, st);
  }

  /** The sole writer's cache is the parsed table after any run, exactly if every stored text parses and
      every key that a raised bulk write changed since the last load that succeeded has been set again or
      happens to be cached as parsed. */
  lemma CacheIsParsedTable(rules: Rules, st: State, calls: seq<Call>)
    requires Current(rules.codec, st)
    ensures var end := ServeAll(rules, st, calls);
            Current(rules.codec, end) <==>
              && AllParse(rules.codec, end.db.table)
              && forall k :: k in Behind(rules, st, calls) ==> CachedAsParsed(rules.codec, end, k)
  {
    hide AllParse, TracksBut, ServeAll, Behind, Current, CachedAsParsed;
    RunsTrack(rules, st, calls);
    CurrentExactlyWhenCaughtUp(rules.codec, ServeAll(rules, st, calls), Behind(rules, st, calls));
  }

  /** A bulk write raised and nothing has loaded the table since. */
  ghost predicate BulkRaisedSinceLoad(rules: Rules, st: State, calls: seq<Call>) {
    calls != [] &&
      var front, last := calls[..|calls| - 1], calls[|calls| - 1];
      var loads := AllParse(rules.codec, ServeAll(rules, st, calls).db.table);
      match last
      case SetCall(_) => BulkRaisedSinceLoad(rules, st, front)
      case BulkCall(_, _, _) => !loads
      case RefreshCall => !loads && BulkRaisedSinceLoad(rules, st, front)
  }

  lemma {:induction false} NothingBehind(rules: Rules, st: State, calls: seq<Call>)
    requires !BulkRaisedSinceLoad(rules, st, calls)
    ensures Behind(rules, st, calls) == {}
  {
    if calls != [] {
      var front, last := calls[..|calls| - 1], calls[|calls| - 1];
      hide AllParse, BulkDb, AfterSet, ParsedTable;
      if last.SetCall? || (last.RefreshCall? && !AllParse(rules.codec, ServeAll(rules, st, calls).db.table)) {
        NothingBehind(rules, st, front);
      }
    }
  }

  /** In particular, while no bulk write has raised since the last load that succeeded, the cache is the
      parsed table exactly if every stored text parses. */
  lemma CacheIsParsedTableUnlessBulkRaised(rules: Rules, st: State, calls: seq<Call>)
    requires Current(rules.codec, st) && !BulkRaisedSinceLoad(rules, st, calls)
    ensures var end := ServeAll(rules, st, calls);
            Current(rules.codec, end) <==> AllParse(rules.codec, end.db.table)
  {
    hide AllParse, ServeAll, Behind, Current, CachedAsParsed, BulkRaisedSinceLoad;
    NothingBehind(rules, st, calls);
    CacheIsParsedTable(rules, st, calls);
  }

  // ---------- Well-typed runs ----------

  predicate TextParses(c: Codec, e: Entry) {
    Parse(c, e.value, e.valueType).Some?
  }

  ghost predicate WellTyped(c: Codec, call: Call) {
    match call
    case SetCall(q) => TextParses(c, EntryOf(c, q))
    case BulkCall(items, _, _) => forall i :: 0 <= i < |items| ==> TextParses(c, Serialized(c, items[i]))
    case RefreshCall => true
  }

  lemma SetKeepsParsing(c: Codec, db: Db, e: Entry, user: string, reason: string)
    requires AllParse(c, db.table) && TextParses(c, e)
    ensures AllParse(c, SetDb(db, e, user, reason).table)
  {
    hide Parse, SetDb;
    SetTableRow(db, e, user, reason);
  }

  lemma {:induction false} BulkKeepsParsing(c: Codec, db: Db, es: seq<Entry>, user: string, reason: string)
    requires AllParse(c, db.table) && forall i :: 0 <= i < |es| ==> TextParses(c, es[i])
    ensures AllParse(c, BulkDb(db, es, user, reason).table)
  {
    hide AllParse, TextParses, SetDb;
    if es != [] {
      var front := es[..|es| - 1];
      BulkKeepsParsing(c, db, front, user, reason);
      SetKeepsParsing(c, BulkDb(db, front, user, reason), es[|es| - 1], user, reason);
    }
  }

  /** If every text written parses, the cache is the parsed table after every call of every run. */
  lemma {:induction false} WellTypedRunsStayCurrent(rules: Rules, st: State, calls: seq<Call>)
    requires Current(rules.codec, st) && forall i :: 0 <= i < |calls| ==> WellTyped(rules.codec, calls[i])
    ensures Current(rules.codec, ServeAll(rules, st, calls))
  {
    if calls != [] {
      var front, call := calls[..|calls| - 1], calls[|calls| - 1];
      WellTypedRunsStayCurrent(rules, st, front);
      WellTypedStepStaysCurrent(rules, ServeAll(rules, st, front), call);
    }
  }

  lemma WellTypedStepStaysCurrent(rules: Rules, st: State, call: Call)
    requires Current(rules.codec, st) && WellTyped(rules.codec, call)
    ensures Current(rules.codec, Serve(rules, st, call))
  {
    hide Parse, TracksBut, BulkDb, SetDb, Verdict, EntryOf, AllParse, ParsedTable;
    match call
    case SetCall(q) =>
      CurrentTracksAll(rules.codec, st);
      SetTracksBut(rules, st, q, {});
      assert BehindAfter(rules, st, call, {}) == {};
      SetKeepsParsing(rules.codec, st.db, EntryOf(rules.codec, q), q.user, q.reason);
      CurrentExactlyWhenCaughtUp(rules.codec, AfterSet(rules, st, q), {});
    case BulkCall(items, user, reason) =>
      BulkKeepsParsing(rules.codec, st.db, SerializedAll(rules.codec, items), user, reason);
    case RefreshCall =>
  }

  /** A value written under its detected type always parses. */
  lemma DetectedTypesAreWellTyped(c: Codec, q: Request)
    requires Faithful(c) && q.valueType.None?
    ensures WellTyped(c, SetCall(q)) && Parse(c, EntryOf(c, q).value, EntryOf(c, q).valueType) == Some(q.value)
  {
    StoredValueReadsBack(c, q.value);
  }

  // ---------- A bulk write that raises ----------

  lemma TextParsesAsText(c: Codec, text: string)
    ensures Parse(c, text, "str") == Some(Str(text)) && Serialize(c, Str(text), "str") == text
  {
    assert "str"[0] == 's' && "int"[0] == 'i' && "float"[0] == 'f' && "bool"[0] == 'b' && "json"[0] == 'j';
  }

  function FirstRow(e: Entry, user: string): Row {
    Row(e.value, e.valueType, e.description, e.isSecret, e.isEditable, e.rule, user, 1)
  }

  lemma BulkOfTwo(a: Entry, b: Entry, user: string, reason: string)
    requires a.key != b.key
    ensures BulkDb(EMPTY, [a, b], user, reason).table == map[a.key := FirstRow(a, user), b.key := FirstRow(b, user)]
  {
    assert [a, b][..1] == [a] && [a][..0] == [];
    assert BulkDb(EMPTY, [a], user, reason) == SetDb(EMPTY, a, user, reason);
  }

  /** After a bulk write raised, repairing the bad value does not bring the cache back: every stored text
      parses again, but the other entry of the bulk write is missing from the cache. */
  lemma RepairLeavesCacheStale(rules: Rules, good: Key, poison: Key, bad: string, user: string)
    requires good != poison && rules.codec.parseInt(bad).None? && rules.canModify(user)
    ensures var bulk := [BulkItem(good, Str("strict"), "", "", false, true, ""), BulkItem(poison, Str(bad), "int", "", false, true, "")];
            var repair := Request(poison, Str("none"), None, "", "", user, "");
            var end := ServeAll(rules, State(EMPTY, map[], map[], []), [BulkCall(bulk, user, ""), SetCall(repair)]);
            AllParse(rules.codec, end.db.table) && !Current(rules.codec, end) && good in end.db.table &&
              good !in end.cache
  {
    var a, b := Entry(good, "strict", "str", "", false, true, ""), Entry(poison, bad, "int", "", false, true, "");
    var st := State(EMPTY, map[], map[], []);
    var q := Request(poison, Str("none"), None, "", "", user, "");
    var bulk := [BulkItem(good, Str("strict"), "", "", false, true, ""), BulkItem(poison, Str(bad), "int", "", false, true, "")];
    var calls := [BulkCall(bulk, user, ""), SetCall(q)];
    BulkTexts(rules.codec, good, poison, bad);
    ServeTwo(rules, st, calls[0], calls[1]);
    hide ServeAll, BulkDb, Serialize, SetDb, Parse;
    BulkOfTwo(a, b, user, "");
    var mid := Serve(rules, st, calls[0]);
    assert mid == State(BulkDb(EMPTY, [a, b], user, ""), map[], map[], []) by {
      ParsesAsInt(rules.codec, bad);
      assert poison in BulkDb(EMPTY, [a, b], user, "").table;
    }
    hide AllParse;
    assert mid.db.table[good] == FirstRow(a, user);
    RepairStep(rules, mid, good, poison, user);
    assert AfterSet(rules, mid, q) == ServeAll(rules, st, calls);
  }

  lemma BulkTexts(c: Codec, good: Key, poison: Key, bad: string)
    ensures SerializedAll(c, [BulkItem(good, Str("strict"), "", "", false, true, ""), BulkItem(poison, Str(bad), "int", "", false, true, "")])
         == [Entry(good, "strict", "str", "", false, true, ""), Entry(poison, bad, "int", "", false, true, "")]
  {
    TextParsesAsText(c, "strict");
    assert "int"[0] == 'i' && "json"[0] == 'j' && "bool"[0] == 'b';
  }

  lemma RepairStep(rules: Rules, mid: State, good: Key, poison: Key, user: string)
    requires mid.cache == map[] && mid.raw == map[] && mid.db.table.Keys == {good, poison} && good != poison
    requires mid.db.table[good].value == "strict" && mid.db.table[good].valueType == "str" && rules.canModify(user)
    ensures var end := AfterSet(rules, mid, Request(poison, Str("none"), None, "", "", user, ""));
            AllParse(rules.codec, end.db.table) && !Current(rules.codec, end) && good in end.db.table &&
              good !in end.cache
  {
    var q := Request(poison, Str("none"), None, "", "", user, "");
    var e := EntryOf(rules.codec, q);
    TextParsesAsText(rules.codec, "strict");
    TextParsesAsText(rules.codec, "none");
    hide Serialize, SetDb, Parse;
    assert e.value == "none" && e.valueType == "str";
    SetTableRow(mid.db, e, user, "");
    var end := AfterSet(rules, mid, q);
    assert Verdict(rules, mid.raw, q) == Written;
    assert end.cache == map[poison := Str("none")];
    assert end.db.table.Keys == {good, poison};
    assert good in end.db.table && Parse(rules.codec, end.db.table[good].value, end.db.table[good].valueType).Some?;
    assert good in ParsedTable(rules.codec, end.db.table);
  }

  lemma ParsesAsInt(c: Codec, text: string)
    ensures Parse(c, text, "int").None? <==> c.parseInt(text).None?
  {
  }

  lemma ServeTwo(rules: Rules, st: State, first: Call, second: Call)
    ensures ServeAll(rules, st, [first, second]) == Serve(rules, Serve(rules, st, first), second)
  {
    assert [first, second][..1] == [first] && [first][..0] == [];
    assert ServeAll(rules, st, [first]) == Serve(rules, st, first);
  }

  // ---------- What a set may touch ----------

  /** A set leaves everything as it is exactly if the user may not modify the configuration, or the key's row as
      of the last load has a rule the new text breaks or is not editable; otherwise it is stored and logged. */
  lemma SetLeavesAllExactlyWhen(rules: Rules, st: State, q: Request)
    ensures var valueType := if q.valueType.Some? then q.valueType.value else DetectType(q.value);
            var text := Serialize(rules.codec, q.value, valueType);
            AfterSet(rules, st, q) == st <==>
              || !rules.canModify(q.user)
              || (q.key in st.raw
                  && ((st.raw[q.key].rule != "" && !rules.satisfies(text, st.raw[q.key].rule, valueType))
                      || !st.raw[q.key].isEditable))
  {
    hide Serialize, DetectType, Parse;
    assert |SetDb(st.db, EntryOf(rules.codec, q), q.user, q.reason).audit| == |st.db.audit| + 1;
  }

  /** The row a set that is not refused leaves behind: its text, its type, and its flags, which a new key gets as
      not secret and editable and a known one keeps. */
  lemma SetStores(rules: Rules, st: State, q: Request)
    requires !Verdict(rules, st.raw, q).Refused?
    ensures var db, valueType := AfterSet(rules, st, q).db, if q.valueType.Some? then q.valueType.value else DetectType(q.value);
            && q.key in db.table && db.table[q.key].valueType == valueType && db.table[q.key].updatedBy == q.user
            && (forall k :: k != q.key ==> (k in db.table <==> k in st.db.table))
            && (forall k :: k != q.key && k in st.db.table ==> db.table[k] == st.db.table[k])
            && TextTells(rules.codec, q.value, valueType, db.table[q.key].value)
    ensures var row := AfterSet(rules, st, q).db.table[q.key];
            if q.key in st.db.table then
              && row.isSecret == st.db.table[q.key].isSecret && row.isEditable == st.db.table[q.key].isEditable
              && row.version == st.db.table[q.key].version + 1
            else !row.isSecret && row.isEditable && row.version == 1 && row.rule == q.rule && row.description == q.description
  {
    SetWritesRow(rules, st, q);
    SerializedTells(rules.codec, q.value, TypeOf(q));
    hide AfterSet, Verdict, Serialize, TextTells, DetectType;
  }

  lemma SetWritesRow(rules: Rules, st: State, q: Request)
    requires !Verdict(rules, st.raw, q).Refused?
    ensures AfterSet(rules, st, q).db == SetDb(st.db, EntryOf(rules.codec, q), q.user, q.reason)
  {
    hide Serialize, SetDb, EntryOf, Parse;
  }

  /** How a value is spelled in the table. Strings are kept, in lower case under type bool; truth values are
      lower-case words under their own type and capitalised ones under another. */
  predicate TextTells(c: Codec, v: Value, valueType: string, text: string) {
    match v
    case Str(s) => if valueType == "bool" then NoUpperCase(text) && Spells(s, text) else text == s
    case Bool(b) =>
      if valueType == "bool" then text == (if b then "true" else "false")
      else if valueType == "json" then text == c.dump(v)
      else text == (if b then "True" else "False")
    case Int(n) => valueType !in {"bool", "json"} ==> text == c.showInt(n)
    case Float(x) => valueType !in {"bool", "json"} ==> text == c.showFloat(x)
    case Json(_) => valueType == "json" ==> text == c.dump(v)
  }

  lemma SerializedTells(c: Codec, v: Value, valueType: string)
    ensures TextTells(c, v, valueType, Serialize(c, v, valueType))
  {
    assert "bool"[0] != "json"[0];
    if v.Str? {
      var lower := Lower(v.s);
      assert NoUpperCase(lower) by {
        forall i | 0 <= i < |lower| ensures !('A' <= lower[i] <= 'Z') {
          assert lower[i] == LowerChar(v.s[i]);
        }
      }
      LowerMeans(v.s, lower);
    }
    hide Lower, Spells, NoUpperCase;
  }

  predicate Names(call: Call, k: Key) {
    call.BulkCall? && exists i :: 0 <= i < |call.items| && call.items[i].key == k
  }

  lemma {:induction false} KeysOfMeans(items: seq<BulkItem>, k: Key)
    ensures k in KeysOf(items) <==> exists i :: 0 <= i < |items| && items[i].key == k
  {
    if items != [] {
      var front := items[..|items| - 1];
      KeysOfMeans(front, k);
      assert forall i :: 0 <= i < |front| ==> items[i] == front[i];
    }
  }

  /** A row that is not editable when the service loads it never changes in any run without a bulk write about
      its key. */
  lemma {:induction false} UneditableRowsHold(rules: Rules, st: State, calls: seq<Call>, k: Key)
    requires st.raw == st.db.table && k in st.db.table && !st.db.table[k].isEditable
    requires forall i :: 0 <= i < |calls| ==> !Names(calls[i], k)
    ensures var end := ServeAll(rules, st, calls);
            && k in end.db.table && end.db.table[k] == st.db.table[k]
            && k in end.raw && end.raw[k] == st.db.table[k]
  {
    if calls != [] {
      var front, call := calls[..|calls| - 1], calls[|calls| - 1];
      UneditableRowsHold(rules, st, front, k);
      var mid := ServeAll(rules, st, front);
      hide ServeAll, SetDb, BulkDb, Parse, Serialize, AllParse, ParsedTable, KeysOf;
      match call
      case SetCall(q) =>
        EntryKey(rules.codec, q);
        SetTableRow(mid.db, EntryOf(rules.codec, q), q.user, q.reason);
      case BulkCall(items, user, reason) =>
        KeysOfMeans(items, k);
        BulkRows(rules.codec, mid.db, items, user, reason);
      case RefreshCall =>
      ServeLast(rules, st, calls);
    }
  }

  lemma ServeLast(rules: Rules, st: State, calls: seq<Call>)
    requires calls != []
    ensures ServeAll(rules, st, calls) == Serve(rules, ServeAll(rules, st, calls[..|calls| - 1]), calls[|calls| - 1])
  {
  }

  /** While nobody who calls may modify the configuration, sets change nothing: table and log stay. */
  lemma {:induction false} LockedServiceHolds(rules: Rules, st: State, calls: seq<Call>)
    requires forall i :: 0 <= i < |calls| ==>
               !calls[i].BulkCall? && (calls[i].SetCall? ==> !rules.canModify(calls[i].q.user))
    ensures ServeAll(rules, st, calls).db == st.db
  {
    if calls != [] {
      LockedServiceHolds(rules, st, calls[..|calls| - 1]);
      hide AllParse, ParsedTable, Serialize, DetectType;
    }
  }

  /** Bulk writes ask neither the lock nor rules nor editability: they do the same under any of them. */
  lemma BulkIgnoresChecks(rules: Rules, other: Rules, st: State, items: seq<BulkItem>, user: string, reason: string)
    requires rules.codec == other.codec
    ensures Serve(rules, st, BulkCall(items, user, reason)) == Serve(other, st, BulkCall(items, user, reason))
    ensures forall i :: 0 <= i < |items| ==> items[i].key in Serve(rules, st, BulkCall(items, user, reason)).db.table
  {
    hide BulkDb, AllParse, ParsedTable;
    BulkRows(rules.codec, st.db, items, user, reason);
    forall i | 0 <= i < |items| ensures items[i].key in KeysOf(items) {
      KeysOfMeans(items, items[i].key);
    }
  }

  // ---------- Announced versions ----------

  function VersionIn(table: map<Key, Row>, k: Key): nat {
    if k in table then table[k].version else 0
  }

  function CountOf(items: seq<BulkItem>, k: Key): nat {
    if items == [] then 0
    else CountOf(items[..|items| - 1], k) + if items[|items| - 1].key == k then 1 else 0
  }

  /** How often the key was written since the last load that succeeded; a bulk write that raised counts
      with every entry about the key. */
  ghost function WritesSinceLoad(rules: Rules, st: State, calls: seq<Call>, k: Key): nat {
    if calls == [] then 0
    else
      var front, last := calls[..|calls| - 1], calls[|calls| - 1];
      WritesAfter(rules, ServeAll(rules, st, front), last, k, WritesSinceLoad(rules, st, front, k))
  }

  ghost function WritesAfter(rules: Rules, st: State, call: Call, k: Key, writes: nat): nat {
    match call
    case SetCall(q) => if Verdict(rules, st.raw, q).Refused? || q.key != k then writes else writes + 1
    case BulkCall(items, _, _) =>
      if AllParse(rules.codec, Serve(rules, st, call).db.table) then 0 else writes + CountOf(items, k)
    case RefreshCall => if AllParse(rules.codec, st.db.table) then 0 else writes
  }

  lemma SetRaisesVersion(db: Db, e: Entry, user: string, reason: string, k: Key)
    ensures VersionIn(SetDb(db, e, user, reason).table, k) == VersionIn(db.table, k) + if e.key == k then 1 else 0
  {
  }

  lemma {:induction false} BulkRaisesVersion(c: Codec, db: Db, items: seq<BulkItem>, user: string, reason: string, k: Key)
    ensures VersionIn(BulkDb(db, SerializedAll(c, items), user, reason).table, k)
         == VersionIn(db.table, k) + CountOf(items, k)
  {
    hide SetDb, Serialize, VersionIn;
    if items != [] {
      var front, es := items[..|items| - 1], SerializedAll(c, items);
      BulkRaisesVersion(c, db, front, user, reason, k);
      assert es[..|es| - 1] == SerializedAll(c, front);
      SetRaisesVersion(BulkDb(db, SerializedAll(c, front), user, reason), es[|es| - 1], user, reason, k);
    }
  }

  lemma StepCountsWrites(rules: Rules, st: State, call: Call, k: Key, writes: nat)
    requires VersionIn(st.db.table, k) == VersionIn(st.raw, k) + writes
    ensures var st' := Serve(rules, st, call);
            VersionIn(st'.db.table, k) == VersionIn(st'.raw, k) + WritesAfter(rules, st, call, k, writes)
  {
    hide SetDb, BulkDb, AllParse, VersionIn, CountOf, Verdict, EntryOf, ParsedTable;
    match call
    case SetCall(q) =>
      EntryKey(rules.codec, q);
      SetRaisesVersion(st.db, EntryOf(rules.codec, q), q.user, q.reason, k);
    case BulkCall(items, user, reason) =>
      BulkRaisesVersion(rules.codec, st.db, items, user, reason, k);
    case RefreshCall =>
  }

  /** Along every run of a freshly loaded service the stored version is the cached one plus the writes since
      the last load that succeeded. */
  lemma {:induction false} VersionsCountWrites(rules: Rules, st: State, calls: seq<Call>, k: Key)
    requires st.raw == st.db.table
    ensures var end := ServeAll(rules, st, calls);
            VersionIn(end.db.table, k) == VersionIn(end.raw, k) + WritesSinceLoad(rules, st, calls, k)
  {
    hide Serve, WritesAfter;
    if calls != [] {
      var front, call := calls[..|calls| - 1], calls[|calls| - 1];
      VersionsCountWrites(rules, st, front, k);
      StepCountsWrites(rules, ServeAll(rules, st, front), call, k, WritesSinceLoad(rules, st, front, k));
    }
  }

  /** A written Set announces the version it stored exactly if its key has not been written since the last
      load that succeeded; otherwise the announced version lags by the number of those writes. */
  lemma AnnouncedVersionsStall(rules: Rules, st: State, calls: seq<Call>, q: Request)
    requires st.raw == st.db.table && Verdict(rules, ServeAll(rules, st, calls).raw, q) == Written
    ensures var end := ServeAll(rules, st, calls + [SetCall(q)]);
            var writes := WritesSinceLoad(rules, st, calls, q.key);
            && end.changes != [] && q.key in end.db.table
            && var announced := end.changes[|end.changes| - 1];
            && announced.key == q.key && announced.newValue == end.db.table[q.key].value
            && announced.oldValue == (if q.key in end.raw then Some(end.raw[q.key].value) else None)
            && announced.version + writes == end.db.table[q.key].version
            && (announced.version == end.db.table[q.key].version <==> writes == 0)
  {
    var before := ServeAll(rules, st, calls);
    assert (calls + [SetCall(q)])[..|calls|] == calls;
    var end := ServeAll(rules, st, calls + [SetCall(q)]);
    assert end == AfterSet(rules, before, q);
    VersionsCountWrites(rules, st, calls, q.key);
    hide SetDb, Verdict, EntryOf, WritesSinceLoad, ServeAll;
    var e := EntryOf(rules.codec, q);
    EntryKey(rules.codec, q);
    SetRaisesVersion(before.db, e, q.user, q.reason, q.key);
    SetTableRow(before.db, e, q.user, q.reason);
  }
}
