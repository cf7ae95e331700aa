/** The caching configuration service (src/config/service.py) over the repository. The cache is a map from
    (category, key) to the parsed value; number and JSON text formats are a `Codec` parameter. */
module ConfigService {
  import opened Common
  import opened ConfigRepository

  /** A configuration value: JSON documents (objects and lists) by their text. */
  datatype Value = Str(s: string) | Int(n: int) | Float(x: real) | Bool(b: bool) | Json(doc: string)

  /** Text formats of the platform. A parser returns None where the platform raises. */
  datatype Codec = Codec(
    showInt: int -> string, showFloat: real -> string, showJson: string -> string, dump: Value -> string,
    parseInt: string -> Option<int>, parseFloat: string -> Option<real>, parseJson: string -> Option<Value>)

  function LowerChar(c: char): char {
    if 'A' <= c <= 'Z' then (c as int + 32) as char else c
  }

  function Lower(s: string): (r: string)
    ensures |r| == |s|
  {
    seq(|s|, i requires 0 <= i < |s| => LowerChar(s[i]))
  }

  function Show(c: Codec, v: Value): string {
    match v
    case Str(s) => s
    case Int(n) => c.showInt(n)
    case Float(x) => c.showFloat(x)
    case Bool(b) => if b then "True" else "False"
    case Json(d) => c.showJson(d)
  }

  function Parse(c: Codec, text: string, valueType: string): Option<Value> {
    if valueType == "int" then
      match c.parseInt(text)
      case Some(n) => Some(Int(n))
      case None => None
    else if valueType == "float" then
      match c.parseFloat(text)
      case Some(x) => Some(Float(x))
      case None => None
    else if valueType == "bool" then Some(Bool(Lower(text) in {"true", "1", "yes", "on"}))
    else if valueType == "json" then c.parseJson(text)
    else Some(Str(text))
  }

  function Serialize(c: Codec, v: Value, valueType: string): string {
    if valueType == "json" then (if v.Str? then v.s else c.dump(v))
    else if valueType == "bool" then
      (if v.Bool? then (if v.b then "true" else "false") else Lower(Show(c, v)))
    else Show(c, v)
  }

  function DetectType(v: Value): string {
    match v
    case Bool(_) => "bool"
    case Int(_) => "int"
    case Float(_) => "float"
    case Json(_) => "json"
    case Str(_) => "str"
  }

  /** The platform's number and JSON formats read back what they print. */
  ghost predicate Faithful(c: Codec) {
    && (forall n :: c.parseInt(c.showInt(n)) == Some(n))
    && (forall x :: c.parseFloat(c.showFloat(x)) == Some(x))
    && (forall d :: c.parseJson(c.dump(Json(d))) == Some(Json(d)))
  }

  /** A value stored under its detected type is read back unchanged. */
  lemma StoredValueReadsBack(c: Codec, v: Value)
    requires Faithful(c)
    ensures Parse(c, Serialize(c, v, DetectType(v)), DetectType(v)) == Some(v)
  {
    if v.Bool? {
      var text := Serialize(c, v, "bool");
      assert Lower(text) == text;
      assert "false"[0] != "true"[0] && |"false"| == 5;
    }
  }

  /** Which values survive being stored under a type the caller names: under int, float and bool only the values
      of that type, under any other type but json only strings. */
  lemma ReadsBackExactlyWhen(c: Codec, v: Value, valueType: string)
    requires Faithful(c) && valueType != "json"
    ensures Parse(c, Serialize(c, v, valueType), valueType) == Some(v)
       <==> if valueType in {"int", "float", "bool"} then DetectType(v) == valueType else v.Str?
  {
    if DetectType(v) == valueType {
      StoredValueReadsBack(c, v);
    }
    hide Lower, Show;
  }

  // ---------- Truth values ----------

  /** `text` spells `word`, a lower-case word, in any mixture of cases. */
  predicate Spells(text: string, word: string) {
    |text| == |word| && forall i :: 0 <= i < |text| ==> text[i] == word[i] || IsUpperOf(text[i], word[i])
  }

  predicate IsUpperOf(c: char, d: char) {
    'a' <= d <= 'z' && 'A' <= c <= 'Z' && c as int - 'A' as int == d as int - 'a' as int
  }

  predicate NoUpperCase(word: string) {
    forall i :: 0 <= i < |word| ==> !('A' <= word[i] <= 'Z')
  }

  lemma LowerMeans(text: string, word: string)
    requires NoUpperCase(word)
    ensures Lower(text) == word <==> Spells(text, word)
  {
    if Lower(text) == word {
      forall i | 0 <= i < |text| ensures text[i] == word[i] || IsUpperOf(text[i], word[i]) {
        assert word[i] == Lower(text)[i] == LowerChar(text[i]);
      }
    }
    if Spells(text, word) {
      forall i | 0 <= i < |text| ensures Lower(text)[i] == word[i] {
        assert Lower(text)[i] == LowerChar(text[i]);
      }
    }
  }

  /** A text of type bool is read as true exactly if it spells true, 1, yes or on; it never fails to parse. */
  lemma BoolReads(c: Codec, text: string)
    ensures Parse(c, text, "bool") == Some(Bool(
              Spells(text, "true") || Spells(text, "1") || Spells(text, "yes") || Spells(text, "on")))
  {
    BoolParses(c, text);
    hide Parse, Lower, Spells;
    LowerMeans(text, "true");
    LowerMeans(text, "1");
    LowerMeans(text, "yes");
    LowerMeans(text, "on");
  }

  lemma BoolParses(c: Codec, text: string)
    ensures Parse(c, text, "bool") == Some(Bool(Lower(text) in {"true", "1", "yes", "on"}))
  {
    hide Lower;
    assert "bool"[0] == 'b' && "int"[0] == 'i' && "float"[0] == 'f';
  }

  // ---------- Cache and table ----------

  ghost predicate AllParse(c: Codec, table: map<Key, Row>) {
    forall k :: k in table ==> Parse(c, table[k].value, table[k].valueType).Some?
  }

  function ParsedTable(c: Codec, table: map<Key, Row>): map<Key, Value> {
    map k | k in table && Parse(c, table[k].value, table[k].valueType).Some? ::
      Parse(c, table[k].value, table[k].valueType).value
  }

  /** A published change. */
  datatype Change = Change(key: Key, oldValue: Option<string>, newValue: string, version: nat)

  datatype Request = Request(
    key: Key, value: Value, valueType: Option<string>, description: string, rule: string, user: string, reason: string)

  datatype Refusal = Locked | RuleViolated | NotEditable

  datatype Outcome = Written | Refused(why: Refusal) | ParseRaised

  function TypeOf(q: Request): string {
    if q.valueType.Some? then q.valueType.value else DetectType(q.value)
  }

  function EntryOf(c: Codec, q: Request): Entry {
    Entry(q.key, Serialize(c, q.value, TypeOf(q)), TypeOf(q), q.description, false, true, q.rule)
  }

  /** One entry of a bulk write. A missing or empty type is detected from the value. */
  datatype BulkItem = BulkItem(
    key: Key, value: Value, valueType: string, description: string, isSecret: bool, isEditable: bool, rule: string)

  function Serialized(c: Codec, item: BulkItem): Entry {
    var valueType := if item.valueType != "" then item.valueType else DetectType(item.value);
    Entry(item.key, Serialize(c, item.value, valueType), valueType, item.description, item.isSecret, item.isEditable, item.rule)
  }

  function SerializedAll(c: Codec, items: seq<BulkItem>): (r: seq<Entry>)
    ensures |r| == |items|
  {
    seq(|items|, i requires 0 <= i < |items| => Serialized(c, items[i]))
  }

  /** The text formats, the lock (may this user change the configuration now?) and the validator (does this
      text satisfy this rule for this type?). */
  datatype Rules = Rules(codec: Codec, canModify: string -> bool, satisfies: (string, string, string) -> bool)

  /** Table and log, with the service's cached values, cached rows and announced changes. */
  datatype State = State(db: Db, cache: map<Key, Value>, raw: map<Key, Row>, changes: seq<Change>)

  ghost predicate Current(c: Codec, st: State) {
    AllParse(c, st.db.table) && st.cache == ParsedTable(c, st.db.table)
  }

  /** How Set answers. Rule and editability come from the rows of the last refresh. */
  function Verdict(rules: Rules, raw: map<Key, Row>, q: Request): Outcome {
    var e := EntryOf(rules.codec, q);
    if !rules.canModify(q.user) then Refused(Locked)
    else if q.key in raw && raw[q.key].rule != "" && !rules.satisfies(e.value, raw[q.key].rule, e.valueType) then
      Refused(RuleViolated)
    else if q.key in raw && !raw[q.key].isEditable then Refused(NotEditable)
    else if Parse(rules.codec, e.value, e.valueType).None? then ParseRaised
    else Written
  }

  /** The change a written Set announces. Its old value and version are counted from the cached row. */
  function Announced(rules: Rules, raw: map<Key, Row>, q: Request): Change {
    if q.key in raw then
      Change(q.key, Some(raw[q.key].value), EntryOf(rules.codec, q).value, raw[q.key].version + 1)
    else Change(q.key, None, EntryOf(rules.codec, q).value, 1)
  }

  function AfterSet(rules: Rules, st: State, q: Request): State {
    var e, verdict := EntryOf(rules.codec, q), Verdict(rules, st.raw, q);
    if verdict.Refused? then st
    else if verdict == ParseRaised then st.(db := SetDb(st.db, e, q.user, q.reason))
    else
      var parsed := Parse(rules.codec, e.value, e.valueType);
      st.(db := SetDb(st.db, e, q.user, q.reason),
          cache := if parsed.Some? then st.cache[q.key := parsed.value] else st.cache,
          changes := st.changes + [Announced(rules, st.raw, q)])
  }

  ghost function AfterRefresh(c: Codec, st: State): State {
    if AllParse(c, st.db.table) then st.(cache := ParsedTable(c, st.db.table), raw := st.db.table) else st
  }

  ghost function AfterBulk(c: Codec, st: State, items: seq<BulkItem>, user: string, reason: string): State {
    AfterRefresh(c, st.(db := BulkDb(st.db, SerializedAll(c, items), user, reason)))
  }

  class Service {
    const repo: Repository
    const rules: Rules
    var cache: map<Key, Value>
    var raw: map<Key, Row>
    var changes: seq<Change>

    ghost function View(): State
      reads this, repo
    {
      State(repo.View(), cache, raw, changes)
    }

    /** Starts by loading the table. Where that raises, the model is left with an empty cache. */
    constructor (repo: Repository, rules: Rules)
      ensures this.repo == repo && this.rules == rules
      ensures View() == AfterRefresh(rules.codec, State(repo.View(), map[], map[], []))
    {
      this.repo, this.rules := repo, rules;
      cache, raw, changes := map[], map[], [];
      new;
      var _ := Refresh();
    }

    /** Reloads everything; the first value that does not parse raises and leaves the cache as it was. */
    method Refresh() returns (r: Option<nat>)
      modifies this`cache, this`raw
      ensures View() == AfterRefresh(rules.codec, old(View()))
      ensures r == if AllParse(rules.codec, repo.table) then Some(|repo.table|) else None
    {
      var newCache: map<Key, Value> := map[];
      var pending := repo.table.Keys;
      hide Parse;
      while pending != {}
        invariant pending <= repo.table.Keys
        invariant newCache.Keys == repo.table.Keys - pending
        invariant forall k :: k in newCache ==>
          Parse(rules.codec, repo.table[k].value, repo.table[k].valueType) == Some(newCache[k])
        decreases |pending|
      {
        var k :| k in pending;
        var parsed := Parse(rules.codec, repo.table[k].value, repo.table[k].valueType);
        if parsed.None? {
          return None;
        }
        newCache := newCache[k := parsed.value];
        pending := pending - {k};
      }
      cache, raw := newCache, repo.table;
      r := Some(|repo.table|);
    }

    /** Writes through to the table, then parses what it stored into the cache. The version announced with
        the change is counted from the row of the last refresh. */
    method Set(q: Request) returns (r: Outcome)
      modifies this`cache, this`changes, repo
      ensures r == Verdict(rules, raw, q) && View() == AfterSet(rules, old(View()), q)
    {
      hide Parse, Serialize, SetDb;
      if !rules.canModify(q.user) {
        return Refused(Locked);
      }
      var valueType := if q.valueType.Some? then q.valueType.value else DetectType(q.value);
      var text := Serialize(rules.codec, q.value, valueType);
      var existing := if q.key in raw then Some(raw[q.key]) else None;
      if existing.Some? && existing.value.rule != "" {
        if !rules.satisfies(text, existing.value.rule, valueType) {
          return Refused(RuleViolated);
        }
      }
      if existing.Some? && !existing.value.isEditable {
        return Refused(NotEditable);
      }
      var oldValue := if existing.Some? then Some(existing.value.value) else None;
      var _ := repo.Set(Entry(q.key, text, valueType, q.description, false, true, q.rule), q.user, q.reason);
      var parsed := Parse(rules.codec, text, valueType);
      if parsed.None? {
        return ParseRaised;
      }
      cache := cache[q.key := parsed.value];
      var version := if existing.Some? then existing.value.version + 1 else 1;
      changes := changes + [Change(q.key, oldValue, text, version)];
      r := Written;
    }

    /** Serialises and writes all entries, then refreshes; the writes stay even if the refresh raises. */
    method BulkSet(items: seq<BulkItem>, user: string, reason: string) returns (r: Option<nat>)
      modifies this`cache, this`raw, repo
      ensures View() == AfterBulk(rules.codec, old(View()), items, user, reason)
      ensures r == if AllParse(rules.codec, repo.table) then Some(|items|) else None
    {
      hide BulkDb, AllParse, ParsedTable, Serialize, DetectType;
      var entries: seq<Entry> := [];
      for i := 0 to |items|
        invariant |entries| == i && forall j :: 0 <= j < i ==> entries[j] == Serialized(rules.codec, items[j])
      {
        var item := items[i];
        var valueType := if item.valueType != "" then item.valueType else DetectType(item.value);
        var text := Serialize(rules.codec, item.value, valueType);
        entries := entries
          + [Entry(item.key, text, valueType, item.description, item.isSecret, item.isEditable, item.rule)];
      }
      assert entries == SerializedAll(rules.codec, items);
      var count := repo.BulkSet(entries, user, reason);
      var loaded := Refresh();
      r := if loaded.Some? then Some(count) else None;
    }
  }
}
