// Export and import of a tenant as newline-delimited JSON (mypalace/api/portability.py).
module Portability {
  import opened Prelude
  import ReadCache

  datatype Kind = TenantRow | MemoryRow | SessionRow | ArcRow | IntentionRow | DynamicsRow | SupersessionRow

  // A column's value, as the database or a parsed JSON record holds it.
  datatype Value = Null | Flag(on: bool) | Number(n: real) | Text(s: string) | Moment(t: int) | Nested(json: string)

  type Row = map<string, Value>

  // datetime.isoformat and datetime.fromisoformat.
  datatype Clock = Clock(show: int -> string, parse: string -> Option<int>)

  ghost predicate ClockWorks(clock: Clock) {
    forall t: int :: 'T' in clock.show(t) && ':' in clock.show(t) && clock.parse(clock.show(t)) == Some(t)
  }

  function TypeName(kind: Kind): string {
    match kind
    case TenantRow => "tenant"
    case MemoryRow => "memory"
    case SessionRow => "session"
    case ArcRow => "narrative_arc"
    case IntentionRow => "intention"
    case DynamicsRow => "memory_dynamics"
    case SupersessionRow => "memory_supersession"
  }

  // Tenant rows have a type name too, but an import never writes them.
  function KindOf(name: Value): Option<Kind> {
    if name == Text("memory") then Some(MemoryRow)
    else if name == Text("session") then Some(SessionRow)
    else if name == Text("narrative_arc") then Some(ArcRow)
    else if name == Text("intention") then Some(IntentionRow)
    else if name == Text("memory_dynamics") then Some(DynamicsRow)
    else if name == Text("memory_supersession") then Some(SupersessionRow)
    else None
  }

  function Columns(kind: Kind): seq<string> {
    match kind
    case TenantRow => ["id", "label", "created_at", "metadata_json"]
    case MemoryRow => ["id", "tenant_id", "user_id", "agent_id", "content", "memory_type", "source", "importance",
                       "created_at", "updated_at", "accessed_at", "access_count", "expires_at", "metadata_json"]
    case SessionRow => ["id", "tenant_id", "user_id", "title", "summary", "context_snapshot", "created_at",
                        "updated_at"]
    case ArcRow => ["id", "tenant_id", "user_id", "agent_id", "title", "summary", "status", "key_episode_ids",
                    "emotional_trajectory", "created_at", "updated_at"]
    case IntentionRow => ["id", "tenant_id", "user_id", "agent_id", "content", "source_memory_id", "trigger_conditions",
                          "priority", "fired", "fire_once", "created_at", "expires_at", "fired_at"]
    case DynamicsRow => ["memory_id", "tenant_id", "user_id", "stability", "difficulty", "retrieval_strength",
                         "storage_strength", "is_key", "importance_weight", "category", "tags", "last_accessed_at",
                         "access_count", "created_at", "updated_at"]
    case SupersessionRow => ["id", "tenant_id", "superseded_id", "new_id", "user_id", "reason", "similarity_score",
                             "created_at"]
  }

  // The columns whose default is drawn anew for every record: random ids and clock readings.
  function FreshColumns(kind: Kind): seq<string> {
    match kind
    case TenantRow => ["created_at"]
    case MemoryRow => ["id", "created_at", "updated_at"]
    case SessionRow => ["id", "created_at", "updated_at"]
    case ArcRow => ["id", "created_at", "updated_at"]
    case IntentionRow => ["id", "created_at"]
    case DynamicsRow => ["created_at", "updated_at"]
    case SupersessionRow => ["id", "created_at"]
  }

  // The columns without any default.
  function RequiredColumns(kind: Kind): seq<string> {
    match kind
    case TenantRow => ["id", "label"]
    case MemoryRow => ["user_id", "content"]
    case SessionRow => ["user_id"]
    case ArcRow => ["user_id", "title", "summary"]
    case IntentionRow => ["user_id", "content", "trigger_conditions"]
    case DynamicsRow => ["memory_id", "user_id"]
    case SupersessionRow => ["superseded_id", "new_id", "user_id", "reason"]
  }

  // The constant defaults of all other columns.
  function ConstantDefault(kind: Kind, column: string): Value {
    match kind
    case MemoryRow =>
      if column == "memory_type" then Text("semantic")
      else if column == "importance" then Number(1.0)
      else if column == "access_count" then Number(0.0)
      else Null
    case ArcRow =>
      if column == "status" then Text("active")
      else if column == "key_episode_ids" then Nested("[]")
      else if column == "emotional_trajectory" then Text("")
      else Null
    case IntentionRow =>
      if column == "agent_id" then Text("clara")
      else if column == "priority" then Number(0.0)
      else if column == "fired" then Flag(false)
      else if column == "fire_once" then Flag(true)
      else Null
    case DynamicsRow =>
      if column in ["stability", "retrieval_strength", "importance_weight"] then Number(1.0)
      else if column == "difficulty" then Number(5.0)
      else if column == "storage_strength" then Number(0.5)
      else if column == "is_key" then Flag(false)
      else if column == "access_count" then Number(0.0)
      else Null
    case _ => Null
  }

  function PrimaryKey(kind: Kind): string {
    if kind == DynamicsRow then "memory_id" else "id"
  }

  lemma ColumnsKnown(kind: Kind)
    ensures PrimaryKey(kind) in Columns(kind)
    ensures kind != TenantRow ==> "tenant_id" in Columns(kind) && PrimaryKey(kind) != "tenant_id"
  {
    assert Columns(kind)[0] == PrimaryKey(kind) && (kind != TenantRow ==> Columns(kind)[1] == "tenant_id");
    assert |PrimaryKey(kind)| == 2 || (|"tenant_id"| == 9 && PrimaryKey(kind)[0] == 'm');
  }

  // The fresh columns are columns, none of them required or the tenant's.
  lemma FreshKnown(kind: Kind)
    ensures kind != TenantRow ==>
      forall c | c in FreshColumns(kind) :: c in Columns(kind) && c != "tenant_id" && c !in RequiredColumns(kind)
  {
    var id, created, updated := "id", "created_at", "updated_at";
    var columns := Columns(kind);
    assert columns[0] == PrimaryKey(kind);
    assert |id| == 2 && |created| == 10 && created[0] == 'c' && updated[0] == 'u' && |updated| == 10;
    assert forall c | c in FreshColumns(kind) :: c == id || c == created || c == updated;
    match kind {
      case MemoryRow => assert columns[8] == created && columns[9] == updated;
      case SessionRow => assert columns[6] == created && columns[7] == updated;
      case ArcRow => assert columns[9] == created && columns[10] == updated;
      case IntentionRow => assert columns[10] == created;
      case DynamicsRow => assert columns[13] == created && columns[14] == updated;
      case SupersessionRow => assert columns[7] == created;
      case TenantRow =>
    }
  }

  lemma NamesKnown(kind: Kind)
    ensures kind != TenantRow ==> KindOf(Text(TypeName(kind))) == Some(kind) && TypeName(kind) != "tenant"
  {
    assert "memory"[0] == 'm' && |"memory"| == 6;
    assert |"session"| == 7 && |"narrative_arc"| == 13 && |"intention"| == 9;
    assert |"memory_dynamics"| == 15 && |"memory_supersession"| == 19;
    match kind {
      case MemoryRow =>
      case SessionRow =>
      case ArcRow =>
      case IntentionRow =>
      case DynamicsRow =>
      case SupersessionRow =>
      case TenantRow =>
    }
  }

  lemma NameOf(name: Value)
    ensures KindOf(name).Some? ==> KindOf(name).value != TenantRow && name == Text(TypeName(KindOf(name).value))
  {
  }

  // ---- One value, one row ----

  function Shown(clock: Clock, v: Value): Value {
    if v.Moment? then Text(clock.show(v.t)) else v
  }

  predicate LooksTimed(clock: Clock, s: string) {
    'T' in s && ':' in s && clock.parse(s).Some?
  }

  function Read(clock: Clock, v: Value): Value {
    if v.Text? && LooksTimed(clock, v.s) then Moment(clock.parse(v.s).value) else v
  }

  function ShownRow(clock: Clock, r: Row): Row {
    map c | c in r :: Shown(clock, r[c])
  }

  // No text in these columns could be taken for a timestamp.
  predicate Clean(clock: Clock, r: Row) {
    forall c | c in r :: r[c].Text? ==> !LooksTimed(clock, r[c].s)
  }

  method RowToDict(clock: Clock, kind: Kind, row: Row) returns (out: Row)
    requires row.Keys == Elems(Columns(kind))
    ensures out == ShownRow(clock, row)
  {
    hide Columns;
    out := map[];
    var columns := Columns(kind);
    for i := 0 to |columns|
      invariant out == map c | c in columns[..i] :: Shown(clock, row[c])
    {
      assert columns[i] in row.Keys;
      var value := row[columns[i]];
      if value.Moment? {
        value := Text(clock.show(value.t));
      }
      assert columns[..i + 1] == columns[..i] + [columns[i]];
      out := out[columns[i] := value];
    }
    assert columns[..|columns|] == columns;
  }

  function Coerced(clock: Clock, kind: Kind, r: Row): Row {
    map c | c in r :: if c in Columns(kind) then Read(clock, r[c]) else r[c]
  }

  method CoerceTimestamps(clock: Clock, kind: Kind, record: Row) returns (out: Row)
    ensures out == Coerced(clock, kind, record)
  {
    out := record;
    var columns := Columns(kind);
    for i := 0 to |columns|
      invariant out == map c | c in record :: if c in columns[..i] then Read(clock, record[c]) else record[c]
      invariant out.Keys == record.Keys
    {
      var c := columns[i];
      assert columns[..i + 1] == columns[..i] + [c];
      if c in out && out[c].Text? && 'T' in out[c].s && ':' in out[c].s {
        var parsed := clock.parse(out[c].s);
        if parsed.Some? {
          out := out[c := Moment(parsed.value)];
        }
      }
    }
    assert columns[..|columns|] == columns;
  }

  // ---- What one line of a dump does ----

  datatype Line = Blank | Malformed | NotObject | Record(typeName: Value, fields: Row)

  datatype Reason = MalformedJson | UnknownType(name: Value) | Rejected(kind: Kind)

  datatype Key = Key(kind: Kind, id: Value)

  // `drawn` gives the fresh defaults for the record on line i; `accepts` says which rows the
  // model and the session take without an exception, `commits` which tables the database then
  // takes as a whole.
  datatype Setup = Setup(clock: Clock, target: string, accepts: (Kind, Row) -> bool,
                         commits: map<Key, Row> -> bool, drawn: (nat, Kind, string) -> Value)

  datatype Effect = Nothing | Seen | Skip(why: Reason) | Break | Put(key: Key, row: Row)

  function Default(u: Setup, i: nat, kind: Kind, column: string): Value {
    if column in FreshColumns(kind) then u.drawn(i, kind, column) else ConstantDefault(kind, column)
  }

  // The model object: the record's columns and the defaults. A column without a default that
  // the record leaves out stays unset.
  function Filled(u: Setup, i: nat, kind: Kind, record: Row): Row {
    map c | c in Columns(kind) && (c in record || c !in RequiredColumns(kind)) ::
      if c in record then record[c] else Default(u, i, kind, c)
  }

  // The key an object is merged by.
  function KeyOf(kind: Kind, row: Row): Key {
    Key(kind, if PrimaryKey(kind) in row then row[PrimaryKey(kind)] else Null)
  }

  function Built(u: Setup, i: nat, kind: Kind, fields: Row): Row {
    Filled(u, i, kind, Coerced(u.clock, kind, fields["tenant_id" := Text(u.target)]))
  }

  // A record of a known kind is written, or skipped when the row is not accepted.
  function EffectOfRow(u: Setup, i: nat, kind: Kind, fields: Row): Effect {
    var row := Built(u, i, kind, fields);
    if u.accepts(kind, row) then Put(KeyOf(kind, row), row) else Skip(Rejected(kind))
  }

  function EffectOf(u: Setup, i: nat, line: Line): Effect {
    match line
    case Blank => Nothing
    case Malformed => Skip(MalformedJson)
    case NotObject => Break
    case Record(name, fields) =>
      if name == Text("tenant") then Seen
      else if name.Nested? then Break
      else match KindOf(name)
        case None => Skip(UnknownType(name))
        case Some(kind) => EffectOfRow(u, i, kind, fields)
  }

  lemma EffectOfKnown(u: Setup, i: nat, kind: Kind, fields: Row)
    requires kind != TenantRow
    ensures EffectOf(u, i, Record(Text(TypeName(kind)), fields)) == EffectOfRow(u, i, kind, fields)
  {
    NamesKnown(kind);
    hide KindOf, TypeName, Columns, Coerced, EffectOfRow;
  }

  predicate Breaks(line: Line) {
    line.NotObject? || (line.Record? && line.typeName.Nested?)
  }

  lemma BreaksOnly(u: Setup, i: nat, line: Line)
    ensures EffectOf(u, i, line).Break? <==> Breaks(line)
    ensures EffectOf(u, i, line).Nothing? <==> line.Blank?
  {
  }

  // Merging inserts the object, or updates the columns that are set on it.
  function Merged(rows: map<Key, Row>, key: Key, row: Row): map<Key, Row> {
    rows[key := if key in rows then rows[key] + row else row]
  }

  function Wrote(rows: map<Key, Row>, effect: Effect): map<Key, Row> {
    if effect.Put? then Merged(rows, effect.key, effect.row) else rows
  }

  function After(u: Setup, lines: seq<Line>, rows: map<Key, Row>): map<Key, Row> {
    if lines == [] then rows else
      Wrote(After(u, lines[..|lines| - 1], rows), EffectOf(u, |lines| - 1, lines[|lines| - 1]))
  }

  lemma AfterLast(u: Setup, lines: seq<Line>, line: Line, rows: map<Key, Row>)
    ensures After(u, lines + [line], rows) == Wrote(After(u, lines, rows), EffectOf(u, |lines|, line))
  {
    hide EffectOf, Wrote;
    assert (lines + [line])[..|lines|] == lines;
  }

  // What an accepted record writes, column by column: its own values, timestamps parsed, under the
  // target's id; the drawn and constant defaults where it has none; nothing where there is no default.
  lemma RecordWrites(u: Setup, i: nat, kind: Kind, fields: Row, c: string)
    ensures var row := Built(u, i, kind, fields);
      var v := if c in fields then fields[c] else Null;
      var timed := v.Text? && 'T' in v.s && ':' in v.s && u.clock.parse(v.s) != None;
      && (c in row <==> c in Columns(kind) && (c in fields || c == "tenant_id" || c !in RequiredColumns(kind)))
      && (c in row && c != "tenant_id" && c in fields ==>
            row[c] == if timed then Moment(u.clock.parse(v.s).value) else v)
      && (c in row && c != "tenant_id" && c !in fields ==>
            row[c] == if c in FreshColumns(kind) then u.drawn(i, kind, c) else ConstantDefault(kind, c))
  {
    hide Columns, FreshColumns, RequiredColumns, ConstantDefault;
  }

  // The row with the key is new, or has new values in the columns that are set; at any other key k,
  // and in any other column c, nothing changes.
  predicate Upserted(before: map<Key, Row>, after: map<Key, Row>, key: Key, row: Row, k: Key, c: string) {
    && (k in after <==> k in before || k == key)
    && (k in after && k != key ==> after[k] == before[k])
    && key in after
    && (c in after[key] <==> c in row || (key in before && c in before[key]))
    && (c in after[key] ==> after[key][c] == if c in row then row[c] else before[key][c])
  }

  lemma MergedColumns(before: map<Key, Row>, key: Key, row: Row, k: Key, c: string)
    ensures Upserted(before, Merged(before, key, row), key, row, k, c)
  {
  }

  lemma WroteIsMerged(rows: map<Key, Row>, key: Key, row: Row)
    ensures Wrote(rows, Put(key, row)) == Merged(rows, key, row)
  {
  }

  lemma KeyForm(kind: Kind, row: Row)
    ensures KeyOf(kind, row) == Key(kind, if PrimaryKey(kind) in row then row[PrimaryKey(kind)] else Null)
  {
  }

  lemma AcceptedIsPut(u: Setup, i: nat, kind: Kind, fields: Row)
    requires u.accepts(kind, Built(u, i, kind, fields))
    ensures EffectOfRow(u, i, kind, fields) == Put(KeyOf(kind, Built(u, i, kind, fields)), Built(u, i, kind, fields))
  {
    hide Built;
  }

  // It inserts a row, or gives the columns it sets new values in the row with its key.
  lemma UpsertsColumnwise(u: Setup, lines: seq<Line>, kind: Kind, fields: Row, rows: map<Key, Row>, k: Key, c: string)
    requires kind != TenantRow && u.accepts(kind, Built(u, |lines|, kind, fields))
    ensures var row := Built(u, |lines|, kind, fields);
      var key := Key(kind, if PrimaryKey(kind) in row then row[PrimaryKey(kind)] else Null);
      Upserted(After(u, lines, rows), After(u, lines + [Record(Text(TypeName(kind)), fields)], rows), key, row, k, c)
  {
    hide *;
    var row := Built(u, |lines|, kind, fields);
    EffectOfKnown(u, |lines|, kind, fields);
    AcceptedIsPut(u, |lines|, kind, fields);
    AfterLast(u, lines, Record(Text(TypeName(kind)), fields), rows);
    KeyForm(kind, row);
    WroteIsMerged(After(u, lines, rows), KeyOf(kind, row), row);
    MergedColumns(After(u, lines, rows), KeyOf(kind, row), row, k, c);
  }

  // ---- The summary ----

  datatype Summary = Summary(tenants: nat, imported: map<Kind, nat>, skipped: nat, reasons: seq<Reason>)

  const FRESH := Summary(0, map[], 0, [])

  function Count(s: Summary, kind: Kind): nat { if kind in s.imported then s.imported[kind] else 0 }

  function Imported(s: Summary): nat {
    Count(s, MemoryRow) + Count(s, SessionRow) + Count(s, ArcRow) + Count(s, IntentionRow)
      + Count(s, DynamicsRow) + Count(s, SupersessionRow)
  }

  function Counted(s: Summary, effect: Effect): Summary {
    match effect
    case Seen => s.(tenants := s.tenants + 1)
    case Skip(why) => s.(skipped := s.skipped + 1, reasons := s.reasons + [why])
    case Put(key, _) => s.(imported := s.imported[key.kind := Count(s, key.kind) + 1])
    case _ => s
  }

  function Tally(u: Setup, lines: seq<Line>): Summary {
    if lines == [] then FRESH else
      var n := |lines| - 1;
      Counted(Tally(u, lines[..n]), EffectOf(u, n, lines[n]))
  }

  lemma TallyLast(u: Setup, lines: seq<Line>, line: Line)
    ensures Tally(u, lines + [line]) == Counted(Tally(u, lines), EffectOf(u, |lines|, line))
  {
    hide EffectOf, Counted;
    assert (lines + [line])[..|lines|] == lines;
  }

  lemma NothingImported(u: Setup, rows: map<Key, Row>)
    ensures After(u, [], rows) == rows && Tally(u, []) == FRESH
  {
  }

  function NonBlank(lines: seq<Line>): nat {
    if lines == [] then 0 else NonBlank(lines[..|lines| - 1]) + (if lines[|lines| - 1].Blank? then 0 else 1)
  }

  lemma NothingYet()
    ensures Imported(FRESH) == 0
  {
  }

  lemma KindsKnown(u: Setup, i: nat, line: Line)
    ensures EffectOf(u, i, line).Put? ==> EffectOf(u, i, line).key.kind != TenantRow
  {
  }

  lemma CountingAddsOne(s: Summary, effect: Effect)
    requires effect.Put? ==> effect.key.kind != TenantRow
    ensures var t := Counted(s, effect);
      t.tenants + Imported(t) + t.skipped ==
      s.tenants + Imported(s) + s.skipped + (if effect.Nothing? || effect.Break? then 0 else 1)
  {
    if effect.Put? {
      match effect.key.kind {
        case MemoryRow =>
        case SessionRow =>
        case ArcRow =>
        case IntentionRow =>
        case DynamicsRow =>
        case SupersessionRow =>
      }
    }
  }

  // Every non-blank line is counted exactly once, and every skip has its reason.
  lemma {:induction false} EveryLineCounted(u: Setup, lines: seq<Line>)
    requires forall line | line in lines :: !Breaks(line)
    ensures var s := Tally(u, lines);
      NonBlank(lines) == s.tenants + Imported(s) + s.skipped && |s.reasons| == s.skipped
  {
    hide EffectOf, Imported;
    if lines == [] {
      NothingYet();
    } else {
      var n := |lines| - 1;
      EveryLineCounted(u, lines[..n]);
      BreaksOnly(u, n, lines[n]);
      KindsKnown(u, n, lines[n]);
      CountingAddsOne(Tally(u, lines[..n]), EffectOf(u, n, lines[n]));
    }
  }

  // The records of a table, by their type name, whose rows are accepted.
  function Accepted(u: Setup, lines: seq<Line>, kind: Kind, name: string): nat {
    if lines == [] then 0 else
      var n := |lines| - 1;
      var line := lines[n];
      var counts := line.Record? && line.typeName == Text(name) && u.accepts(kind, Built(u, n, kind, line.fields));
      Accepted(u, lines[..n], kind, name) + (if counts then 1 else 0)
  }

  function Named(lines: seq<Line>, name: string): nat {
    if lines == [] then 0 else
      var line := lines[|lines| - 1];
      Named(lines[..|lines| - 1], name) + (if line.Record? && line.typeName == Text(name) then 1 else 0)
  }

  lemma PutNamesItsKind(u: Setup, i: nat, line: Line)
    ensures EffectOf(u, i, line).Put? ==>
      line.Record? && line.typeName == Text(TypeName(EffectOf(u, i, line).key.kind))
  {
    if line.Record? {
      NameOf(line.typeName);
    }
    hide TypeName, KindOf, Built;
  }

  lemma EffectIs(u: Setup, i: nat, line: Line, kind: Kind)
    ensures line.Blank? ==> EffectOf(u, i, line) == Nothing
    ensures line.Malformed? ==> EffectOf(u, i, line) == Skip(MalformedJson)
    ensures line.Record? && !line.typeName.Nested? && (forall k: Kind :: line.typeName != Text(TypeName(k))) ==>
      EffectOf(u, i, line) == Skip(UnknownType(line.typeName))
    ensures line.Record? && kind != TenantRow && line.typeName == Text(TypeName(kind)) ==>
      var row := Built(u, i, kind, line.fields);
      EffectOf(u, i, line) == if u.accepts(kind, row) then Put(KeyOf(kind, row), row) else Skip(Rejected(kind))
  {
    if line.Record? {
      assert TypeName(TenantRow) == "tenant";
      NameOf(line.typeName);
      NamesKnown(kind);
    }
    hide TypeName, KindOf, Built, KeyOf;
  }

  lemma CountsOwnKind(u: Setup, i: nat, line: Line, kind: Kind, s: Summary)
    requires kind != TenantRow
    ensures Count(Counted(s, EffectOf(u, i, line)), kind) == Count(s, kind)
      + (if line.Record? && line.typeName == Text(TypeName(kind)) && u.accepts(kind, Built(u, i, kind, line.fields))
         then 1 else 0)
  {
    EffectIs(u, i, line, kind);
    PutNamesItsKind(u, i, line);
    hide TypeName, EffectOf, Built;
  }

  lemma {:induction false} KindIsCounted(u: Setup, lines: seq<Line>, kind: Kind)
    requires kind != TenantRow
    ensures Count(Tally(u, lines), kind) == Accepted(u, lines, kind, TypeName(kind))
  {
    hide EffectOf, Counted, TypeName, Built;
    if lines == [] {
    } else {
      var n := |lines| - 1;
      KindIsCounted(u, lines[..n], kind);
      CountsOwnKind(u, n, lines[n], kind, Tally(u, lines[..n]));
    }
  }

  lemma {:induction false} TenantsAreCounted(u: Setup, lines: seq<Line>)
    ensures Tally(u, lines).tenants == Named(lines, "tenant")
  {
    if lines == [] {
    } else {
      TenantsAreCounted(u, lines[..|lines| - 1]);
    }
  }

  // The summary counts, table by table, the records of that type name that were accepted; of the
  // tenant records it counts all.
  lemma EachTableCounted(u: Setup, lines: seq<Line>)
    ensures var s := Tally(u, lines);
      && s.tenants == Named(lines, "tenant")
      && Count(s, MemoryRow) == Accepted(u, lines, MemoryRow, "memory")
      && Count(s, SessionRow) == Accepted(u, lines, SessionRow, "session")
      && Count(s, ArcRow) == Accepted(u, lines, ArcRow, "narrative_arc")
      && Count(s, IntentionRow) == Accepted(u, lines, IntentionRow, "intention")
      && Count(s, DynamicsRow) == Accepted(u, lines, DynamicsRow, "memory_dynamics")
      && Count(s, SupersessionRow) == Accepted(u, lines, SupersessionRow, "memory_supersession")
  {
    TenantsAreCounted(u, lines);
    KindIsCounted(u, lines, MemoryRow);
    KindIsCounted(u, lines, SessionRow);
    KindIsCounted(u, lines, ArcRow);
    KindIsCounted(u, lines, IntentionRow);
    KindIsCounted(u, lines, DynamicsRow);
    KindIsCounted(u, lines, SupersessionRow);
    hide Tally, Accepted, Named, Count;
  }

  lemma CountedForms(s: Summary, key: Key, row: Row, why: Reason)
    ensures Counted(s, Put(key, row)) == s.(imported := s.imported[key.kind := Count(s, key.kind) + 1])
    ensures Counted(s, Skip(why)) == s.(skipped := s.skipped + 1, reasons := s.reasons + [why])
  {
  }

  lemma KeyKind(kind: Kind, row: Row)
    ensures KeyOf(kind, row).kind == kind
  {
  }

  // Why a line is skipped: it is not JSON, its type name is none of the seven, or its row is refused.
  lemma SkipsHaveTheirReason(u: Setup, lines: seq<Line>, line: Line)
    ensures var s, t := Tally(u, lines), Tally(u, lines + [line]);
      && (line.Blank? ==> t == s)
      && (line.Malformed? ==> t == s.(skipped := s.skipped + 1, reasons := s.reasons + [MalformedJson]))
      && (line.Record? && !line.typeName.Nested? && (forall k: Kind :: line.typeName != Text(TypeName(k))) ==>
            t == s.(skipped := s.skipped + 1, reasons := s.reasons + [UnknownType(line.typeName)]))
  {
    TallyLast(u, lines, line);
    EffectIs(u, |lines|, line, MemoryRow);
    hide Tally, EffectOf, TypeName, Built, KeyOf;
  }

  lemma RowsAreCountedOrRefused(u: Setup, lines: seq<Line>, fields: Row, kind: Kind)
    requires kind != TenantRow
    ensures var s, t := Tally(u, lines), Tally(u, lines + [Record(Text(TypeName(kind)), fields)]);
      t == if u.accepts(kind, Built(u, |lines|, kind, fields))
           then s.(imported := s.imported[kind := Count(s, kind) + 1])
           else s.(skipped := s.skipped + 1, reasons := s.reasons + [Rejected(kind)])
  {
    hide *;
    var line := Record(Text(TypeName(kind)), fields);
    TallyLast(u, lines, line);
    EffectIs(u, |lines|, line, kind);
    var row := Built(u, |lines|, kind, fields);
    CountedForms(Tally(u, lines), KeyOf(kind, row), row, Rejected(kind));
    assert KeyOf(kind, row).kind == kind by {
      KeyKind(kind, row);
    }
  }

  // ---- Importing ----

  class Importer {
    const u: Setup
    var rows: map<Key, Row>

    constructor (u: Setup, rows: map<Key, Row>)
      ensures this.u == u && this.rows == rows
    {
      this.u, this.rows := u, rows;
    }

    // A record of a known kind, under the target's id, with its timestamps parsed.
    method IngestRow(i: nat, kind: Kind, fields: Row, pending: map<Key, Row>, s: Summary)
      returns (after: map<Key, Row>, summary: Summary)
      ensures summary == Counted(s, EffectOfRow(u, i, kind, fields))
      ensures after == Wrote(pending, EffectOfRow(u, i, kind, fields))
    {
      after, summary := pending, s;
      hide Columns, Coerced;
      var record := CoerceTimestamps(u.clock, kind, fields["tenant_id" := Text(u.target)]);
      var row := Filled(u, i, kind, record);
      if u.accepts(kind, row) {
        var key := KeyOf(kind, row);
        after := pending[key := if key in pending then pending[key] + row else row];
        summary := s.(imported := s.imported[kind := Count(s, kind) + 1]);
      } else {
        summary := s.(skipped := s.skipped + 1, reasons := s.reasons + [Rejected(kind)]);
      }
    }

    // One line; `broke` stands for the exception that a JSON value that is no record raises.
    method IngestLine(i: nat, line: Line, pending: map<Key, Row>, s: Summary)
      returns (broke: bool, after: map<Key, Row>, summary: Summary)
      ensures broke <==> Breaks(line)
      ensures !broke ==> var effect := EffectOf(u, i, line);
        summary == Counted(s, effect) && after == Wrote(pending, effect)
    {
      broke, after, summary := false, pending, s;
      if line.Blank? {
        return;
      }
      if line.Malformed? {
        summary := s.(skipped := s.skipped + 1, reasons := s.reasons + [MalformedJson]);
        return;
      }
      if line.NotObject? {
        broke := true;
        return;
      }
      var name := line.typeName;
      if name == Text("tenant") {
        summary := s.(tenants := s.tenants + 1);
        return;
      }
      if name.Nested? {
        broke := true;
        return;
      }
      hide KindOf, EffectOfRow;
      var known := KindOf(name);
      if known.None? {
        summary := s.(skipped := s.skipped + 1, reasons := s.reasons + [UnknownType(name)]);
        return;
      }
      after, summary := IngestRow(i, known.value, line.fields, pending, s);
    }

    // One commit at the end: a line that breaks, or a commit that fails, undoes the whole import.
    method IngestRecords(lines: seq<Line>) returns (summary: Option<Summary>)
      modifies this`rows
      ensures summary.None?
        <==> (exists line :: line in lines && Breaks(line)) || !u.commits(After(u, lines, old(rows)))
      ensures summary.None? ==> rows == old(rows)
      ensures summary.Some? ==> rows == After(u, lines, old(rows)) && summary.value == Tally(u, lines)
    {
      hide EffectOf, Breaks, Counted, Wrote, After, Tally;
      NothingImported(u, rows);
      var pending, s := rows, FRESH;
      for i := 0 to |lines|
        invariant forall line | line in lines[..i] :: !Breaks(line)
        invariant pending == After(u, lines[..i], rows) && s == Tally(u, lines[..i])
        invariant rows == old(rows)
      {
        assert lines[..i + 1] == lines[..i] + [lines[i]];
        AfterLast(u, lines[..i], lines[i], rows);
        TallyLast(u, lines[..i], lines[i]);
        var broke, after, summed := IngestLine(i, lines[i], pending, s);
        if broke {
          assert lines[i] in lines;
          return None;
        }
        pending, s := after, summed;
      }
      assert lines[..|lines|] == lines;
      if !u.commits(pending) {
        return None;
      }
      rows := pending;
      return Some(s);
    }
  }

  // ---- Importing is an overlay ----

  // Column by column, what `more` sets on top of `rows`.
  function Overlay(rows: map<Key, Row>, more: map<Key, Row>): map<Key, Row> {
    map k | k in rows.Keys + more.Keys ::
      if k !in more then rows[k] else if k in rows then rows[k] + more[k] else more[k]
  }

  lemma OverlayMerged(rows: map<Key, Row>, more: map<Key, Row>, key: Key, row: Row)
    ensures Merged(Overlay(rows, more), key, row) == Overlay(rows, Merged(more, key, row))
  {
    if key in rows && key in more {
      assert (rows[key] + more[key]) + row == rows[key] + (more[key] + row);
    }
  }

  lemma OverlayTwice(rows: map<Key, Row>, more: map<Key, Row>)
    ensures Overlay(Overlay(rows, more), more) == Overlay(rows, more)
  {
    forall k | k in more ensures Overlay(Overlay(rows, more), more)[k] == Overlay(rows, more)[k] {
      assert more[k] + more[k] == more[k];
      if k in rows {
        assert (rows[k] + more[k]) + more[k] == rows[k] + more[k];
      }
    }
  }

  lemma OverlayNothing(rows: map<Key, Row>)
    ensures Overlay(rows, map[]) == rows
  {
  }

  lemma {:induction false} AfterIsOverlay(u: Setup, lines: seq<Line>, rows: map<Key, Row>)
    ensures After(u, lines, rows) == Overlay(rows, After(u, lines, map[]))
  {
    hide EffectOf, Overlay, Merged;
    if lines == [] {
      OverlayNothing(rows);
    } else {
      var n := |lines| - 1;
      var effect := EffectOf(u, n, lines[n]);
      AfterIsOverlay(u, lines[..n], rows);
      if effect.Put? {
        OverlayMerged(rows, After(u, lines[..n], map[]), effect.key, effect.row);
      }
    }
  }

  // ---- Importing again ----

  // The record brings its own id and times.
  predicate CarriesFresh(kind: Kind, fields: Row) {
    forall c | c in FreshColumns(kind) :: c in fields
  }

  // No default that the line needs is drawn anew.
  predicate Fixed(line: Line) {
    line.Record? && KindOf(line.typeName).Some? ==> CarriesFresh(KindOf(line.typeName).value, line.fields)
  }

  lemma FixedIgnoresDraws(u: Setup, v: Setup, i: nat, line: Line)
    requires Fixed(line) && v == u.(drawn := v.drawn)
    ensures EffectOf(u, i, line) == EffectOf(v, i, line)
  {
    if line.Record? && KindOf(line.typeName).Some? {
      var kind := KindOf(line.typeName).value;
      hide Columns, FreshColumns, RequiredColumns, ConstantDefault, KindOf, Read;
      assert Built(u, i, kind, line.fields) == Built(v, i, kind, line.fields);
    }
  }

  lemma {:induction false} FixedIsDeterministic(u: Setup, v: Setup, lines: seq<Line>, rows: map<Key, Row>)
    requires v == u.(drawn := v.drawn) && forall line | line in lines :: Fixed(line)
    ensures After(u, lines, rows) == After(v, lines, rows)
  {
    hide Fixed, EffectOf;
    if lines == [] {
    } else {
      var n := |lines| - 1;
      FixedIsDeterministic(u, v, lines[..n], rows);
      assert lines[n] in lines;
      FixedIgnoresDraws(u, v, n, lines[n]);
    }
  }

  // Importing a second time records that bring their own ids and times, whatever would be drawn
  // by then and whatever was stored before, changes nothing.
  lemma ImportTwiceIsOnce(u: Setup, v: Setup, lines: seq<Line>, rows: map<Key, Row>)
    requires v == u.(drawn := v.drawn) && forall line | line in lines :: Fixed(line)
    ensures After(v, lines, After(u, lines, rows)) == After(u, lines, rows)
  {
    hide After, Overlay, Fixed;
    var once := After(u, lines, rows);
    FixedIsDeterministic(u, v, lines, once);
    AfterIsOverlay(u, lines, rows);
    AfterIsOverlay(u, lines, once);
    OverlayTwice(rows, After(u, lines, map[]));
  }

  // One record imported once, and then again with the draws of a later moment.
  predicate SameAgain(u: Setup, v: Setup, line: Line) {
    After(v, [line], After(u, [line], map[])) == After(u, [line], map[])
  }

  // The draws agree on the fresh columns that the record leaves out.
  predicate SameDraws(u: Setup, v: Setup, kind: Kind, fields: Row) {
    forall c | c in FreshColumns(kind) && c !in fields :: u.drawn(0, kind, c) == v.drawn(0, kind, c)
  }

  lemma SameBuiltIff(u: Setup, v: Setup, kind: Kind, fields: Row)
    requires kind != TenantRow && v == u.(drawn := v.drawn)
    ensures Built(u, 0, kind, fields).Keys == Built(v, 0, kind, fields).Keys
    ensures Built(u, 0, kind, fields) == Built(v, 0, kind, fields) <==> SameDraws(u, v, kind, fields)
  {
    FreshKnown(kind);
    hide Columns, FreshColumns, RequiredColumns, ConstantDefault, Read;
    var record := Coerced(u.clock, kind, fields["tenant_id" := Text(u.target)]);
    var a, b := Filled(u, 0, kind, record), Filled(v, 0, kind, record);
    assert a.Keys == b.Keys;
    if a == b {
      forall c | c in FreshColumns(kind) && c !in fields ensures u.drawn(0, kind, c) == v.drawn(0, kind, c) {
        assert a[c] == b[c];
      }
    }
  }

  lemma OneRecord(u: Setup, kind: Kind, fields: Row, rows: map<Key, Row>)
    requires kind != TenantRow && u.accepts(kind, Built(u, 0, kind, fields))
    ensures var row := Built(u, 0, kind, fields);
      After(u, [Record(Text(TypeName(kind)), fields)], rows) == Merged(rows, KeyOf(kind, row), row)
  {
    EffectOfKnown(u, 0, kind, fields);
    hide KindOf, TypeName, Columns, Coerced, Built, EffectOf, Merged, KeyOf;
    AfterLast(u, [], Record(Text(TypeName(kind)), fields), rows);
    assert [] + [Record(Text(TypeName(kind)), fields)] == [Record(Text(TypeName(kind)), fields)];
  }

  lemma MergedSameIff(kind: Kind, a: Row, b: Row)
    requires a.Keys == b.Keys
    ensures var once := Merged(map[], KeyOf(kind, a), a); Merged(once, KeyOf(kind, b), b) == once <==> a == b
  {
    var once: map<Key, Row> := map[KeyOf(kind, a) := a];
    if Merged(once, KeyOf(kind, b), b) == once {
      assert KeyOf(kind, b) in once;
      assert a + b == b;
    } else {
      assert a + a == a;
    }
  }

  lemma SameAgainIff(u: Setup, v: Setup, kind: Kind, fields: Row)
    requires kind != TenantRow && v == u.(drawn := v.drawn)
    requires u.accepts(kind, Built(u, 0, kind, fields)) && u.accepts(kind, Built(v, 0, kind, fields))
    ensures SameAgain(u, v, Record(Text(TypeName(kind)), fields)) <==> SameDraws(u, v, kind, fields)
  {
    SameBuiltIff(u, v, kind, fields);
    OneRecord(u, kind, fields, map[]);
    hide Built, After, SameDraws, TypeName, KeyOf, Merged;
    var a, b := Built(u, 0, kind, fields), Built(v, 0, kind, fields);
    OneRecord(v, kind, fields, Merged(map[], KeyOf(kind, a), a));
    MergedSameIff(kind, a, b);
  }

  // Two imports never draw the same id or the same time.
  predicate Redrawn(u: Setup, v: Setup, kind: Kind) {
    forall c | c in FreshColumns(kind) :: u.drawn(0, kind, c) != v.drawn(0, kind, c)
  }

  // Importing an accepted record twice is importing it once exactly when the record carries
  // every fresh column of its table; the other columns it may leave out.
  lemma ImportAgainIff(u: Setup, v: Setup, kind: Kind, fields: Row)
    requires kind != TenantRow && v == u.(drawn := v.drawn) && Redrawn(u, v, kind)
    requires u.accepts(kind, Built(u, 0, kind, fields)) && u.accepts(kind, Built(v, 0, kind, fields))
    ensures SameAgain(u, v, Record(Text(TypeName(kind)), fields)) <==> CarriesFresh(kind, fields)
  {
    SameAgainIff(u, v, kind, fields);
    hide SameAgain, Built, FreshColumns, TypeName;
  }

  // Whatever the later draws are: exactly such records are always imported idempotently.
  lemma AlwaysSameAgainIff(u: Setup, kind: Kind, fields: Row)
    requires kind != TenantRow
    requires forall v: Setup | v == u.(drawn := v.drawn) :: u.accepts(kind, Built(v, 0, kind, fields))
    ensures var line := Record(Text(TypeName(kind)), fields);
      (forall v: Setup | v == u.(drawn := v.drawn) :: SameAgain(u, v, line)) <==> Fixed(line)
  {
    NamesKnown(kind);
    hide SameAgain, FreshColumns, KindOf, TypeName, Built;
    var line := Record(Text(TypeName(kind)), fields);
    assert u == u.(drawn := u.drawn) && u.accepts(kind, Built(u, 0, kind, fields));
    if Fixed(line) {
      forall v: Setup | v == u.(drawn := v.drawn) ensures SameAgain(u, v, line) {
        SameAgainIff(u, v, kind, fields);
      }
    } else {
      var c :| c in FreshColumns(kind) && c !in fields;
      var other := if u.drawn(0, kind, c) == Null then Flag(true) else Null;
      var v := u.(drawn := (i, k, column) => other);
      SameAgainIff(u, v, kind, fields);
      assert !SameDraws(u, v, kind, fields);
    }
  }

  // So a record that leaves out its key is imported anew each time.
  lemma PartialImportTwiceDiffers(u: Setup, v: Setup)
    requires v == u.(drawn := v.drawn)
    requires u.accepts(MemoryRow, Built(u, 0, MemoryRow, map[])) && u.accepts(MemoryRow, Built(v, 0, MemoryRow, map[]))
    requires u.drawn(0, MemoryRow, "id") != v.drawn(0, MemoryRow, "id")
    ensures !SameAgain(u, v, Record(Text("memory"), map[]))
  {
    assert FreshColumns(MemoryRow)[0] == "id";
    SameAgainIff(u, v, MemoryRow, map[]);
    hide SameAgain, Built, FreshColumns;
    assert !SameDraws(u, v, MemoryRow, map[]);
  }

  // Every column of the record's table is present.
  predicate Complete(line: Line) {
    line.Record? && KindOf(line.typeName).Some? ==>
      forall c | c in Columns(KindOf(line.typeName).value) && c != "tenant_id" :: c in line.fields
  }

  lemma CompleteIsFixed(line: Line)
    requires Complete(line)
    ensures Fixed(line)
  {
    if line.Record? && KindOf(line.typeName).Some? {
      FreshKnown(KindOf(line.typeName).value);
      hide Columns, FreshColumns, KindOf;
    }
  }

  predicate Belongs(row: Row, tenant: string) {
    "tenant_id" in row && row["tenant_id"] == Text(tenant)
  }

  lemma TargetIsPlain(clock: Clock, target: string)
    requires ReadCache.ValidTenant(target)
    ensures !LooksTimed(clock, target)
  {
  }

  lemma PutIsTheTargets(u: Setup, i: nat, line: Line)
    requires ReadCache.ValidTenant(u.target)
    ensures EffectOf(u, i, line).Put? ==> Belongs(EffectOf(u, i, line).row, u.target)
  {
    if EffectOf(u, i, line).Put? {
      ColumnsKnown(KindOf(line.typeName).value);
      TargetIsPlain(u.clock, u.target);
      hide Columns, KindOf;
    }
  }

  lemma MergedBelongs(rows: map<Key, Row>, key: Key, row: Row, tenant: string)
    requires Belongs(row, tenant) && forall k | k in rows :: Belongs(rows[k], tenant)
    ensures forall k | k in Merged(rows, key, row) :: Belongs(Merged(rows, key, row)[k], tenant)
  {
  }

  // Whatever tenant a record names, the row written belongs to the target.
  lemma {:induction false} NothingLeavesTheTarget(u: Setup, lines: seq<Line>, rows: map<Key, Row>)
    requires ReadCache.ValidTenant(u.target)
    requires forall k | k in rows :: Belongs(rows[k], u.target)
    ensures forall k | k in After(u, lines, rows) :: Belongs(After(u, lines, rows)[k], u.target)
  {
    hide EffectOf, ReadCache.ValidTenant, Belongs;
    if lines == [] {
    } else {
      var n := |lines| - 1;
      NothingLeavesTheTarget(u, lines[..n], rows);
      PutIsTheTargets(u, n, lines[n]);
      var before, effect := After(u, lines[..n], rows), EffectOf(u, n, lines[n]);
      assert After(u, lines, rows) == Wrote(before, effect);
      hide After, Merged;
      if effect.Put? {
        MergedBelongs(before, effect.key, effect.row, u.target);
      }
    }
  }

  // ---- Round trips ----

  // A row survives export and import exactly when none of its text looks like a timestamp.
  lemma {:induction false} RowRoundTripsIff(clock: Clock, kind: Kind, row: Row)
    requires ClockWorks(clock) && row.Keys == Elems(Columns(kind))
    ensures Coerced(clock, kind, ShownRow(clock, row)) == row <==> Clean(clock, row)
  {
    hide Columns;
    var back := Coerced(clock, kind, ShownRow(clock, row));
    assert back.Keys == row.Keys;
    forall c | c in row ensures back[c] == row[c] <==> (row[c].Text? ==> !LooksTimed(clock, row[c].s)) {
      assert c in Columns(kind);
    }
  }

  ghost predicate WellFormed(rows: map<Key, Row>) {
    forall k | k in rows ::
      && k.kind != TenantRow && rows[k].Keys == Elems(Columns(k.kind))
      && rows[k][PrimaryKey(k.kind)] == k.id
  }

  function RowLines(clock: Clock, rows: map<Key, Row>, order: seq<Key>): seq<Line>
    requires forall k | k in order :: k in rows
  {
    if order == [] then [] else
      var k := order[|order| - 1];
      RowLines(clock, rows, order[..|order| - 1]) + [Record(Text(TypeName(k.kind)), ShownRow(clock, rows[k]))]
  }

  function OfTenant(rows: map<Key, Row>, tenant: string): set<Key> {
    set k | k in rows && Belongs(rows[k], tenant)
  }

  // The dump of a tenant: its tenant row, then its rows as the database lists them.
  function Dump(clock: Clock, tenantRow: Row, rows: map<Key, Row>, order: seq<Key>): seq<Line>
    requires forall k | k in order :: k in rows
  {
    [Record(Text("tenant"), ShownRow(clock, tenantRow))] + RowLines(clock, rows, order)
  }

  function Retargeted(rows: map<Key, Row>, keys: seq<Key>, target: string): map<Key, Row>
    requires forall k | k in keys :: k in rows
  {
    map k | k in keys :: rows[k]["tenant_id" := Text(target)]
  }

  // What an exported row becomes on import, column by column.
  lemma BuiltColumns(u: Setup, i: nat, kind: Kind, row: Row)
    requires kind != TenantRow && row.Keys == Elems(Columns(kind))
    ensures var built := Built(u, i, kind, ShownRow(u.clock, row));
      && built.Keys == row.Keys && "tenant_id" in row
      && built["tenant_id"] == Read(u.clock, Text(u.target))
      && forall c | c in row && c != "tenant_id" :: built[c] == Read(u.clock, Shown(u.clock, row[c]))
  {
    ColumnsKnown(kind);
    hide Columns, Read, Shown;
    var fields := ShownRow(u.clock, row)["tenant_id" := Text(u.target)];
    var built := Built(u, i, kind, ShownRow(u.clock, row));
    assert built == Filled(u, i, kind, Coerced(u.clock, kind, fields));
    assert "tenant_id" in Elems(Columns(kind));
    forall c ensures c in built <==> c in row {
      assert c in Elems(Columns(kind)) <==> c in Columns(kind);
    }
    forall c | c in row ensures built[c] == Read(u.clock, fields[c]) {
      assert c in Elems(Columns(kind));
    }
  }

  lemma DumpedRowIsBuiltBack(u: Setup, i: nat, kind: Kind, row: Row)
    requires ClockWorks(u.clock) && ReadCache.ValidTenant(u.target) && kind != TenantRow
    requires row.Keys == Elems(Columns(kind)) && Clean(u.clock, row)
    ensures Built(u, i, kind, ShownRow(u.clock, row)) == row["tenant_id" := Text(u.target)]
  {
    TargetIsPlain(u.clock, u.target);
    BuiltColumns(u, i, kind, row);
    hide Columns, ReadCache.ValidTenant, Built, ShownRow, Elems;
    var built, expected := Built(u, i, kind, ShownRow(u.clock, row)), row["tenant_id" := Text(u.target)];
    forall c | c in expected ensures built[c] == expected[c] {
      assert c in row;
    }
  }

  lemma BuiltIsClean(u: Setup, i: nat, kind: Kind, row: Row)
    requires kind != TenantRow && row.Keys == Elems(Columns(kind))
    ensures Clean(u.clock, Built(u, i, kind, ShownRow(u.clock, row)))
  {
    BuiltColumns(u, i, kind, row);
    hide Columns, Built, ShownRow;
  }

  lemma TenantLineWritesNothing(u: Setup, first: Line, rows: map<Key, Row>)
    requires first.Record? && first.typeName == Text("tenant")
    ensures After(u, [first], rows) == rows
  {
    hide KindOf;
    assert [first][..0] == [];
  }

  lemma RetargetedLast(rows: map<Key, Row>, keys: seq<Key>, k: Key, target: string)
    requires WellFormed(rows) && k in rows && (forall j | j in keys :: j in rows)
    ensures var row := rows[k]["tenant_id" := Text(target)];
      KeyOf(k.kind, row) == k
      && Merged(Retargeted(rows, keys, target), k, row) == Retargeted(rows, keys + [k], target)
  {
    ColumnsKnown(k.kind);
    hide Columns;
    assert PrimaryKey(k.kind) in Elems(Columns(k.kind));
    var row := rows[k]["tenant_id" := Text(target)];
    assert row + row == row;
  }

  lemma {:induction false} CleanDumpRebuilds(u: Setup, first: Line, rows: map<Key, Row>, order: seq<Key>)
    requires ClockWorks(u.clock) && ReadCache.ValidTenant(u.target) && WellFormed(rows)
    requires first.Record? && first.typeName == Text("tenant")
    requires forall k | k in order :: k in rows && Clean(u.clock, rows[k])
    requires forall k | k in order :: u.accepts(k.kind, rows[k]["tenant_id" := Text(u.target)])
    ensures After(u, [first] + RowLines(u.clock, rows, order), map[]) == Retargeted(rows, order, u.target)
  {
    hide Columns, ReadCache.ValidTenant, Clean, ClockWorks, ShownRow, Built, KindOf, TypeName, EffectOf, After;
    if order == [] {
      assert [first] + RowLines(u.clock, rows, order) == [first];
      TenantLineWritesNothing(u, first, map[]);
    } else {
      var n := |order| - 1;
      var k, before := order[n], [first] + RowLines(u.clock, rows, order[..n]);
      var line := Record(Text(TypeName(k.kind)), ShownRow(u.clock, rows[k]));
      CleanDumpRebuilds(u, first, rows, order[..n]);
      assert [first] + RowLines(u.clock, rows, order) == before + [line];
      AfterLast(u, before, line, map[]);
      DumpedRowIsBuiltBack(u, |before|, k.kind, rows[k]);
      EffectOfKnown(u, |before|, k.kind, ShownRow(u.clock, rows[k]));
      RetargetedLast(rows, order[..n], k, u.target);
      assert order == order[..n] + [k];
    }
  }

  predicate AllClean(clock: Clock, rows: map<Key, Row>) {
    forall k | k in rows :: Clean(clock, rows[k])
  }

  lemma MergedClean(clock: Clock, rows: map<Key, Row>, key: Key, row: Row)
    requires Clean(clock, row) && AllClean(clock, rows)
    ensures AllClean(clock, Merged(rows, key, row))
  {
  }

  // No value an import writes is a text that looks like a timestamp.
  lemma {:induction false} ImportedIsCoerced(u: Setup, first: Line, rows: map<Key, Row>, order: seq<Key>)
    requires WellFormed(rows)
    requires first.Record? && first.typeName == Text("tenant")
    requires forall k | k in order :: k in rows
    ensures AllClean(u.clock, After(u, [first] + RowLines(u.clock, rows, order), map[]))
  {
    hide Columns, Clean, ShownRow, Built, KindOf, TypeName, EffectOf, After;
    if order == [] {
      assert [first] + RowLines(u.clock, rows, order) == [first];
      TenantLineWritesNothing(u, first, map[]);
    } else {
      var n := |order| - 1;
      var k, before := order[n], [first] + RowLines(u.clock, rows, order[..n]);
      var line := Record(Text(TypeName(k.kind)), ShownRow(u.clock, rows[k]));
      ImportedIsCoerced(u, first, rows, order[..n]);
      assert [first] + RowLines(u.clock, rows, order) == before + [line];
      AfterLast(u, before, line, map[]);
      BuiltIsClean(u, |before|, k.kind, rows[k]);
      EffectOfKnown(u, |before|, k.kind, ShownRow(u.clock, rows[k]));
      hide Merged, AllClean;
      var built := Built(u, |before|, k.kind, ShownRow(u.clock, rows[k]));
      MergedClean(u.clock, After(u, before, map[]), KeyOf(k.kind, built), built);
    }
  }

  lemma RetargetedIsUnclean(clock: Clock, rows: map<Key, Row>, order: seq<Key>, target: string, k: Key, c: string)
    requires forall k | k in order :: k in rows
    requires k in order && c in rows[k] && c != "tenant_id" && rows[k][c].Text? && LooksTimed(clock, rows[k][c].s)
    ensures !AllClean(clock, Retargeted(rows, order, target))
  {
    hide LooksTimed;
    var again := Retargeted(rows, order, target);
    assert k in again && again[k][c] == rows[k][c];
    assert !Clean(clock, again[k]);
  }

  // A dumped row with a text that looks like a timestamp does not come back.
  lemma UncleanDumpDoesNotRebuild(u: Setup, first: Line, rows: map<Key, Row>, order: seq<Key>, k: Key, c: string)
    requires WellFormed(rows) && first.Record? && first.typeName == Text("tenant")
    requires forall k | k in order :: k in rows
    requires k in order && c in rows[k] && c != "tenant_id" && rows[k][c].Text? && LooksTimed(u.clock, rows[k][c].s)
    ensures After(u, [first] + RowLines(u.clock, rows, order), map[]) != Retargeted(rows, order, u.target)
  {
    hide After, RowLines, LooksTimed, WellFormed, AllClean, Columns;
    ImportedIsCoerced(u, first, rows, order);
    RetargetedIsUnclean(u.clock, rows, order, u.target, k, c);
  }

  // Importing a tenant's dump into a tenant with nothing in it yields the same rows under the
  // new tenant id, exactly when no text of any dumped row looks like a timestamp; provided the
  // database takes those rows at all.
  lemma DumpRebuildsIff(u: Setup, tenantRow: Row, rows: map<Key, Row>, tenant: string, order: seq<Key>)
    requires ClockWorks(u.clock) && ReadCache.ValidTenant(u.target) && ReadCache.ValidTenant(tenant)
    requires WellFormed(rows)
    requires forall k :: k in order <==> k in OfTenant(rows, tenant)
    requires forall k | k in order :: u.accepts(k.kind, rows[k]["tenant_id" := Text(u.target)])
    ensures After(u, Dump(u.clock, tenantRow, rows, order), map[]) == Retargeted(rows, order, u.target)
      <==> forall k | k in OfTenant(rows, tenant) :: Clean(u.clock, rows[k])
  {
    var first := Record(Text("tenant"), ShownRow(u.clock, tenantRow));
    TargetIsPlain(u.clock, tenant);
    hide Columns, ReadCache.ValidTenant, After, RowLines, ShownRow, LooksTimed, ClockWorks, WellFormed, Retargeted;
    if forall k | k in OfTenant(rows, tenant) :: Clean(u.clock, rows[k]) {
      CleanDumpRebuilds(u, first, rows, order);
    } else {
      var k :| k in OfTenant(rows, tenant) && !Clean(u.clock, rows[k]);
      var c :| c in rows[k] && rows[k][c].Text? && LooksTimed(u.clock, rows[k][c].s);
      UncleanDumpDoesNotRebuild(u, first, rows, order, k, c);
    }
  }

  lemma RowLineIsComplete(clock: Clock, kind: Kind, row: Row)
    requires kind != TenantRow && row.Keys == Elems(Columns(kind))
    ensures Complete(Record(Text(TypeName(kind)), ShownRow(clock, row)))
  {
    NamesKnown(kind);
    hide Columns, KindOf, TypeName, Shown;
    forall c | c in Columns(kind) ensures c in ShownRow(clock, row) {
      assert c in Elems(Columns(kind));
    }
  }

  // Every line of a dump is complete, so ImportTwiceIsOnce covers all dumps.
  lemma {:induction false} DumpsAreComplete(clock: Clock, tenantRow: Row, rows: map<Key, Row>, order: seq<Key>)
    requires WellFormed(rows) && forall k | k in order :: k in rows
    ensures forall line | line in Dump(clock, tenantRow, rows, order) :: Complete(line)
  {
    hide Columns, TypeName, Shown;
    if order == [] {
      assert Dump(clock, tenantRow, rows, order) == [Record(Text("tenant"), ShownRow(clock, tenantRow))];
    } else {
      var n := |order| - 1;
      DumpsAreComplete(clock, tenantRow, rows, order[..n]);
      hide Complete;
      RowLineIsComplete(clock, order[n].kind, rows[order[n]]);
      assert Dump(clock, tenantRow, rows, order) == Dump(clock, tenantRow, rows, order[..n])
        + [Record(Text(TypeName(order[n].kind)), ShownRow(clock, rows[order[n]]))];
    }
  }
}
