/**
 * The metadata cache: an index in memory beside its stored tables. JSON columns round-trip; `settings` stands for the connection
 * fields that neither side interprets.
 */
module Cache {
  import opened Values

  datatype Relation = Relation(name: string, kind: string, body: string)

  datatype FunctionDef = FunctionDef(name: string, overloads: string)

  /** One schema as stored, and as indexed. */
  datatype Schema = Schema(relations: map<string, Relation>, functions: map<string, FunctionDef>, syncedAt: nat)

  datatype SchemaInput = SchemaInput(name: string, relations: seq<Relation>, functions: seq<FunctionDef>)

  /** `allowed` is the list of schemas to introspect; none, or an empty one, means all. */
  datatype Config = Config(id: string, settings: string, passwordSlot: Option<string>, groupId: Option<string>, allowed: Option<seq<string>>)

  /** A row of `connections`. */
  datatype Row = Row(settings: string, passwordSlot: Option<string>, syncedAt: Option<nat>, groupId: Option<string>, allowed: Option<seq<string>>)

  /** The tables, with schemas under their connection and relations and functions under their schema. */
  datatype Tables = Tables(groups: map<string, string>, connections: map<string, Row>, schemas: map<string, map<string, Schema>>)

  /** A connection in memory; its configuration object keeps the list and the password slot it was given. */
  datatype Mem = Mem(settings: string, passwordSlot: Option<string>, syncedAt: Option<nat>, groupId: Option<string>,
                     allowed: Option<seq<string>>, givenSlot: Option<string>, schemas: map<string, Schema>)

  /** `dropped` remembers, per connection, the schemas an ingest left out since they were loaded. */
  datatype State = State(tables: Tables, conns: map<string, Mem>, dropped: map<string, set<string>>)

  // ----- loading -----

  /** Every stored schema is set in the index; nothing is removed from it. */
  function ReloadSchemas(m: Mem, stored: map<string, Schema>): Mem { m.(schemas := m.schemas + stored) }

  function Loaded(row: Row, stored: map<string, Schema>): Mem {
    ReloadSchemas(Mem(row.settings, row.passwordSlot, row.syncedAt, row.groupId, row.allowed, None, map[]), stored)
  }

  function StoredFor(t: Tables, id: string): map<string, Schema> { if id in t.schemas then t.schemas[id] else map[] }

  /** What a fresh start builds from the tables. */
  function Reindex(t: Tables): map<string, Mem> { map id | id in t.connections :: Loaded(t.connections[id], StoredFor(t, id)) }

  function Restart(s: State): State { State(s.tables, Reindex(s.tables), map id | id in s.tables.connections :: {}) }

  // ----- connections -----

  function OrElse(a: Option<string>, b: Option<string>): Option<string> { if a.Some? then a else b }

  /** An empty list is stored like none. */
  function StoredList(list: Option<seq<string>>): Option<seq<string>> { if list == Some([]) then None else list }

  /** Insert, or update all but the group and keep a password slot that is not replaced; None when the group does not exist. */
  function UpsertRow(t: Tables, c: Config): Option<Tables> {
    if c.id in t.connections then
      var row := t.connections[c.id];
      Some(t.(connections := t.connections[c.id := row.(settings := c.settings, passwordSlot := OrElse(c.passwordSlot, row.passwordSlot),
                                                       allowed := StoredList(c.allowed))]))
    else if c.groupId.Some? && c.groupId.value !in t.groups then None
    else
      var row := Row(c.settings, c.passwordSlot, None, c.groupId, StoredList(c.allowed));
      Some(t.(connections := t.connections[c.id := row], schemas := t.schemas[c.id := map[]]))
  }

  function Upsert(s: State, c: Config): (State, bool) {
    var t := UpsertRow(s.tables, c);
    if t.None? then (s, false)
    else
      var known := c.id in s.conns;
      var m := Mem(c.settings, OrElse(c.passwordSlot, if known then s.conns[c.id].passwordSlot else None),
                   if known then s.conns[c.id].syncedAt else None,
                   if known then s.conns[c.id].groupId else c.groupId,
                   c.allowed, c.passwordSlot,
                   if known then s.conns[c.id].schemas else map[]);
      (State(t.value, s.conns[c.id := ReloadSchemas(m, StoredFor(t.value, c.id))],
             if c.id in s.dropped then s.dropped else s.dropped[c.id := {}]), true)
  }

  function Remove(s: State, id: string): State {
    State(s.tables.(connections := s.tables.connections - {id}, schemas := s.tables.schemas - {id}), s.conns - {id}, s.dropped - {id})
  }

  // ----- groups -----

  function CreateGroup(s: State, id: string, name: string): (State, bool) {
    if id in s.tables.groups then (s, false) else (s.(tables := s.tables.(groups := s.tables.groups[id := name])), true)
  }

  function RenameGroup(s: State, id: string, name: string): (State, bool) {
    if id !in s.tables.groups then (s, false) else (s.(tables := s.tables.(groups := s.tables.groups[id := name])), true)
  }

  function Ungrouped(r: Row, id: string): Row { if r.groupId == Some(id) then r.(groupId := None) else r }

  function MemUngrouped(m: Mem, id: string): Mem { if m.groupId == Some(id) then m.(groupId := None) else m }

  function DeleteGroup(s: State, id: string): State {
    State(s.tables.(groups := s.tables.groups - {id}, connections := map c | c in s.tables.connections :: Ungrouped(s.tables.connections[c], id)),
          map c | c in s.conns :: MemUngrouped(s.conns[c], id), s.dropped)
  }

  function Move(s: State, id: string, group: Option<string>): (State, bool) {
    if id !in s.conns || (group.Some? && group.value !in s.tables.groups) then (s, false)
    else
      (State(s.tables.(connections := if id in s.tables.connections then s.tables.connections[id := s.tables.connections[id].(groupId := group)]
                                      else s.tables.connections),
             s.conns[id := s.conns[id].(groupId := group)], s.dropped), true)
  }

  // ----- ingest -----

  /** Insert rows one by one; None on a repeated name or a kind the table refuses. */
  function InsertRelations(into: map<string, Relation>, rs: seq<Relation>): Option<map<string, Relation>>
    decreases |rs|
  {
    if rs == [] then Some(into)
    else if rs[0].name in into || (rs[0].kind != "table" && rs[0].kind != "view") then None
    else InsertRelations(into[rs[0].name := rs[0]], rs[1..])
  }

  function InsertFunctions(into: map<string, FunctionDef>, fs: seq<FunctionDef>): Option<map<string, FunctionDef>>
    decreases |fs|
  {
    if fs == [] then Some(into) else if fs[0].name in into then None else InsertFunctions(into[fs[0].name := fs[0]], fs[1..])
  }

  function StoredSchema(input: SchemaInput, at: nat): Option<Schema> {
    var rs, fs := InsertRelations(map[], input.relations), InsertFunctions(map[], input.functions);
    if rs.Some? && fs.Some? then Some(Schema(rs.value, fs.value, at)) else None
  }

  function InsertSchemas(into: map<string, Schema>, inputs: seq<SchemaInput>, at: nat): Option<map<string, Schema>>
    decreases |inputs|
  {
    if inputs == [] then Some(into)
    else if inputs[0].name in into || StoredSchema(inputs[0], at).None? then None
    else InsertSchemas(into[inputs[0].name := StoredSchema(inputs[0], at).value], inputs[1..], at)
  }

  /** The transaction: replace the connection's schemas; None when any row is refused. */
  function IngestTables(t: Tables, id: string, inputs: seq<SchemaInput>, at: nat): Option<Tables> {
    if id !in t.connections then (if inputs == [] then Some(t) else None)
    else
      var stored := InsertSchemas(map[], inputs, at);
      if stored.None? then None
      else Some(t.(schemas := t.schemas[id := stored.value], connections := t.connections[id := t.connections[id].(syncedAt := Some(at))]))
  }

  function Ingest(s: State, id: string, inputs: seq<SchemaInput>, at: nat): (State, bool) {
    var t := IngestTables(s.tables, id, inputs, at);
    if t.None? then (s, false)
    else if id !in s.conns then (s.(tables := t.value), true)
    else
      var stored := StoredFor(t.value, id);
      (State(t.value, s.conns[id := ReloadSchemas(s.conns[id].(syncedAt := Some(at)), stored)],
             s.dropped[id := (DroppedFor(s, id) + StoredFor(s.tables, id).Keys) - stored.Keys]), true)
  }

  function DroppedFor(s: State, id: string): set<string> { if id in s.dropped then s.dropped[id] else {} }

  // ----- runs -----

  datatype Op =
    | OUpsert(c: Config) | ORemove(id: string) | OCreateGroup(id: string, name: string) | ORenameGroup(id: string, name: string)
    | ODeleteGroup(id: string) | OMove(id: string, group: Option<string>) | OIngest(id: string, inputs: seq<SchemaInput>, at: nat) | ORestart

  function Apply(s: State, op: Op): State {
    match op
    case OUpsert(c) => Upsert(s, c).0
    case ORemove(id) => Remove(s, id)
    case OCreateGroup(id, name) => CreateGroup(s, id, name).0
    case ORenameGroup(id, name) => RenameGroup(s, id, name).0
    case ODeleteGroup(id) => DeleteGroup(s, id)
    case OMove(id, group) => Move(s, id, group).0
    case OIngest(id, inputs, at) => Ingest(s, id, inputs, at).0
    case ORestart => Restart(s)
  }

  function Empty(): State { State(Tables(map[], map[], map[]), map[], map[]) }

  function Run(ops: seq<Op>): State { if ops == [] then Empty() else Apply(Run(ops[..|ops| - 1]), ops[|ops| - 1]) }

  /** The configuration of the connection's last accepted upsert; None when it was loaded from its row since. */
  function Given(ops: seq<Op>, id: string): Option<Config> {
    if ops == [] then None
    else
      var before := ops[..|ops| - 1];
      match ops[|ops| - 1]
      case OUpsert(c) => if c.id == id && Upsert(Run(before), c).1 then Some(c) else Given(before, id)
      case ORemove(gone) => if gone == id then None else Given(before, id)
      case ORestart => None
      case _ => Given(before, id)
  }

  // ----- agreement -----

  /**
   * A connection in memory against its row and its stored schemas, up to an empty list; `gone` are the names memory still
   * lists.
   */
  ghost predicate Agrees(m: Mem, row: Row, stored: map<string, Schema>, gone: set<string>) {
    && m.settings == row.settings && m.passwordSlot == row.passwordSlot && m.syncedAt == row.syncedAt && m.groupId == row.groupId
    && row.allowed == StoredList(m.allowed) && (m.givenSlot.Some? ==> m.givenSlot == m.passwordSlot)
    && (forall n | n in stored :: n in m.schemas && m.schemas[n] == stored[n])
    && m.schemas.Keys == stored.Keys + gone && stored.Keys !! gone
  }

  ghost predicate Inv(s: State) {
    && s.conns.Keys == s.tables.connections.Keys == s.tables.schemas.Keys == s.dropped.Keys
    && (forall id | id in s.conns :: Agrees(s.conns[id], s.tables.connections[id], s.tables.schemas[id], s.dropped[id]))
    && (forall id | id in s.tables.connections && s.tables.connections[id].groupId.Some? ::
          s.tables.connections[id].groupId.value in s.tables.groups)
  }
}
