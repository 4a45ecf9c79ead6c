/** The index agrees with the tables after any run of operations, but for the schemas an ingest dropped. */
module CacheAgreement {
  import opened Values
  import opened Cache

  lemma LoadedAgrees(row: Row, stored: map<string, Schema>)
    requires row.allowed != Some([])
    ensures Agrees(Loaded(row, stored), row, stored, {})
  {
  }

  lemma RestartKeeps(s: State)
    requires Inv(s)
    ensures Inv(Restart(s))
  {
    hide Agrees;
    var t := Restart(s);
    forall id | id in t.conns ensures Agrees(t.conns[id], t.tables.connections[id], t.tables.schemas[id], t.dropped[id]) {
      ListStored(s, id);
      LoadedAgrees(s.tables.connections[id], s.tables.schemas[id]);
    }
  }

  lemma ListStored(s: State, id: string)
    requires Inv(s) && id in s.conns
    ensures s.tables.connections[id].allowed != Some([])
  {
  }

  lemma ReloadAgrees(m: Mem, row: Row, old': map<string, Schema>, stored: map<string, Schema>, gone: set<string>)
    requires m.schemas.Keys == old'.Keys + gone
    requires m.settings == row.settings && m.passwordSlot == row.passwordSlot && m.syncedAt == row.syncedAt && m.groupId == row.groupId
    requires row.allowed == StoredList(m.allowed) && (m.givenSlot.Some? ==> m.givenSlot == m.passwordSlot)
    ensures Agrees(ReloadSchemas(m, stored), row, stored, (gone + old'.Keys) - stored.Keys)
  {
  }

  /** Loading again what is loaded changes nothing. */
  lemma ReloadSame(m: Mem, row: Row, stored: map<string, Schema>, gone: set<string>)
    requires Agrees(m, row, stored, gone)
    ensures m.schemas + stored == m.schemas
  {
  }

  lemma UpsertKnown(s: State, c: Config)
    requires Inv(s) && c.id in s.conns
    ensures Inv(Upsert(s, c).0)
  {
    var t := Upsert(s, c).0;
    ReloadSame(s.conns[c.id], s.tables.connections[c.id], s.tables.schemas[c.id], s.dropped[c.id]);
    assert Agrees(t.conns[c.id], t.tables.connections[c.id], t.tables.schemas[c.id], t.dropped[c.id]);
  }

  lemma UpsertNew(s: State, c: Config)
    requires Inv(s) && c.id !in s.conns
    ensures Inv(Upsert(s, c).0)
  {
    var (t, ok) := Upsert(s, c);
    if ok {
      assert t.conns[c.id].schemas == map[];
      assert Agrees(t.conns[c.id], t.tables.connections[c.id], t.tables.schemas[c.id], t.dropped[c.id]);
    }
  }

  lemma UpsertKeeps(s: State, c: Config)
    requires Inv(s)
    ensures Inv(Upsert(s, c).0)
  {
    hide Inv; hide Upsert;
    if c.id in s.conns { UpsertKnown(s, c); } else { UpsertNew(s, c); }
  }

  lemma RemoveKeeps(s: State, id: string)
    requires Inv(s)
    ensures Inv(Remove(s, id))
  {
    hide Agrees;
  }

  lemma UngroupedAgrees(m: Mem, row: Row, stored: map<string, Schema>, gone: set<string>, id: string)
    requires Agrees(m, row, stored, gone)
    ensures Agrees(MemUngrouped(m, id), Ungrouped(row, id), stored, gone)
  {
  }

  lemma DeleteGroupKeeps(s: State, id: string)
    requires Inv(s)
    ensures Inv(DeleteGroup(s, id))
  {
    hide Agrees; hide MemUngrouped;
    var t := DeleteGroup(s, id);
    forall c | c in t.conns ensures Agrees(t.conns[c], t.tables.connections[c], t.tables.schemas[c], t.dropped[c]) {
      UngroupedAgrees(s.conns[c], s.tables.connections[c], s.tables.schemas[c], s.dropped[c], id);
    }
  }

  /** Changing one connection, in the tables and in memory alike. */
  function WithConnection(s: State, id: string, m: Mem, row: Row, stored: map<string, Schema>, gone: set<string>): State {
    State(s.tables.(connections := s.tables.connections[id := row], schemas := s.tables.schemas[id := stored]), s.conns[id := m],
          s.dropped[id := gone])
  }

  lemma ConnectionKeeps(s: State, id: string, m: Mem, row: Row, stored: map<string, Schema>, gone: set<string>)
    requires Inv(s) && Agrees(m, row, stored, gone) && (row.groupId.Some? ==> row.groupId.value in s.tables.groups)
    ensures Inv(WithConnection(s, id, m, row, stored, gone))
  {
    hide Agrees;
  }

  lemma SameEntry<T>(m: map<string, T>, id: string)
    requires id in m
    ensures m[id := m[id]] == m
  {
  }

  lemma MovedAgrees(m: Mem, row: Row, stored: map<string, Schema>, gone: set<string>, group: Option<string>)
    requires Agrees(m, row, stored, gone)
    ensures Agrees(m.(groupId := group), row.(groupId := group), stored, gone)
  {
  }

  lemma MoveKeeps(s: State, id: string, group: Option<string>)
    requires Inv(s)
    ensures Inv(Move(s, id, group).0)
  {
    hide Agrees;
    if Move(s, id, group).1 {
      var m, row, stored, gone := s.conns[id], s.tables.connections[id], s.tables.schemas[id], s.dropped[id];
      MovedAgrees(m, row, stored, gone, group);
      ConnectionKeeps(s, id, m.(groupId := group), row.(groupId := group), stored, gone);
      SameEntry(s.tables.schemas, id);
      SameEntry(s.dropped, id);
    }
  }

  lemma IngestKeeps(s: State, id: string, inputs: seq<SchemaInput>, at: nat)
    requires Inv(s)
    ensures Inv(Ingest(s, id, inputs, at).0)
  {
    hide InsertSchemas; hide Agrees; hide ReloadSchemas;
    var (t, ok) := Ingest(s, id, inputs, at);
    if ok && id in s.conns {
      var m, row, before, stored := s.conns[id].(syncedAt := Some(at)), t.tables.connections[id], s.tables.schemas[id], t.tables.schemas[id];
      AgreesParts(s.conns[id], s.tables.connections[id], before, s.dropped[id]);
      ReloadAgrees(m, row, before, stored, s.dropped[id]);
      ConnectionKeeps(s, id, ReloadSchemas(m, stored), row, stored, (s.dropped[id] + before.Keys) - stored.Keys);
    }
  }

  lemma AgreesParts(m: Mem, row: Row, stored: map<string, Schema>, gone: set<string>)
    requires Agrees(m, row, stored, gone)
    ensures m.schemas.Keys == stored.Keys + gone
    ensures m.settings == row.settings && m.passwordSlot == row.passwordSlot && m.groupId == row.groupId
    ensures row.allowed == StoredList(m.allowed) && (m.givenSlot.Some? ==> m.givenSlot == m.passwordSlot)
  {
  }

  lemma GroupsKeep(s: State, id: string, name: string)
    requires Inv(s)
    ensures Inv(CreateGroup(s, id, name).0) && Inv(RenameGroup(s, id, name).0)
  {
    hide Agrees;
  }

  lemma ApplyKeeps(s: State, op: Op)
    requires Inv(s)
    ensures Inv(Apply(s, op))
  {
    hide Inv;
    match op
    case OUpsert(c) => UpsertKeeps(s, c);
    case ORemove(id) => RemoveKeeps(s, id);
    case OCreateGroup(id, name) => GroupsKeep(s, id, name);
    case ORenameGroup(id, name) => GroupsKeep(s, id, name);
    case ODeleteGroup(id) => DeleteGroupKeeps(s, id);
    case OMove(id, group) => MoveKeeps(s, id, group);
    case OIngest(id, inputs, at) => IngestKeeps(s, id, inputs, at);
    case ORestart => RestartKeeps(s);
  }

  lemma {:induction false} RunKeeps(ops: seq<Op>)
    ensures Inv(Run(ops))
  {
    if ops == [] { EmptyAgrees(); }
    else {
      hide Inv;
      RunKeeps(ops[..|ops| - 1]);
      ApplyKeeps(Run(ops[..|ops| - 1]), ops[|ops| - 1]);
    }
  }

  lemma EmptyAgrees()
    ensures Inv(Empty())
  {
  }

  // ----- what it gives -----

  /**
   * After any run, memory knows the stored connections, each with its stored group, password slot, sync time and, up to an
   * empty one, its list; and every stored schema with its relations and functions. The names it lists besides are those that
   * ingests dropped.
   */
  lemma MemoryAgrees(ops: seq<Op>, id: string)
    ensures var s := Run(ops);
            && (id in s.conns <==> id in s.tables.connections)
            && (id in s.conns ==> id in s.dropped && Agrees(s.conns[id], s.tables.connections[id], StoredFor(s.tables, id), s.dropped[id]))
  {
    RunKeeps(ops);
  }

  /** The configuration object in memory is the one last given, or the one loaded from the row. */
  ghost predicate HoldsGiven(s: State, id: string, given: Option<Config>) {
    id in s.conns ==>
      var m := s.conns[id];
      match given
      case None => m.givenSlot.None? && m.allowed != Some([])
      case Some(c) => m.givenSlot == c.passwordSlot && m.allowed == c.allowed
  }

  lemma StepHoldsGiven(s: State, op: Op, id: string, given: Option<Config>, next: Option<Config>)
    requires Inv(s) && HoldsGiven(s, id, given)
    requires match op
             case OUpsert(c) => next == if c.id == id && Upsert(s, c).1 then Some(c) else given
             case ORemove(gone) => next == if gone == id then None else given
             case ORestart => next == None
             case _ => next == given
    ensures HoldsGiven(Apply(s, op), id, next)
  {
    hide Agrees; hide InsertSchemas; hide StoredFor;
    if op.ORestart? && id in s.conns { ListStored(s, id); }
  }

  lemma {:induction false} RunHoldsGiven(ops: seq<Op>, id: string)
    ensures HoldsGiven(Run(ops), id, Given(ops, id))
  {
    if ops != [] {
      hide Inv; hide HoldsGiven; hide Apply; hide Upsert;
      var before, last := ops[..|ops| - 1], ops[|ops| - 1];
      RunKeeps(before);
      RunHoldsGiven(before, id);
      StepHoldsGiven(Run(before), last, id, Given(before, id), Given(ops, id));
    }
  }

  lemma AgreesExactly(m: Mem, row: Row, stored: map<string, Schema>, gone: set<string>)
    requires Agrees(m, row, stored, gone)
    ensures m == Loaded(row, stored) <==> gone == {} && m.allowed != Some([]) && m.givenSlot.None?
  {
    var l := Loaded(row, stored);
    assert l.schemas.Keys == stored.Keys;
    if gone == {} { assert m.schemas == stored; assert l.schemas == stored; }
    if m == l { assert m.schemas.Keys == stored.Keys; }
  }

  /** The last upsert gave nothing that only memory keeps: an empty list, or a password slot. */
  predicate StoresAll(given: Option<Config>) { given.Some? ==> given.value.allowed != Some([]) && given.value.passwordSlot.None? }

  lemma ConnectionIsFreshIff(ops: seq<Op>, id: string)
    requires id in Run(ops).conns
    ensures var s := Run(ops);
            && id in s.tables.connections
            && (s.conns[id] == Loaded(s.tables.connections[id], StoredFor(s.tables, id))
                <==> DroppedFor(s, id) == {} && StoresAll(Given(ops, id)))
  {
    hide Agrees; hide Loaded; hide Run; hide Given;
    RunKeeps(ops);
    RunHoldsGiven(ops, id);
    var s := Run(ops);
    AgreesExactly(s.conns[id], s.tables.connections[id], s.tables.schemas[id], s.dropped[id]);
  }

  /**
   * Memory is what a restart would build from the tables exactly when no dropped name lingers and no connection was last
   * upserted, since it was loaded, with an empty list or with a password slot.
   */
  lemma MemoryIsFreshIff(ops: seq<Op>)
    ensures var s := Run(ops);
            s.conns == Reindex(s.tables) <==> forall id | id in s.conns :: DroppedFor(s, id) == {} && StoresAll(Given(ops, id))
  {
    hide Agrees; hide Loaded; hide Run; hide Given; hide StoresAll;
    RunKeeps(ops);
    var s := Run(ops);
    forall id | id in s.conns
      ensures s.conns[id] == Loaded(s.tables.connections[id], StoredFor(s.tables, id)) <==> DroppedFor(s, id) == {} && StoresAll(Given(ops, id))
    {
      ConnectionIsFreshIff(ops, id);
    }
    assert s.conns.Keys == Reindex(s.tables).Keys;
    if s.conns == Reindex(s.tables) {
      forall id | id in s.conns ensures DroppedFor(s, id) == {} && StoresAll(Given(ops, id)) {
        assert s.conns[id] == Reindex(s.tables)[id];
      }
    }
  }

  /** An empty list stays in memory and is gone after a restart; so is the password slot in the configuration object. */
  lemma EmptyListForgotten(settings: string, slot: string)
    ensures var s := Run([OUpsert(Config("c", settings, Some(slot), None, Some([])))]);
            && "c" in s.conns && s.conns["c"].allowed == Some([]) && s.conns["c"].givenSlot == Some(slot)
            && "c" in Restart(s).conns && Restart(s).conns["c"].allowed == None && Restart(s).conns["c"].givenSlot == None
            && s.conns["c"].passwordSlot == Restart(s).conns["c"].passwordSlot == Some(slot)
  {
    var ops := [OUpsert(Config("c", settings, Some(slot), None, Some([])))];
    assert ops[..|ops| - 1] == [] && Run([]) == Empty();
  }

  /** The schemas have names that are new and distinct, and each can be stored. */
  ghost predicate Storable(into: map<string, Schema>, inputs: seq<SchemaInput>, at: nat) {
    && (forall i | 0 <= i < |inputs| :: inputs[i].name !in into && StoredSchema(inputs[i], at).Some?)
    && (forall i, j | 0 <= i < j < |inputs| :: inputs[i].name != inputs[j].name)
  }

  /** `r` holds what `into` held and the given schemas, and nothing else. */
  ghost predicate Stores(into: map<string, Schema>, inputs: seq<SchemaInput>, at: nat, r: map<string, Schema>) {
    && (forall n | n in into :: n in r && r[n] == into[n])
    && (forall i | 0 <= i < |inputs| :: inputs[i].name in r && Some(r[inputs[i].name]) == StoredSchema(inputs[i], at))
    && (forall n | n in r :: n in into || exists i :: 0 <= i < |inputs| && inputs[i].name == n)
  }

  lemma StorableStep(into: map<string, Schema>, inputs: seq<SchemaInput>, at: nat)
    requires inputs != [] && inputs[0].name !in into && StoredSchema(inputs[0], at).Some?
    ensures Storable(into, inputs, at)
            <==> Storable(into[inputs[0].name := StoredSchema(inputs[0], at).value], inputs[1..], at)
  {
    hide StoredSchema;
    var rest := inputs[1..];
    assert forall i | 0 < i < |inputs| :: inputs[i] == rest[i - 1];
    assert forall i | 0 <= i < |rest| :: rest[i] == inputs[i + 1];
  }

  lemma StoresStep(into: map<string, Schema>, inputs: seq<SchemaInput>, at: nat, r: map<string, Schema>)
    requires inputs != [] && inputs[0].name !in into && StoredSchema(inputs[0], at).Some?
    requires Stores(into[inputs[0].name := StoredSchema(inputs[0], at).value], inputs[1..], at, r)
    ensures Stores(into, inputs, at, r)
  {
    hide StoredSchema;
    var more := into[inputs[0].name := StoredSchema(inputs[0], at).value];
    assert forall i | 0 < i < |inputs| :: inputs[i] == inputs[1..][i - 1];
    assert inputs[0].name in more;
    forall n | n in into ensures n in r && r[n] == into[n] { assert n in more && more[n] == into[n]; }
    forall n | n in r ensures n in into || exists i :: 0 <= i < |inputs| && inputs[i].name == n {
      if n !in into && n != inputs[0].name {
        var i :| 0 <= i < |inputs[1..]| && inputs[1..][i].name == n;
        assert inputs[i + 1].name == n;
      }
    }
  }

  /** What an accepted ingest stores: exactly the given schemas, under distinct names. */
  lemma {:induction false} IngestStores(into: map<string, Schema>, inputs: seq<SchemaInput>, at: nat)
    ensures InsertSchemas(into, inputs, at).Some? <==> Storable(into, inputs, at)
    ensures InsertSchemas(into, inputs, at).Some? ==> Stores(into, inputs, at, InsertSchemas(into, inputs, at).value)
    decreases |inputs|
  {
    hide StoredSchema; hide Stores;
    if inputs == [] {
      NothingStored(into, at);
    } else if inputs[0].name !in into && StoredSchema(inputs[0], at).Some? {
      var more := into[inputs[0].name := StoredSchema(inputs[0], at).value];
      IngestStores(more, inputs[1..], at);
      StorableStep(into, inputs, at);
      if InsertSchemas(into, inputs, at).Some? { StoresStep(into, inputs, at, InsertSchemas(into, inputs, at).value); }
    }
  }

  lemma NothingStored(into: map<string, Schema>, at: nat)
    ensures Storable(into, [], at) && Stores(into, [], at, into)
  {
  }

  /** An ingest that leaves a schema out makes memory list a schema the tables no longer have. */
  lemma DroppedSchemaLingers(row: Row, old': Schema, at: nat)
    ensures var t := Tables(map[], map["c" := row], map["c" := map["a" := old']]);
            var s := Restart(State(t, map[], map[]));
            var r := Ingest(s, "c", [], at).0;
            "a" in r.conns["c"].schemas && r.tables.schemas["c"] == map[]
  {
  }
}
