/** The cache as an object: its tables and its index are fields that every operation moves as the step of the same name. */
module CacheObject {
  import opened Values
  import opened Cache
  import opened CacheAgreement

  class MetadataCache {
    var groups: map<string, string>
    var connections: map<string, Row>
    var schemas: map<string, map<string, Schema>>
    var conns: map<string, Mem>
    ghost var dropped: map<string, set<string>>

    ghost function View(): State
      reads this
    {
      State(Tables(groups, connections, schemas), conns, dropped)
    }

    ghost predicate Valid()
      reads this
    {
      Inv(View())
    }

    /** Opening existing tables builds the index from them. */
    constructor (t: Tables)
      requires t.connections.Keys == t.schemas.Keys
      requires forall id | id in t.connections && t.connections[id].groupId.Some? :: t.connections[id].groupId.value in t.groups
      requires forall id | id in t.connections :: t.connections[id].allowed != Some([])
      ensures View() == Restart(State(t, map[], map[])) && Valid()
    {
      groups, connections, schemas := t.groups, t.connections, t.schemas;
      conns, dropped := map[], map id | id in t.connections :: {};
      new;
      LoadAll();
      OpenedAgrees(t);
    }

    method LoadAll()
      requires conns == map[]
      modifies `conns
      ensures conns == Reindex(Tables(groups, connections, schemas))
    {
      hide Loaded;
      ghost var t := Tables(groups, connections, schemas);
      var todo := connections.Keys;
      while todo != {}
        invariant todo <= connections.Keys && conns.Keys == connections.Keys - todo
        invariant forall id | id in conns :: conns[id] == Loaded(connections[id], StoredFor(t, id))
        decreases todo
      {
        var id :| id in todo;
        todo := todo - {id};
        var row := connections[id];
        var m := LoadSchemas(Mem(row.settings, row.passwordSlot, row.syncedAt, row.groupId, row.allowed, None, map[]), id);
        LoadedIs(row, StoredFor(t, id));
        conns := conns[id := m];
      }
      assert conns.Keys == Reindex(t).Keys;
    }

    /** The loop over the connection's stored schemas. */
    method LoadSchemas(m: Mem, id: string) returns (r: Mem)
      ensures r == ReloadSchemas(m, StoredFor(Tables(groups, connections, schemas), id))
    {
      var stored := if id in schemas then schemas[id] else map[];
      r := m;
      var todo := stored.Keys;
      while todo != {}
        invariant todo <= stored.Keys && r == m.(schemas := r.schemas)
        invariant r.schemas.Keys == m.schemas.Keys + (stored.Keys - todo)
        invariant forall n | n in r.schemas :: r.schemas[n] == if n in stored && n !in todo then stored[n] else m.schemas[n]
        decreases todo
      {
        var n :| n in todo;
        todo := todo - {n};
        r := r.(schemas := r.schemas[n := stored[n]]);
      }
      assert r.schemas == m.schemas + stored;
    }

    method UpsertConnection(c: Config) returns (ok: bool)
      requires Valid()
      modifies this
      ensures (View(), ok) == Upsert(old(View()), c) && Valid()
    {
      hide Inv;
      UpsertKeeps(View(), c);
      if c.id in connections {
        var row := connections[c.id];
        connections := connections[c.id := row.(settings := c.settings, passwordSlot := OrElse(c.passwordSlot, row.passwordSlot),
                                               allowed := StoredList(c.allowed))];
      } else {
        if c.groupId.Some? && c.groupId.value !in groups { return false; }
        connections := connections[c.id := Row(c.settings, c.passwordSlot, None, c.groupId, StoredList(c.allowed))];
        schemas := schemas[c.id := map[]];
      }
      var m: Mem;
      if c.id in conns {
        var existing := conns[c.id];
        m := Mem(c.settings, OrElse(c.passwordSlot, existing.passwordSlot), existing.syncedAt, existing.groupId, c.allowed,
                 c.passwordSlot, existing.schemas);
      } else {
        m := Mem(c.settings, OrElse(c.passwordSlot, None), None, c.groupId, c.allowed, c.passwordSlot, map[]);
      }
      m := LoadSchemas(m, c.id);
      conns := conns[c.id := m];
      dropped := if c.id in dropped then dropped else dropped[c.id := {}];
      return true;
    }

    method RemoveConnection(id: string)
      requires Valid()
      modifies this
      ensures View() == Remove(old(View()), id) && Valid()
    {
      hide Inv;
      RemoveKeeps(View(), id);
      connections, schemas := connections - {id}, schemas - {id};
      conns, dropped := conns - {id}, dropped - {id};
    }

    /** Delete the group, clear it from the rows, then from every connection in memory. */
    method DeleteConnectionGroup(id: string)
      requires Valid()
      modifies this
      ensures View() == DeleteGroup(old(View()), id) && Valid()
    {
      hide Inv; hide MemUngrouped; hide Ungrouped;
      DeleteGroupKeeps(View(), id);
      groups := groups - {id};
      connections := map c | c in connections :: Ungrouped(connections[c], id);
      ghost var t := Tables(groups, connections, schemas);
      var todo := conns.Keys;
      while todo != {}
        invariant Tables(groups, connections, schemas) == t && dropped == old(dropped)
        invariant todo <= conns.Keys == old(conns).Keys
        invariant forall c | c in conns :: conns[c] == if c in todo then old(conns)[c] else MemUngrouped(old(conns)[c], id)
        decreases todo
      {
        var c :| c in todo;
        todo := todo - {c};
        conns := conns[c := MemUngrouped(conns[c], id)];
      }
      assert conns == DeleteGroup(old(View()), id).conns;
    }

    method MoveConnection(id: string, group: Option<string>) returns (ok: bool)
      requires Valid()
      modifies this
      ensures (View(), ok) == Move(old(View()), id, group) && Valid()
    {
      hide Inv;
      MoveKeeps(View(), id, group);
      if id !in conns { return false; }
      if group.Some? && group.value !in groups { return false; }
      if id in connections { connections := connections[id := connections[id].(groupId := group)]; }
      conns := conns[id := conns[id].(groupId := group)];
      return true;
    }

    /**
     * Replace the connection's schemas row by row, then load them; the first refused row puts the tables back as they were at
     * the start of the transaction.
     */
    method IngestIntrospection(id: string, inputs: seq<SchemaInput>, at: nat) returns (ok: bool)
      requires Valid()
      modifies this
      ensures (View(), ok) == Ingest(old(View()), id, inputs, at) && Valid()
      ensures !ok ==> View() == old(View())
    {
      hide Inv; hide InsertSchemas; hide StoredSchema;
      IngestKeeps(View(), id, inputs, at);
      if id !in connections {
        if inputs != [] { return false; }
        DanglingIngest(View(), id, at);
        return true;
      }
      KnownSchemas(View(), id);
      var began := schemas;
      schemas := schemas[id := map[]];
      var stored := WriteSchemas(id, inputs, at);
      if !stored {
        schemas := began;
        return false;
      }
      assert schemas == began[id := InsertSchemas(map[], inputs, at).value];
      connections := connections[id := connections[id].(syncedAt := Some(at))];
      if id !in conns { return true; }
      var m := LoadSchemas(conns[id].(syncedAt := Some(at)), id);
      conns := conns[id := m];
      dropped := dropped[id := (DroppedFor(old(View()), id) + StoredFor(old(View()).tables, id).Keys) - schemas[id].Keys];
      return true;
    }

    /** The insertion loops of the transaction; when a row is refused, the rows before it have been written. */
    method WriteSchemas(id: string, inputs: seq<SchemaInput>, at: nat) returns (ok: bool)
      requires id in schemas
      modifies `schemas
      ensures ok <==> InsertSchemas(old(schemas)[id], inputs, at).Some?
      ensures ok ==> schemas == old(schemas)[id := InsertSchemas(old(schemas)[id], inputs, at).value]
    {
      hide StoredSchema;
      assert inputs[0..] == inputs;
      for i := 0 to |inputs|
        invariant id in schemas && schemas == old(schemas)[id := schemas[id]]
        invariant InsertSchemas(schemas[id], inputs[i..], at) == InsertSchemas(old(schemas)[id], inputs, at)
      {
        assert inputs[i..][1..] == inputs[i + 1..];
        var written := WriteSchema(id, inputs[i], at);
        if !written { return false; }
      }
      assert inputs[|inputs|..] == [];
      return true;
    }

    /** One schema: its row, then its relations, then its functions. */
    method WriteSchema(id: string, input: SchemaInput, at: nat) returns (ok: bool)
      requires id in schemas
      modifies `schemas
      ensures ok <==> input.name !in old(schemas)[id] && StoredSchema(input, at).Some?
      ensures ok ==> schemas == old(schemas)[id := old(schemas)[id][input.name := StoredSchema(input, at).value]]
    {
      var before := schemas[id];
      if input.name in before { return false; }
      schemas := schemas[id := before[input.name := Schema(map[], map[], at)]];
      var rs: map<string, Relation> := map[];
      assert input.relations[0..] == input.relations;
      for i := 0 to |input.relations|
        invariant schemas == old(schemas)[id := before[input.name := Schema(rs, map[], at)]]
        invariant InsertRelations(rs, input.relations[i..]) == InsertRelations(map[], input.relations)
      {
        var x := input.relations[i];
        assert input.relations[i..][1..] == input.relations[i + 1..];
        if x.name in rs || (x.kind != "table" && x.kind != "view") { return false; }
        rs := rs[x.name := x];
        schemas := schemas[id := before[input.name := Schema(rs, map[], at)]];
      }
      var fs: map<string, FunctionDef> := map[];
      assert input.functions[0..] == input.functions;
      for i := 0 to |input.functions|
        invariant schemas == old(schemas)[id := before[input.name := Schema(rs, fs, at)]]
        invariant InsertFunctions(fs, input.functions[i..]) == InsertFunctions(map[], input.functions)
      {
        var x := input.functions[i];
        assert input.functions[i..][1..] == input.functions[i + 1..];
        if x.name in fs { return false; }
        fs := fs[x.name := x];
        schemas := schemas[id := before[input.name := Schema(rs, fs, at)]];
      }
      return true;
    }
  }

  lemma KnownSchemas(s: State, id: string)
    requires Inv(s) && id in s.tables.connections
    ensures id in s.tables.schemas
  {
  }

  lemma LoadedIs(row: Row, stored: map<string, Schema>)
    ensures Loaded(row, stored) == ReloadSchemas(Mem(row.settings, row.passwordSlot, row.syncedAt, row.groupId, row.allowed, None, map[]), stored)
  {
  }

  lemma OpenedAgrees(t: Tables)
    requires t.connections.Keys == t.schemas.Keys
    requires forall id | id in t.connections && t.connections[id].groupId.Some? :: t.connections[id].groupId.value in t.groups
    requires forall id | id in t.connections :: t.connections[id].allowed != Some([])
    ensures Inv(Restart(State(t, map[], map[])))
  {
    hide Agrees;
    var s := Restart(State(t, map[], map[]));
    forall id | id in s.conns ensures Agrees(s.conns[id], t.connections[id], t.schemas[id], s.dropped[id]) {
      LoadedAgrees(t.connections[id], t.schemas[id]);
    }
  }

  /** An empty ingest for an unknown connection is accepted and stores nothing. */
  lemma DanglingIngest(s: State, id: string, at: nat)
    requires Inv(s) && id !in s.tables.connections
    ensures Ingest(s, id, [], at) == (s, true)
  {
  }
}
