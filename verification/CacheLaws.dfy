/** What each cache operation takes and what it leaves, field by field; and which introspection results an ingest takes. */
module CacheLaws {
  import opened Values
  import opened Cache
  import opened CacheAgreement

  predicate GoodKind(r: Relation) { r.kind == "table" || r.kind == "view" }

  predicate GoodRelations(rs: seq<Relation>) {
    && (forall i | 0 <= i < |rs| :: GoodKind(rs[i]))
    && forall i, j | 0 <= i < j < |rs| :: rs[i].name != rs[j].name
  }

  predicate GoodFunctions(fs: seq<FunctionDef>) { forall i, j | 0 <= i < j < |fs| :: fs[i].name != fs[j].name }

  /** Tables and views under distinct names, and functions under distinct names. */
  predicate GoodSchema(input: SchemaInput) { GoodRelations(input.relations) && GoodFunctions(input.functions) }

  predicate GoodSchemas(inputs: seq<SchemaInput>) {
    && (forall i | 0 <= i < |inputs| :: GoodSchema(inputs[i]))
    && forall i, j | 0 <= i < j < |inputs| :: inputs[i].name != inputs[j].name
  }

  ghost predicate ListsRelations(m: map<string, Relation>, rs: seq<Relation>) {
    && (forall i | 0 <= i < |rs| :: rs[i].name in m && m[rs[i].name] == rs[i])
    && (forall n | n in m :: exists i :: 0 <= i < |rs| && rs[i].name == n)
  }

  ghost predicate ListsFunctions(m: map<string, FunctionDef>, fs: seq<FunctionDef>) {
    && (forall i | 0 <= i < |fs| :: fs[i].name in m && m[fs[i].name] == fs[i])
    && (forall n | n in m :: exists i :: 0 <= i < |fs| && fs[i].name == n)
  }

  /** Exactly the relations and functions of the input, with its time. */
  ghost predicate ListsSchema(s: Schema, input: SchemaInput, at: nat) {
    ListsRelations(s.relations, input.relations) && ListsFunctions(s.functions, input.functions) && s.syncedAt == at
  }

  ghost predicate ListsSchemas(m: map<string, Schema>, inputs: seq<SchemaInput>, at: nat) {
    && (forall i | 0 <= i < |inputs| :: inputs[i].name in m && ListsSchema(m[inputs[i].name], inputs[i], at))
    && (forall n | n in m :: exists i :: 0 <= i < |inputs| && inputs[i].name == n)
  }

  // ----- rows -----

  lemma {:induction false} RelationsIff(into: map<string, Relation>, rs: seq<Relation>)
    ensures InsertRelations(into, rs).Some? <==> GoodRelations(rs) && forall i | 0 <= i < |rs| :: rs[i].name !in into
    decreases |rs|
  {
    if rs != [] && rs[0].name !in into && GoodKind(rs[0]) {
      var more, rest := into[rs[0].name := rs[0]], rs[1..];
      RelationsIff(more, rest);
      assert forall i | 0 < i < |rs| :: rs[i] == rest[i - 1];
      assert forall i | 0 <= i < |rest| :: rest[i] == rs[i + 1];
    }
  }

  ghost predicate AddsRelations(into: map<string, Relation>, rs: seq<Relation>, m: map<string, Relation>) {
    && (forall n | n in into :: n in m && m[n] == into[n])
    && (forall i | 0 <= i < |rs| :: rs[i].name in m && m[rs[i].name] == rs[i])
    && (forall n | n in m && n !in into :: exists i :: 0 <= i < |rs| && rs[i].name == n)
  }

  lemma {:induction false} RelationsIn(into: map<string, Relation>, rs: seq<Relation>)
    requires InsertRelations(into, rs).Some?
    ensures AddsRelations(into, rs, InsertRelations(into, rs).value)
    decreases |rs|
  {
    hide AddsRelations;
    if rs == [] {
      AddsRelationsNothing(into);
    } else {
      RelationsIn(into[rs[0].name := rs[0]], rs[1..]);
      AddsRelationsStep(into, rs, InsertRelations(into, rs).value);
    }
  }

  lemma AddsRelationsNothing(into: map<string, Relation>)
    ensures AddsRelations(into, [], into)
  {
  }

  lemma AddsRelationsStep(into: map<string, Relation>, rs: seq<Relation>, m: map<string, Relation>)
    requires rs != [] && rs[0].name !in into && AddsRelations(into[rs[0].name := rs[0]], rs[1..], m)
    ensures AddsRelations(into, rs, m)
  {
    var more, rest := into[rs[0].name := rs[0]], rs[1..];
    assert rs[0].name in more;
    forall n | n in into ensures n in m && m[n] == into[n] { assert n in more && more[n] == into[n]; }
    forall i | 0 <= i < |rs| ensures rs[i].name in m && m[rs[i].name] == rs[i] { if i > 0 { assert rs[i] == rest[i - 1]; } }
    forall n | n in m && n !in into ensures exists i :: 0 <= i < |rs| && rs[i].name == n {
      if n !in more { var i :| 0 <= i < |rest| && rest[i].name == n; assert rs[i + 1].name == n; }
    }
  }

  lemma {:induction false} FunctionsIff(into: map<string, FunctionDef>, fs: seq<FunctionDef>)
    ensures InsertFunctions(into, fs).Some? <==> GoodFunctions(fs) && forall i | 0 <= i < |fs| :: fs[i].name !in into
    decreases |fs|
  {
    if fs != [] && fs[0].name !in into {
      var more, rest := into[fs[0].name := fs[0]], fs[1..];
      FunctionsIff(more, rest);
      assert forall i | 0 < i < |fs| :: fs[i] == rest[i - 1];
      assert forall i | 0 <= i < |rest| :: rest[i] == fs[i + 1];
    }
  }

  ghost predicate AddsFunctions(into: map<string, FunctionDef>, fs: seq<FunctionDef>, m: map<string, FunctionDef>) {
    && (forall n | n in into :: n in m && m[n] == into[n])
    && (forall i | 0 <= i < |fs| :: fs[i].name in m && m[fs[i].name] == fs[i])
    && (forall n | n in m && n !in into :: exists i :: 0 <= i < |fs| && fs[i].name == n)
  }

  lemma {:induction false} FunctionsIn(into: map<string, FunctionDef>, fs: seq<FunctionDef>)
    requires InsertFunctions(into, fs).Some?
    ensures AddsFunctions(into, fs, InsertFunctions(into, fs).value)
    decreases |fs|
  {
    hide AddsFunctions;
    if fs == [] {
      AddsFunctionsNothing(into);
    } else {
      FunctionsIn(into[fs[0].name := fs[0]], fs[1..]);
      AddsFunctionsStep(into, fs, InsertFunctions(into, fs).value);
    }
  }

  lemma AddsFunctionsNothing(into: map<string, FunctionDef>)
    ensures AddsFunctions(into, [], into)
  {
  }

  lemma AddsFunctionsStep(into: map<string, FunctionDef>, fs: seq<FunctionDef>, m: map<string, FunctionDef>)
    requires fs != [] && fs[0].name !in into && AddsFunctions(into[fs[0].name := fs[0]], fs[1..], m)
    ensures AddsFunctions(into, fs, m)
  {
    var more, rest := into[fs[0].name := fs[0]], fs[1..];
    assert fs[0].name in more;
    forall n | n in into ensures n in m && m[n] == into[n] { assert n in more && more[n] == into[n]; }
    forall i | 0 <= i < |fs| ensures fs[i].name in m && m[fs[i].name] == fs[i] { if i > 0 { assert fs[i] == rest[i - 1]; } }
    forall n | n in m && n !in into ensures exists i :: 0 <= i < |fs| && fs[i].name == n {
      if n !in more { var i :| 0 <= i < |rest| && rest[i].name == n; assert fs[i + 1].name == n; }
    }
  }

  /** A schema is stored exactly when it is good, and then with all its rows and no others. */
  lemma SchemaIff(input: SchemaInput, at: nat)
    ensures StoredSchema(input, at).Some? <==> GoodSchema(input)
    ensures StoredSchema(input, at).Some? ==> ListsSchema(StoredSchema(input, at).value, input, at)
  {
    RelationsIff(map[], input.relations);
    FunctionsIff(map[], input.functions);
    if StoredSchema(input, at).Some? {
      RelationsIn(map[], input.relations);
      FunctionsIn(map[], input.functions);
    }
  }

  lemma SchemasIff(inputs: seq<SchemaInput>, at: nat)
    ensures InsertSchemas(map[], inputs, at).Some? <==> GoodSchemas(inputs)
    ensures InsertSchemas(map[], inputs, at).Some? ==> ListsSchemas(InsertSchemas(map[], inputs, at).value, inputs, at)
  {
    hide GoodSchema; hide ListsSchema; hide StoredSchema; hide InsertSchemas;
    IngestStores(map[], inputs, at);
    forall i | 0 <= i < |inputs|
      ensures StoredSchema(inputs[i], at).Some? <==> GoodSchema(inputs[i])
      ensures StoredSchema(inputs[i], at).Some? ==> ListsSchema(StoredSchema(inputs[i], at).value, inputs[i], at)
    {
      SchemaIff(inputs[i], at);
    }
  }

  // ----- the operation -----

  /** An ingest for a known connection is taken exactly when its schemas are good ones under distinct names. */
  lemma IngestIff(s: State, id: string, inputs: seq<SchemaInput>, at: nat)
    ensures Ingest(s, id, inputs, at).1 <==> if id in s.tables.connections then GoodSchemas(inputs) else inputs == []
    ensures !Ingest(s, id, inputs, at).1 ==> Ingest(s, id, inputs, at).0 == s
  {
    hide InsertSchemas; hide GoodSchemas;
    SchemasIff(inputs, at);
  }

  /** The tables then hold those schemas and no others, memory lists each of them so, and no other connection changes. */
  lemma IngestLists(s: State, id: string, inputs: seq<SchemaInput>, at: nat)
    requires Inv(s) && id in s.conns && Ingest(s, id, inputs, at).1
    ensures var r := Ingest(s, id, inputs, at).0;
            && id in r.tables.schemas && ListsSchemas(r.tables.schemas[id], inputs, at)
            && id in r.conns && r.conns[id].syncedAt == Some(at)
            && (forall i | 0 <= i < |inputs| ::
                  inputs[i].name in r.conns[id].schemas && ListsSchema(r.conns[id].schemas[inputs[i].name], inputs[i], at))
            && r.tables.groups == s.tables.groups && r.conns - {id} == s.conns - {id}
            && r.tables.schemas - {id} == s.tables.schemas - {id} && r.tables.connections - {id} == s.tables.connections - {id}
  {
    hide InsertSchemas; hide ListsSchema; hide Agrees; hide GoodSchemas;
    SchemasIff(inputs, at);
    assert id in s.tables.connections;
  }

  // ----- connections -----

  /** Only what concerns connection `id` differs. */
  ghost predicate SameElsewhere(s: State, r: State, id: string) {
    && r.tables.groups == s.tables.groups && r.conns - {id} == s.conns - {id}
    && r.tables.connections - {id} == s.tables.connections - {id} && r.tables.schemas - {id} == s.tables.schemas - {id}
  }

  /** A connection is taken if it is known, or has no group, or an existing one. */
  lemma UpsertIff(s: State, c: Config)
    ensures Upsert(s, c).1 <==> c.id in s.tables.connections || c.groupId == None || c.groupId.value in s.tables.groups
    ensures !Upsert(s, c).1 ==> Upsert(s, c).0 == s
  {
  }

  /** A new connection is stored as given; an empty list of schemas is stored as none. */
  lemma UpsertStoresNew(s: State, c: Config)
    requires Inv(s) && c.id !in s.conns && Upsert(s, c).1
    ensures var r := Upsert(s, c).0;
            && c.id in r.tables.connections && c.id in r.tables.schemas && c.id in r.conns && SameElsewhere(s, r, c.id)
            && r.tables.connections[c.id] == Row(c.settings, c.passwordSlot, None, c.groupId, if c.allowed == Some([]) then None else c.allowed)
            && r.tables.schemas[c.id] == map[]
            && r.conns[c.id] == Mem(c.settings, c.passwordSlot, None, c.groupId, c.allowed, c.passwordSlot, map[])
  {
    hide Agrees;
  }

  /** A known one keeps its group, its sync time, its schemas, and the password slot when none is given. */
  lemma UpsertUpdates(s: State, c: Config)
    requires Inv(s) && c.id in s.conns
    ensures var r := Upsert(s, c).0;
            && Upsert(s, c).1 && c.id in r.tables.connections && c.id in r.conns && SameElsewhere(s, r, c.id)
            && r.tables.schemas == s.tables.schemas
            && r.tables.connections[c.id] == Row(c.settings, if c.passwordSlot.Some? then c.passwordSlot else s.tables.connections[c.id].passwordSlot,
                                                 s.tables.connections[c.id].syncedAt, s.tables.connections[c.id].groupId,
                                                 if c.allowed == Some([]) then None else c.allowed)
            && r.conns[c.id] == Mem(c.settings, if c.passwordSlot.Some? then c.passwordSlot else s.conns[c.id].passwordSlot,
                                    s.conns[c.id].syncedAt, s.conns[c.id].groupId, c.allowed, c.passwordSlot, s.conns[c.id].schemas)
  {
    assert Agrees(s.conns[c.id], s.tables.connections[c.id], s.tables.schemas[c.id], s.dropped[c.id]);
    assert s.conns[c.id].schemas + s.tables.schemas[c.id] == s.conns[c.id].schemas;
  }

  lemma RemoveForgets(s: State, id: string)
    ensures var r := Remove(s, id);
            && id !in r.tables.connections && id !in r.tables.schemas && id !in r.conns && SameElsewhere(s, r, id)
  {
  }

  /** A move is taken for a known connection and no group or an existing one; memory and row then have that group. */
  lemma MoveIff(s: State, id: string, group: Option<string>)
    requires Inv(s)
    ensures Move(s, id, group).1 <==> id in s.conns && (group.Some? ==> group.value in s.tables.groups)
    ensures var r := Move(s, id, group).0;
            if Move(s, id, group).1 then
              && SameElsewhere(s, r, id) && r.tables.schemas == s.tables.schemas
              && id in r.conns && r.conns[id] == s.conns[id].(groupId := group)
              && id in r.tables.connections && r.tables.connections[id] == s.tables.connections[id].(groupId := group)
            else r == s
  {
    hide Agrees;
  }

  // ----- groups -----

  lemma GroupsNamed(s: State, id: string, name: string)
    ensures CreateGroup(s, id, name).1 <==> id !in s.tables.groups
    ensures RenameGroup(s, id, name).1 <==> id in s.tables.groups
    ensures forall t | t == CreateGroup(s, id, name) || t == RenameGroup(s, id, name) ::
              t.0 == if t.1 then s.(tables := s.tables.(groups := s.tables.groups[id := name])) else s
  {
  }

  /** The group goes, its connections stay without one, and the others keep theirs. */
  lemma DeleteGroupUngroups(s: State, id: string)
    ensures var r := DeleteGroup(s, id);
            && id !in r.tables.groups && r.tables.groups == s.tables.groups - {id} && r.tables.schemas == s.tables.schemas
            && r.conns.Keys == s.conns.Keys && r.tables.connections.Keys == s.tables.connections.Keys
            && (forall c | c in s.conns ::
                  r.conns[c] == s.conns[c].(groupId := if s.conns[c].groupId == Some(id) then None else s.conns[c].groupId))
            && (forall c | c in s.tables.connections ::
                  var row := s.tables.connections[c];
                  r.tables.connections[c] == row.(groupId := if row.groupId == Some(id) then None else row.groupId))
  {
  }

  /** A restart lists every stored connection with exactly its stored schemas, and changes no table. */
  lemma RestartReads(s: State, id: string)
    requires Inv(s) && id in s.tables.connections
    ensures var r, row := Restart(s), s.tables.connections[id];
            && r.tables == s.tables && r.conns.Keys == s.tables.connections.Keys
            && r.conns[id] == Mem(row.settings, row.passwordSlot, row.syncedAt, row.groupId, row.allowed, None, s.tables.schemas[id])
  {
    hide Agrees;
    assert map[] + s.tables.schemas[id] == s.tables.schemas[id];
  }
}
