/** Inferring a nested column type from sampled documents: what it returns fits every value it was inferred from. */
module SchemaShape {
  import opened Values

  /** The scalar classes the inference tells apart. */
  datatype Scalar = DateTime | ObjectIdOrDecimal | BsonTimestamp | Int64 | Float64 | Text | Boolean | SafeInteger | OtherNumber | OtherObject

  datatype Value = Missing | NullValue | Atom(kind: Scalar) | List(items: seq<Value>) | Doc(fields: seq<(string, Value)>)

  datatype Shape = Leaf(name: string) | ListOf(item: Shape) | Struct(columns: seq<(string, Shape)>)

  const JSON: Shape := Leaf("JSON")
  const MAX_DEPTH: nat := 32

  predicate IsPresent(v: Value) { !v.Missing? && !v.NullValue? }

  function TypeName(v: Value): string {
    match v
    case Atom(kind) =>
      (match kind
       case DateTime => "TIMESTAMP"
       case ObjectIdOrDecimal => "VARCHAR"
       case BsonTimestamp => "JSON"
       case Int64 => "BIGINT"
       case Float64 => "DOUBLE"
       case Text => "VARCHAR"
       case Boolean => "BOOLEAN"
       case SafeInteger => "BIGINT"
       case OtherNumber => "DOUBLE"
       case OtherObject => "JSON")
    case _ => "JSON"
  }

  /** A property of an object; what is not there is missing. */
  function Lookup(fields: seq<(string, Value)>, name: string): (v: Value)
    ensures v.Missing? || exists i | 0 <= i < |fields| :: fields[i] == (name, v)
  {
    if fields == [] then Missing else if fields[0].0 == name then fields[0].1 else Lookup(fields[1..], name)
  }

  /** A key reads as the value the object has under it. */
  lemma {:induction false} LookupReads(fields: seq<(string, Value)>, i: nat)
    requires i < |fields| && forall j | 0 <= j < i :: fields[j].0 != fields[i].0
    ensures Lookup(fields, fields[i].0) == fields[i].1
  {
    if i > 0 { LookupReads(fields[1..], i - 1); }
  }

  lemma LookupMisses(fields: seq<(string, Value)>, name: string)
    requires forall j | 0 <= j < |fields| :: fields[j].0 != name
    ensures Lookup(fields, name) == Missing
  {
  }

  // ----- lists of values -----

  function Present(vs: seq<Value>): (r: seq<Value>)
    ensures forall v :: v in r <==> v in vs && IsPresent(v)
  {
    if vs == [] then [] else (if IsPresent(vs[0]) then [vs[0]] else []) + Present(vs[1..])
  }

  predicate AllLists(vs: seq<Value>) { forall i | 0 <= i < |vs| :: vs[i].List? }

  predicate AllDocs(vs: seq<Value>) { forall i | 0 <= i < |vs| :: vs[i].Doc? }

  function Lists(vs: seq<Value>): (r: seq<Value>)
    ensures AllLists(r) && forall v :: v in r <==> v in vs && v.List?
  {
    if vs == [] then [] else (if vs[0].List? then [vs[0]] else []) + Lists(vs[1..])
  }

  function Docs(vs: seq<Value>): (r: seq<Value>)
    ensures AllDocs(r) && forall v :: v in r <==> v in vs && v.Doc?
  {
    if vs == [] then [] else (if vs[0].Doc? then [vs[0]] else []) + Docs(vs[1..])
  }

  function Flat(vs: seq<Value>): (r: seq<Value>)
    requires AllLists(vs)
    ensures forall x :: x in r <==> exists i | 0 <= i < |vs| :: x in vs[i].items
  {
    if vs == [] then [] else vs[0].items + Flat(vs[1..])
  }

  function Column(vs: seq<Value>, name: string): (r: seq<Value>)
    requires AllDocs(vs)
    ensures |r| == |vs| && forall i | 0 <= i < |vs| :: r[i] == Lookup(vs[i].fields, name)
  {
    seq(|vs|, i requires 0 <= i < |vs| => Lookup(vs[i].fields, name))
  }

  function Keys(fields: seq<(string, Value)>): (r: seq<string>)
    ensures |r| == |fields| && forall i | 0 <= i < |r| :: r[i] == fields[i].0
  {
    seq(|fields|, i requires 0 <= i < |fields| => fields[i].0)
  }

  /** The distinct names, in order of first appearance after those in `seen`. */
  function Distinct(names: seq<string>, seen: seq<string>): (r: seq<string>)
    ensures forall n :: n in r <==> n in names || n in seen
  {
    if names == [] then seen else Distinct(names[1..], if names[0] in seen then seen else seen + [names[0]])
  }

  function AllKeys(vs: seq<Value>): (r: seq<string>)
    requires AllDocs(vs)
    ensures forall n :: n in r <==> exists i | 0 <= i < |vs| :: n in Keys(vs[i].fields)
  {
    if vs == [] then [] else Keys(vs[0].fields) + AllKeys(vs[1..])
  }

  function SameType(vs: seq<Value>): Shape
    requires vs != []
  {
    if forall i | 0 <= i < |vs| :: TypeName(vs[i]) == TypeName(vs[0]) then Leaf(TypeName(vs[0])) else JSON
  }

  // ----- the inference -----

  predicate AnyPresent(vs: seq<Value>) { exists i | 0 <= i < |vs| :: IsPresent(vs[i]) }

  /** None when the values nest too deep. Terminates: deeper, or at the same depth without samples left. */
  function Infer(values: seq<Value>, depth: nat, samples: seq<Value>): Option<Shape>
    decreases MAX_DEPTH + 1 - depth, 1, if AnyPresent(samples) then 1 else 0
  {
    if depth > MAX_DEPTH then None
    else
      var present := Present(values);
      if present == [] then (if AnyPresent(samples) then Infer(samples, depth, []) else Some(JSON))
      else if AllLists(present) then
        var item := Infer(Flat(present), depth + 1, Flat(Lists(samples)));
        if item.Some? then Some(ListOf(item.value)) else None
      else if AllDocs(present) then
        var docs := Docs(samples);
        var names := Distinct(AllKeys(present + docs), []);
        if names == [] then Some(JSON)
        else
          var columns := InferColumns(present, depth, docs, names);
          if columns.Some? then Some(Struct(columns.value)) else None
      else Some(SameType(present))
  }

  function InferColumns(docs: seq<Value>, depth: nat, samples: seq<Value>, names: seq<string>): (r: Option<seq<(string, Shape)>>)
    requires AllDocs(docs) && AllDocs(samples) && depth <= MAX_DEPTH
    ensures r.Some? ==> |r.value| == |names| && forall i | 0 <= i < |names| :: r.value[i].0 == names[i]
    decreases MAX_DEPTH + 1 - depth, 0, |names|
  {
    if names == [] then Some([])
    else
      var first := Infer(Column(docs, names[0]), depth + 1, Column(samples, names[0]));
      var rest := InferColumns(docs, depth, samples, names[1..]);
      if first.Some? && rest.Some? then Some([(names[0], first.value)] + rest.value) else None
  }

  // ----- documents -----

  /** The columns of a snapshot: the requested fields, then every field observed; samples stand in when there are no documents. */
  function Snapshot(documents: seq<Value>, samples: seq<Value>, fields: seq<string>): Option<seq<(string, Shape)>>
    requires AllDocs(documents) && AllDocs(samples)
  {
    var observed := if documents != [] then documents else samples;
    SnapshotColumns(observed, samples, Distinct(fields + AllKeys(observed), []))
  }

  function SnapshotColumns(observed: seq<Value>, samples: seq<Value>, names: seq<string>): (r: Option<seq<(string, Shape)>>)
    requires AllDocs(observed) && AllDocs(samples)
    ensures r.Some? ==> |r.value| == |names| && forall i | 0 <= i < |names| :: r.value[i].0 == names[i]
  {
    if names == [] then Some([])
    else
      var first := Infer(Column(observed, names[0]), 0, Column(samples, names[0]));
      var rest := SnapshotColumns(observed, samples, names[1..]);
      if first.Some? && rest.Some? then Some([(names[0], first.value)] + rest.value) else None
  }

  // ----- what a shape admits -----

  /** The values of each type name. Every other value is only ever JSON. */
  predicate HasType(v: Value, name: string) {
    v.Atom? &&
    if name == "TIMESTAMP" then v.kind == DateTime
    else if name == "BOOLEAN" then v.kind == Boolean
    else if name == "VARCHAR" then v.kind == Text || v.kind == ObjectIdOrDecimal
    else if name == "BIGINT" then v.kind == SafeInteger || v.kind == Int64
    else name == "DOUBLE" && (v.kind == OtherNumber || v.kind == Float64)
  }

  /** The inference names that type for these values and no others. */
  lemma TypeNameIff(v: Value, name: string)
    ensures TypeName(v) == name <==> if name == "JSON" then v.Atom? ==> v.kind == BsonTimestamp || v.kind == OtherObject else HasType(v, name)
  {
  }

  /** `v` is null or missing, or has the shape's type; JSON admits anything, and a struct has a column for every key. */
  ghost predicate Conforms(v: Value, s: Shape)
    decreases s
  {
    || !IsPresent(v)
    || s == JSON
    || (s.Leaf? && HasType(v, s.name))
    || (s.ListOf? && v.List? && forall i | 0 <= i < |v.items| :: Conforms(v.items[i], s.item))
    || (s.Struct? && v.Doc? && CoversKeys(v.fields, s.columns)
        && forall i | 0 <= i < |s.columns| :: Conforms(Lookup(v.fields, s.columns[i].0), s.columns[i].1))
  }

  ghost predicate CoversKeys(fields: seq<(string, Value)>, columns: seq<(string, Shape)>) {
    forall n | n in Keys(fields) :: exists i | 0 <= i < |columns| :: columns[i].0 == n
  }

  ghost predicate AllConform(vs: seq<Value>, s: Shape) { forall v | v in vs :: Conforms(v, s) }

  lemma PresentConform(vs: seq<Value>, s: Shape)
    requires AllConform(Present(vs), s)
    ensures AllConform(vs, s)
  {
    forall v | v in vs ensures Conforms(v, s) { if IsPresent(v) { assert v in Present(vs); } }
  }

  lemma ListsConform(vs: seq<Value>, item: Shape)
    requires AllLists(vs) && AllConform(Flat(vs), item)
    ensures AllConform(vs, ListOf(item))
  {
    forall v | v in vs ensures Conforms(v, ListOf(item)) {
      var k :| 0 <= k < |vs| && vs[k] == v;
      forall i | 0 <= i < |v.items| ensures Conforms(v.items[i], item) { assert v.items[i] in vs[k].items; }
    }
  }

  lemma SameTypeConforms(vs: seq<Value>)
    requires vs != []
    ensures AllConform(vs, SameType(vs))
  {
    forall v | v in vs ensures Conforms(v, SameType(vs)) { TypeNameIff(v, TypeName(vs[0])); }
  }

  lemma DocConforms(v: Value, docs: seq<Value>, k: nat, names: seq<string>, columns: seq<(string, Shape)>)
    requires AllDocs(docs) && k < |docs| && docs[k] == v && |columns| == |names|
    requires forall i | 0 <= i < |names| :: columns[i].0 == names[i] && AllConform(Column(docs, names[i]), columns[i].1)
    requires forall n | n in Keys(v.fields) :: n in names
    ensures Conforms(v, Struct(columns))
  {
    forall n | n in Keys(v.fields) ensures exists i | 0 <= i < |columns| :: columns[i].0 == n {
      var i :| 0 <= i < |names| && names[i] == n;
      assert columns[i].0 == n;
    }
    forall i | 0 <= i < |columns| ensures Conforms(Lookup(v.fields, columns[i].0), columns[i].1) {
      assert Column(docs, names[i])[k] == Lookup(v.fields, columns[i].0);
    }
  }

  lemma DocsConform(present: seq<Value>, others: seq<Value>, columns: seq<(string, Shape)>)
    requires AllDocs(present) && AllDocs(others)
    requires var names := Distinct(AllKeys(present + others), []);
             |columns| == |names|
             && forall i | 0 <= i < |names| :: columns[i].0 == names[i] && AllConform(Column(present, names[i]), columns[i].1)
    ensures AllConform(present, Struct(columns))
  {
    var names := Distinct(AllKeys(present + others), []);
    forall v | v in present ensures Conforms(v, Struct(columns)) {
      var k :| 0 <= k < |present| && present[k] == v;
      forall n | n in Keys(v.fields) ensures n in names {
        assert (present + others)[k] == v;
        assert n in AllKeys(present + others);
      }
      DocConforms(v, present, k, names, columns);
    }
  }

  /** Every value fits the shape inferred from it, whatever the samples were. */
  lemma {:induction false} InferredFits(values: seq<Value>, depth: nat, samples: seq<Value>)
    requires Infer(values, depth, samples).Some?
    ensures AllConform(values, Infer(values, depth, samples).value)
    decreases MAX_DEPTH + 1 - depth, 1
  {
    hide AllConform; hide AllLists;
    var present, s := Present(values), Infer(values, depth, samples).value;
    if present == [] {
      NothingPresent(values, s);
    } else if AllLists(present) {
      InferredFits(Flat(present), depth + 1, Flat(Lists(samples)));
      ListsConform(present, s.item);
      PresentConform(values, s);
    } else if AllDocs(present) {
      var docs := Docs(samples);
      var names := Distinct(AllKeys(present + docs), []);
      if names == [] { AnythingIsJson(values); }
      else {
        ColumnsFit(present, depth, docs, names);
        DocsConform(present, docs, s.columns);
        PresentConform(values, s);
      }
    } else {
      SameTypeConforms(present);
      PresentConform(values, s);
    }
  }

  lemma NothingPresent(vs: seq<Value>, s: Shape)
    requires Present(vs) == []
    ensures AllConform(vs, s)
  {
    forall v | v in vs ensures Conforms(v, s) { assert v !in Present(vs); }
  }

  lemma AnythingIsJson(vs: seq<Value>)
    ensures AllConform(vs, JSON)
  {
  }

  lemma {:induction false} ColumnsFit(docs: seq<Value>, depth: nat, samples: seq<Value>, names: seq<string>)
    requires AllDocs(docs) && AllDocs(samples) && depth <= MAX_DEPTH && InferColumns(docs, depth, samples, names).Some?
    ensures var r := InferColumns(docs, depth, samples, names).value;
            forall i | 0 <= i < |names| :: AllConform(Column(docs, names[i]), r[i].1)
    decreases MAX_DEPTH + 1 - depth, 0, |names|
  {
    hide AllConform; hide Infer; hide AllDocs;
    if names != [] {
      InferredFits(Column(docs, names[0]), depth + 1, Column(samples, names[0]));
      ColumnsFit(docs, depth, samples, names[1..]);
      var r := InferColumns(docs, depth, samples, names).value;
      forall i | 0 <= i < |names| ensures AllConform(Column(docs, names[i]), r[i].1) { if i > 0 { assert names[i] == names[1..][i - 1]; } }
    }
  }

  lemma {:induction false} SnapshotColumnsFit(observed: seq<Value>, samples: seq<Value>, names: seq<string>)
    requires AllDocs(observed) && AllDocs(samples) && SnapshotColumns(observed, samples, names).Some?
    ensures var r := SnapshotColumns(observed, samples, names).value;
            forall i | 0 <= i < |names| :: AllConform(Column(observed, names[i]), r[i].1)
  {
    hide AllConform; hide Infer; hide AllDocs;
    if names != [] {
      InferredFits(Column(observed, names[0]), 0, Column(samples, names[0]));
      SnapshotColumnsFit(observed, samples, names[1..]);
      var r := SnapshotColumns(observed, samples, names).value;
      forall i | 0 <= i < |names| ensures AllConform(Column(observed, names[i]), r[i].1) {
        if i > 0 { assert names[i] == names[1..][i - 1]; }
      }
    }
  }

  /** Every document of a snapshot is a row of its structure. */
  lemma DocumentsFit(documents: seq<Value>, samples: seq<Value>, fields: seq<string>)
    requires AllDocs(documents) && AllDocs(samples) && Snapshot(documents, samples, fields).Some?
    ensures AllConform(documents, Struct(Snapshot(documents, samples, fields).value))
  {
    hide AllConform; hide Infer;
    if documents == [] {
      NothingPresent([], Struct(Snapshot(documents, samples, fields).value));
    } else {
      var names := Distinct(fields + AllKeys(documents), []);
      var columns := Snapshot(documents, samples, fields).value;
      SnapshotColumnsFit(documents, samples, names);
      EachFits(documents, names, columns);
    }
  }

  lemma EachFits(docs: seq<Value>, names: seq<string>, columns: seq<(string, Shape)>)
    requires AllDocs(docs) && |columns| == |names|
    requires forall i | 0 <= i < |names| :: columns[i].0 == names[i] && AllConform(Column(docs, names[i]), columns[i].1)
    requires forall n | n in AllKeys(docs) :: n in names
    ensures AllConform(docs, Struct(columns))
  {
    forall v | v in docs ensures Conforms(v, Struct(columns)) {
      var k :| 0 <= k < |docs| && docs[k] == v;
      DocConforms(v, docs, k, names, columns);
    }
  }

  // ----- depth -----

  /** How deep lists and documents nest. */
  function Nesting(v: Value): nat
    decreases v, 1
  {
    match v
    case List(items) => 1 + MaxNesting(v, items, |items|)
    case Doc(fields) => 1 + MaxFieldNesting(v, fields, |fields|)
    case _ => 0
  }

  function MaxNesting(v: Value, items: seq<Value>, n: nat): nat
    requires n <= |items| && v == List(items)
    decreases v, 0, n
  {
    if n == 0 then 0 else Max(MaxNesting(v, items, n - 1), Nesting(items[n - 1]))
  }

  function MaxFieldNesting(v: Value, fields: seq<(string, Value)>, n: nat): nat
    requires n <= |fields| && v == Doc(fields)
    decreases v, 0, n
  {
    if n == 0 then 0 else Max(MaxFieldNesting(v, fields, n - 1), Nesting(fields[n - 1].1))
  }

  function Max(a: nat, b: nat): nat { if a < b then b else a }

  lemma {:induction false} ItemNesting(v: Value, items: seq<Value>, n: nat, i: nat)
    requires n <= |items| && v == List(items) && i < n
    ensures Nesting(items[i]) <= MaxNesting(v, items, n)
  {
    if i < n - 1 { ItemNesting(v, items, n - 1, i); }
  }

  lemma {:induction false} FieldNesting(v: Value, fields: seq<(string, Value)>, n: nat, i: nat)
    requires n <= |fields| && v == Doc(fields) && i < n
    ensures Nesting(fields[i].1) <= MaxFieldNesting(v, fields, n)
  {
    if i < n - 1 { FieldNesting(v, fields, n - 1, i); }
  }

  ghost predicate Within(vs: seq<Value>, limit: nat) { forall v | v in vs :: Nesting(v) <= limit }

  lemma FlatWithin(vs: seq<Value>, limit: nat)
    requires AllLists(vs) && Within(vs, limit + 1)
    ensures Within(Flat(vs), limit)
  {
    hide Nesting;
    forall x | x in Flat(vs) ensures Nesting(x) <= limit {
      var i :| 0 <= i < |vs| && x in vs[i].items;
      ListNesting(vs[i], x);
      assert vs[i] in vs;
    }
  }

  lemma ListNesting(v: Value, x: Value)
    requires v.List? && x in v.items
    ensures Nesting(x) + 1 <= Nesting(v)
  {
    var j :| 0 <= j < |v.items| && v.items[j] == x;
    ItemNesting(v, v.items, |v.items|, j);
  }

  lemma LookupNesting(v: Value, name: string)
    requires v.Doc?
    ensures Nesting(v) >= 1 && Nesting(Lookup(v.fields, name)) + 1 <= Nesting(v)
  {
    var x := Lookup(v.fields, name);
    if !x.Missing? {
      var i :| 0 <= i < |v.fields| && v.fields[i] == (name, x);
      FieldNesting(v, v.fields, |v.fields|, i);
    }
  }

  lemma ColumnWithin(vs: seq<Value>, name: string, limit: nat)
    requires AllDocs(vs) && Within(vs, limit + 1)
    ensures Within(Column(vs, name), limit)
  {
    hide Nesting;
    var c := Column(vs, name);
    forall x | x in c ensures Nesting(x) <= limit {
      var i :| 0 <= i < |c| && c[i] == x;
      LookupNesting(vs[i], name);
      assert vs[i] in vs;
    }
  }

  /** Nothing can be flattened or looked into at the last level. */
  lemma NoListWithinZero(vs: seq<Value>)
    requires Within(vs, 0)
    ensures forall v | v in vs :: !v.List? && !v.Doc?
  {
    forall v | v in vs ensures !v.List? && !v.Doc? { assert Nesting(v) <= 0; }
  }

  /** Values that nest no deeper than the levels left never fail. */
  lemma {:induction false} ShallowNeverFails(values: seq<Value>, depth: nat, samples: seq<Value>)
    requires depth <= MAX_DEPTH && Within(values, MAX_DEPTH - depth) && Within(samples, MAX_DEPTH - depth)
    ensures Infer(values, depth, samples).Some?
    decreases MAX_DEPTH + 1 - depth, 1, if AnyPresent(samples) then 1 else 0
  {
    hide Nesting; hide AllLists;
    var present := Present(values);
    if present == [] {
      if AnyPresent(samples) { ShallowNeverFails(samples, depth, []); }
    } else {
      assert present[0] in values;
      assert Within(present, MAX_DEPTH - depth) && Within(Lists(samples), MAX_DEPTH - depth) && Within(Docs(samples), MAX_DEPTH - depth);
      if depth == MAX_DEPTH { NoListWithinZero(present); }
      if AllLists(present) {
        ListHead(present);
        FlatWithin(present, MAX_DEPTH - depth - 1);
        FlatWithin(Lists(samples), MAX_DEPTH - depth - 1);
        ShallowNeverFails(Flat(present), depth + 1, Flat(Lists(samples)));
      } else if AllDocs(present) {
        var docs := Docs(samples);
        var names := Distinct(AllKeys(present + docs), []);
        if names != [] { ShallowColumns(present, depth, docs, names); }
      }
    }
  }

  lemma ListHead(vs: seq<Value>)
    requires AllLists(vs) && vs != []
    ensures vs[0].List? && vs[0] in vs
  {
  }

  lemma {:induction false} ShallowColumns(docs: seq<Value>, depth: nat, samples: seq<Value>, names: seq<string>)
    requires AllDocs(docs) && AllDocs(samples) && depth < MAX_DEPTH
    requires Within(docs, MAX_DEPTH - depth) && Within(samples, MAX_DEPTH - depth)
    ensures InferColumns(docs, depth, samples, names).Some?
    decreases MAX_DEPTH + 1 - depth, 0, |names|
  {
    hide Within; hide Infer; hide AllDocs;
    if names != [] {
      ColumnWithin(docs, names[0], MAX_DEPTH - depth - 1);
      ColumnWithin(samples, names[0], MAX_DEPTH - depth - 1);
      ShallowNeverFails(Column(docs, names[0]), depth + 1, Column(samples, names[0]));
      ShallowColumns(docs, depth, samples, names[1..]);
    }
  }

  // ----- samples -----

  /** `t` says at least as much as `s`: it may only replace JSON, and add columns to structs. */
  ghost predicate Refines(t: Shape, s: Shape)
    decreases s, 0
  {
    || s == JSON
    || (s.Leaf? && t == s)
    || (s.ListOf? && t.ListOf? && Refines(t.item, s.item))
    || (s.Struct? && t.Struct?
        && forall i | 0 <= i < |s.columns| :: RefinedIn(t.columns, s.columns[i].0, s.columns[i].1))
  }

  ghost predicate RefinedIn(columns: seq<(string, Shape)>, name: string, s: Shape)
    decreases s, 1
  {
    exists j | 0 <= j < |columns| :: columns[j].0 == name && Refines(columns[j].1, s)
  }

  /** Samples only fill in what the values leave open. */
  lemma {:induction false} SamplesOnlyRefine(values: seq<Value>, depth: nat, samples: seq<Value>)
    requires Infer(values, depth, []).Some? && Infer(values, depth, samples).Some?
    ensures Refines(Infer(values, depth, samples).value, Infer(values, depth, []).value)
    decreases MAX_DEPTH + 1 - depth, 1
  {
    hide AllLists; hide RefinedIn;
    var present := Present(values);
    if present != [] {
      if AllLists(present) {
        SamplesOnlyRefine(Flat(present), depth + 1, Flat(Lists(samples)));
      } else if AllDocs(present) {
        var docs := Docs(samples);
        assert present + [] == present;
        var few, many := Distinct(AllKeys(present), []), Distinct(AllKeys(present + docs), []);
        if few != [] {
          forall n | n in few ensures n in many { MoreKeys(present, docs, n); }
          assert few[0] in many;
          var s, t := Infer(values, depth, []).value, Infer(values, depth, samples).value;
          forall i | 0 <= i < |s.columns| ensures RefinedIn(t.columns, s.columns[i].0, s.columns[i].1) {
            ColumnRefined(present, depth, docs, few, many, i);
          }
        }
      }
    }
  }

  lemma MoreKeys(vs: seq<Value>, more: seq<Value>, n: string)
    requires AllDocs(vs) && AllDocs(more) && n in AllKeys(vs)
    ensures n in AllKeys(vs + more)
  {
    var i :| 0 <= i < |vs| && n in Keys(vs[i].fields);
    assert (vs + more)[i] == vs[i];
  }

  lemma {:induction false} ColumnAt(docs: seq<Value>, depth: nat, samples: seq<Value>, names: seq<string>, i: nat)
    requires AllDocs(docs) && AllDocs(samples) && depth <= MAX_DEPTH && InferColumns(docs, depth, samples, names).Some? && i < |names|
    ensures Infer(Column(docs, names[i]), depth + 1, Column(samples, names[i]))
            == Some(InferColumns(docs, depth, samples, names).value[i].1)
    decreases |names|
  {
    hide Infer; hide AllDocs;
    if i > 0 { ColumnAt(docs, depth, samples, names[1..], i - 1); }
  }

  lemma {:induction false} ColumnRefined(docs: seq<Value>, depth: nat, samples: seq<Value>, few: seq<string>, many: seq<string>, i: nat)
    requires AllDocs(docs) && AllDocs(samples) && depth <= MAX_DEPTH && i < |few| && few[i] in many
    requires InferColumns(docs, depth, [], few).Some? && InferColumns(docs, depth, samples, many).Some?
    ensures RefinedIn(InferColumns(docs, depth, samples, many).value, few[i], InferColumns(docs, depth, [], few).value[i].1)
    decreases MAX_DEPTH + 1 - depth, 0
  {
    hide Infer; hide Refines;
    var j :| 0 <= j < |many| && many[j] == few[i];
    var s, t := InferColumns(docs, depth, [], few).value, InferColumns(docs, depth, samples, many).value;
    ColumnAt(docs, depth, [], few, i);
    ColumnAt(docs, depth, samples, many, j);
    assert Column([], few[i]) == [];
    SamplesOnlyRefine(Column(docs, few[i]), depth + 1, Column(samples, few[i]));
    assert t[j].0 == few[i];
  }

  // ----- precision -----

  /** What present values that fit `t` have in common. */
  lemma FitTells(present: seq<Value>, t: Shape)
    requires present != [] && t != JSON && forall i | 0 <= i < |present| :: IsPresent(present[i]) && Conforms(present[i], t)
    ensures t.ListOf? ==> AllLists(present)
    ensures t.Struct? ==> AllDocs(present)
    ensures t.Leaf? ==> SameType(present) == t
  {
    if t.Leaf? {
      forall i | 0 <= i < |present| ensures TypeName(present[i]) == t.name { TypeNameIff(present[i], t.name); }
    }
  }

  lemma KeysGiveNames(present: seq<Value>, others: seq<Value>, i: nat)
    requires AllDocs(present) && AllDocs(others) && i < |present| && present[i].fields != []
    ensures Distinct(AllKeys(present + others), []) != []
  {
    assert (present + others)[i] == present[i];
    assert Keys(present[i].fields)[0] in AllKeys(present + others);
  }

  lemma NoNames(present: seq<Value>, others: seq<Value>)
    requires AllDocs(present) && AllDocs(others)
    ensures Distinct(AllKeys(present + others), []) == [] ==> forall v | v in present :: v.Doc? && v.fields == []
  {
    forall i | 0 <= i < |present| && present[i].fields != [] ensures Distinct(AllKeys(present + others), []) != [] {
      KeysGiveNames(present, others, i);
    }
  }

  /** With a value present, JSON is inferred only when nothing else fits, or all the values are documents without keys. */
  lemma JsonOnlyWhenForced(values: seq<Value>, depth: nat, samples: seq<Value>, t: Shape)
    requires Infer(values, depth, samples) == Some(JSON) && AnyPresent(values)
    requires t != JSON && AllConform(values, t)
    ensures t.Struct? && forall v | v in values && IsPresent(v) :: v.Doc? && v.fields == []
  {
    hide Conforms;
    var present := Present(values);
    var k :| 0 <= k < |values| && IsPresent(values[k]);
    assert values[k] in present;
    forall i | 0 <= i < |present| ensures Conforms(present[i], t) && IsPresent(present[i]) { assert present[i] in values; }
    FitTells(present, t);
    if AllDocs(present) { NoNames(present, Docs(samples)); }
  }
}
