/** The MongoDB side: the subset of aggregation expressions, match filters and stages that the translator emits. */
module Mongo {
  import opened Values
  import opened Ordering
  import opened Partition
  import opened Sql

  /** `Field("x")` is "$x", `IdField("g0")` is "$_id.g0", `Var("k0")` is "$$k0"; `First` is `$arrayElemAt: [e, 0]`. */
  datatype MExpr =
    | Field(name: string)
    | IdField(name: string)
    | Var(name: string)
    | Lit(v: Value)
    | IfNull(e: MExpr, alt: MExpr)
    | Cmp(op: CmpOp, a: MExpr, b: MExpr)
    | InLit(e: MExpr, list: seq<Value>)
    | AndE(es: seq<MExpr>)
    | OrE(es: seq<MExpr>)
    | NotE(e: MExpr)
    | Cond(c: MExpr, t: MExpr, f: MExpr)
    | First(e: MExpr)

  /** Three-way comparison; a missing operand is below null. */
  function Bson(a: Option<Value>, b: Option<Value>): int {
    if a == b then 0
    else if a.None? then -1
    else if b.None? then 1
    else if Less(a.value, b.value) then -1 else 1
  }

  predicate CmpHolds(op: CmpOp, a: Option<Value>, b: Option<Value>) {
    match op
    case Eq => Bson(a, b) == 0
    case Neq => Bson(a, b) != 0
    case Gt => Bson(a, b) > 0
    case Gte => Bson(a, b) >= 0
    case Lt => Bson(a, b) < 0
    case Lte => Bson(a, b) <= 0
  }

  predicate Truthy(v: Option<Value>) {
    v.Some? && v.value != Null && v.value != Bool(false) && v.value != Num(0.0)
  }

  /** None is "missing". */
  function Eval(e: MExpr, d: Doc, vars: Doc): Option<Value>
    decreases e, 1
  {
    match e
    case Field(n) => if n in d then Some(d[n]) else None
    case IdField(n) =>
      if "_id" in d && d["_id"].Obj? && n in d["_id"].fields then Some(d["_id"].fields[n]) else None
    case Var(n) => if n in vars then Some(vars[n]) else None
    case Lit(v) => Some(v)
    case IfNull(x, alt) =>
      var v := Eval(x, d, vars);
      if v.None? || v.value.Null? then Eval(alt, d, vars) else v
    case Cmp(op, a, b) => Some(Bool(CmpHolds(op, Eval(a, d, vars), Eval(b, d, vars))))
    case InLit(x, list) =>
      var v := Eval(x, d, vars);
      Some(Bool(v.Some? && v.value in list))
    case AndE(es) => Some(Bool(AllTrue(es, d, vars)))
    case OrE(es) => Some(Bool(AnyTrue(es, d, vars)))
    case NotE(x) => Some(Bool(!Truthy(Eval(x, d, vars))))
    case Cond(c, t, f) => if Truthy(Eval(c, d, vars)) then Eval(t, d, vars) else Eval(f, d, vars)
    case First(x) =>
      var v := Eval(x, d, vars);
      if v.Some? && v.value.Arr? && v.value.items != [] then Some(v.value.items[0]) else None
  }

  predicate AllTrue(es: seq<MExpr>, d: Doc, vars: Doc)
    decreases es, 0
  {
    es == [] || (Truthy(Eval(es[0], d, vars)) && AllTrue(es[1..], d, vars))
  }

  predicate AnyTrue(es: seq<MExpr>, d: Doc, vars: Doc)
    decreases es, 0
  {
    es != [] && (Truthy(Eval(es[0], d, vars)) || AnyTrue(es[1..], d, vars))
  }

  // ----- match filters -----

  /** `All` is `{}`; `FieldEq` is `{f: {$eq: v}}`; `ElemEq` is `{f: {$elemMatch: {$eq: v}}}`. */
  datatype Filter =
    | All
    | ExprF(e: MExpr)
    | FieldEq(field: string, v: Value)
    | ElemEq(field: string, v: Value)
    | AndF(fs: seq<Filter>)
    | OrF(fs: seq<Filter>)

  /** Match equality holds of a field equal to the operand or of an array that contains it. */
  predicate Matches(f: Filter, d: Doc)
    decreases f, 1
  {
    match f
    case All => true
    case ExprF(e) => Truthy(Eval(e, d, map[]))
    case FieldEq(field, v) =>
      var x := Read(d, field);
      x == v || (x.Arr? && v in x.items)
    case ElemEq(field, v) =>
      var x := Read(d, field);
      x.Arr? && v in x.items
    case AndF(fs) => MatchesAll(fs, d)
    case OrF(fs) => MatchesAny(fs, d)
  }

  predicate MatchesAll(fs: seq<Filter>, d: Doc)
    decreases fs, 0
  {
    fs == [] || (Matches(fs[0], d) && MatchesAll(fs[1..], d))
  }

  predicate MatchesAny(fs: seq<Filter>, d: Doc)
    decreases fs, 0
  {
    fs != [] && (Matches(fs[0], d) || MatchesAny(fs[1..], d))
  }

  function Matching(f: Filter, docs: seq<Doc>): seq<Doc> {
    if docs == [] then []
    else
      var rest := Matching(f, docs[1..]);
      if Matches(f, docs[0]) then [docs[0]] + rest else rest
  }

  // ----- $group -----

  datatype Acc = SumA(e: MExpr) | AvgA(e: MExpr) | MinA(e: MExpr) | MaxA(e: MExpr)

  /** The operand's values over the group, without missing and null ones, which every accumulator ignores. */
  function Operands(e: MExpr, docs: seq<Doc>): seq<Value> {
    if docs == [] then []
    else
      var rest := Operands(e, docs[1..]);
      var v := Eval(e, docs[0], map[]);
      if v.None? || v.value.Null? then rest else [v.value] + rest
  }

  function Numbers(vs: seq<Value>): (r: seq<Value>) {
    if vs == [] then [] else (if vs[0].Num? then [vs[0]] else []) + Numbers(vs[1..])
  }

  /** `$sum` and `$avg` ignore what is not a number; `$avg`, `$min` and `$max` of nothing are null. */
  function Accumulate(a: Acc, docs: seq<Doc>): Value {
    var vs := Operands(a.e, docs);
    match a
    case SumA(_) => Num(Total(Numbers(vs)))
    case AvgA(_) => if Numbers(vs) == [] then Null else Num(Total(Numbers(vs)) / |Numbers(vs)| as real)
    case MinA(_) => Least(vs)
    case MaxA(_) => Greatest(vs)
  }

  type Ids = seq<(string, MExpr)>
  type Accs = seq<(string, Acc)>

  /** The values of the `_id` expressions; an absent one is a null component. */
  function IdKey(ids: Ids, d: Doc): (k: Key)
    ensures |k| == |ids|
  {
    if ids == [] then []
    else
      var v := Eval(ids[0].1, d, map[]);
      [if v.Some? then v.value else Null] + IdKey(ids[1..], d)
  }

  function IdKeys(ids: Ids, docs: seq<Doc>): (r: seq<Key>)
    ensures |r| == |docs| && forall i | 0 <= i < |r| :: r[i] == IdKey(ids, docs[i])
  {
    seq(|docs|, i requires 0 <= i < |docs| => IdKey(ids, docs[i]))
  }

  function IdObject(ids: Ids, k: Key): Doc
    requires |k| == |ids|
  {
    if ids == [] then map[]
    else
      var n := |ids| - 1;
      IdObject(ids[..n], k[..n])[ids[n].0 := k[n]]
  }

  function WithAccs(base: Doc, accs: Accs, docs: seq<Doc>): Doc {
    if accs == [] then base
    else
      var n := |accs| - 1;
      WithAccs(base, accs[..n], docs)[accs[n].0 := Accumulate(accs[n].1, docs)]
  }

  /** With no `_id` fields the key is the constant null. */
  function GroupDoc(ids: Ids, accs: Accs, k: Key, docs: seq<Doc>): Doc
    requires |k| == |ids|
  {
    WithAccs(map["_id" := if ids == [] then Null else Obj(IdObject(ids, k))], accs, docs)
  }

  /** One document per distinct key, so none for no input. */
  function GroupDocs(ids: Ids, accs: Accs, docs: seq<Doc>): seq<Doc> {
    var keys := IdKeys(ids, docs);
    var ks := Distinct(keys);
    assert forall i | 0 <= i < |ks| :: |ks[i]| == |ids| by {
      forall i | 0 <= i < |ks| ensures |ks[i]| == |ids| { assert ks[i] in keys; }
    }
    seq(|ks|, i requires 0 <= i < |ks| && |docs| == |keys| => GroupDoc(ids, accs, ks[i], Members(docs, keys, ks[i])))
  }

  // ----- pipelines -----

  type SortSpec = seq<(string, bool)>

  datatype Stage =
    | Match(f: Filter)
    | GroupS(ids: Ids, accs: Accs)
    | Facet(name: string, pipeline: seq<Stage>)
    | ReplaceRoot(root: MExpr)
    | SetS(name: string, e: MExpr)
    | SortS(spec: SortSpec)
    | LimitS(n: nat)
    | Project(fields: seq<(string, MExpr)>)
    | Lookup(lets: seq<(string, MExpr)>, cond: MExpr, name: string)  // from the collection itself
    | Unwind(name: string)

  function SortKey(spec: SortSpec, d: Doc): (k: Key)
    ensures |k| == |spec|
  {
    if spec == [] then [] else [Read(d, spec[0].0)] + SortKey(spec[1..], d)
  }

  function SortKeys(spec: SortSpec, docs: seq<Doc>): (r: seq<Key>)
    ensures |r| == |docs| && forall i | 0 <= i < |r| :: r[i] == SortKey(spec, docs[i])
  {
    seq(|docs|, i requires 0 <= i < |docs| => SortKey(spec, docs[i]))
  }

  function SpecDirections(spec: SortSpec): (r: seq<bool>)
    ensures |r| == |spec|
  {
    if spec == [] then [] else [spec[0].1] + SpecDirections(spec[1..])
  }

  function Sorted(spec: SortSpec, docs: seq<Doc>): seq<Doc> {
    Pick(docs, SortOrder(SortKeys(spec, docs), SpecDirections(spec)))
  }

  /** A field whose expression is missing is left out. */
  function ProjectDoc(fields: seq<(string, MExpr)>, d: Doc): Doc {
    if fields == [] then map[]
    else
      var n := |fields| - 1;
      var rest := ProjectDoc(fields[..n], d);
      match Eval(fields[n].1, d, map[])
      case Some(v) => rest[fields[n].0 := v]
      case None => rest
  }

  function SetDoc(name: string, e: MExpr, d: Doc): Doc {
    match Eval(e, d, map[])
    case Some(v) => d[name := v]
    case None => d - {name}
  }

  /** A root that is not an object is an error in MongoDB; it stands here as the empty document. */
  function RootDoc(root: MExpr, d: Doc): Doc {
    match Eval(root, d, map[])
    case Some(Obj(m)) => m
    case _ => map[]
  }

  function Bind(lets: seq<(string, MExpr)>, d: Doc): Doc {
    if lets == [] then map[]
    else
      var n := |lets| - 1;
      var rest := Bind(lets[..n], d);
      match Eval(lets[n].1, d, map[])
      case Some(v) => rest[lets[n].0 := v]
      case None => rest
  }

  function Joined(cond: MExpr, vars: Doc, coll: seq<Doc>): seq<Value> {
    if coll == [] then []
    else
      var rest := Joined(cond, vars, coll[1..]);
      if Truthy(Eval(cond, coll[0], vars)) then [Obj(coll[0])] + rest else rest
  }

  function Each(s: Stage, docs: seq<Doc>, coll: seq<Doc>): seq<Doc> {
    if docs == [] then []
    else
      var rest := Each(s, docs[1..], coll);
      var d := docs[0];
      match s
      case ReplaceRoot(root) => [RootDoc(root, d)] + rest
      case SetS(name, e) => [SetDoc(name, e, d)] + rest
      case Project(fields) => [ProjectDoc(fields, d)] + rest
      case Lookup(lets, cond, name) => [d[name := Arr(Joined(cond, Bind(lets, d), coll))]] + rest
      case Unwind(name) => Unwound(d, name, if name in d && d[name].Arr? then d[name].items else []) + rest
      case _ => [d] + rest
  }

  function Unwound(d: Doc, name: string, items: seq<Value>): seq<Doc> {
    if items == [] then [] else [d[name := items[0]]] + Unwound(d, name, items[1..])
  }

  function Objects(docs: seq<Doc>): (r: seq<Value>)
    ensures |r| == |docs|
  {
    if docs == [] then [] else [Obj(docs[0])] + Objects(docs[1..])
  }

  /** `coll` is the whole collection, which `$lookup` reads. */
  function RunStage(s: Stage, docs: seq<Doc>, coll: seq<Doc>): seq<Doc>
    decreases s, 1
  {
    match s
    case Match(f) => Matching(f, docs)
    case GroupS(ids, accs) => GroupDocs(ids, accs, docs)
    case Facet(name, pipeline) => [map[name := Arr(Objects(Run(pipeline, docs, coll)))]]
    case SortS(spec) => Sorted(spec, docs)
    case LimitS(n) => if n < |docs| then docs[..n] else docs
    case _ => Each(s, docs, coll)
  }

  function Run(pipeline: seq<Stage>, docs: seq<Doc>, coll: seq<Doc>): seq<Doc>
    decreases pipeline, 0
  {
    if pipeline == [] then docs
    else Run(pipeline[1..], RunStage(pipeline[0], docs, coll), coll)
  }

  lemma {:induction false} RunAppend(p: seq<Stage>, q: seq<Stage>, docs: seq<Doc>, coll: seq<Doc>)
    ensures Run(p + q, docs, coll) == Run(q, Run(p, docs, coll), coll)
    decreases |p|
  {
    if p == [] {
      assert p + q == q;
    } else {
      assert (p + q)[0] == p[0] && (p + q)[1..] == p[1..] + q;
      RunAppend(p[1..], q, RunStage(p[0], docs, coll), coll);
    }
  }

  // ----- native queries -----

  datatype Target = Target(database: string, collection: string)

  /** `keep`: the included fields, None for whole documents. */
  datatype Query =
    | Find(target: Target, filter: Filter, keep: Option<seq<string>>, sort: SortSpec)
    | Aggregate(target: Target, pipeline: seq<Stage>)

  function Restrict(d: Doc, keep: seq<string>): Doc { map f | f in d && f in keep :: d[f] }

  function Restricted(keep: Option<seq<string>>, docs: seq<Doc>): (r: seq<Doc>)
    ensures |r| == |docs|
    ensures forall i | 0 <= i < |r| :: r[i] == if keep.None? then docs[i] else Restrict(docs[i], keep.value)
  {
    seq(|docs|, i requires 0 <= i < |docs| => if keep.None? then docs[i] else Restrict(docs[i], keep.value))
  }

  /** What the database returns for the query on collection `coll`. */
  function Execute(q: Query, coll: seq<Doc>): seq<Doc> {
    match q
    case Find(_, filter, keep, sort) => Restricted(keep, Sorted(sort, Matching(filter, coll)))
    case Aggregate(_, pipeline) => Run(pipeline, coll, coll)
  }
}
