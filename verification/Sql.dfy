/** The SQL side: the parsed SELECT tree and what it means, after SQL-92 (ISO/IEC 9075:1992). */
module Sql {
  import opened Values
  import opened Ordering
  import opened Partition

  datatype CmpOp = Eq | Neq | Gt | Gte | Lt | Lte

  datatype AggKind = Count | Sum | Avg | Min | Max

  /** Expression nodes of the parser that the translator tells apart; `Call` is every other function. */
  datatype Expr =
    | NullLit
    | BoolLit(b: bool)
    | StrLit(s: string)
    | NumLit(n: real)
    | InfiniteLit  // numeral text beyond the range of a double
    | Neg(e: Expr)
    | Column(table: Option<string>, name: string, joinMark: bool)
    | Star(starTable: Option<string>, modified: bool)
    | AggCall(kind: AggKind, arg: Option<Expr>, star: bool, modified: bool)
    | Paren(e: Expr)
    | Not(e: Expr)
    | And(l: Expr, r: Expr)
    | Or(l: Expr, r: Expr)
    | IsNull(e: Expr, neg: bool)
    | InList(e: Expr, list: seq<Expr>, neg: bool, subquery: bool)
    | Compare(op: CmpOp, l: Expr, r: Expr)
    | ListContains(args: seq<Expr>, distinct: bool)
    | Call(fn: string, args: seq<Expr>)

  datatype Item = Item(expr: Expr, alias: Option<string>, aliasColumns: bool)

  datatype Ordered = Ordered(expr: Expr, desc: bool, nullsGiven: bool)

  /** `decorated`: catalog, time travel, ONLY, FINAL, column aliases or hints. */
  datatype Source = Table(schema: Option<string>, name: string, alias: Option<string>, decorated: bool) | OtherSource

  datatype Select = Select(
    items: seq<Item>,
    from: seq<Source>,
    filter: Option<Expr>,
    groupBy: seq<Expr>,
    groupAllOrTotals: bool,
    having: Option<Expr>,
    orderBy: seq<Ordered>,
    limit: Option<Expr>,
    otherClauses: bool)

  /** One aggregate: its kind and its field, None for COUNT(*). */
  datatype Agg = Agg(kind: AggKind, field: Option<string>)

  datatype Output = Output(source: Expr, agg: Option<Agg>, name: string)

  /** What the names in one SELECT denote. */
  datatype Scope = Scope(qualifier: string, outputs: seq<Output>, star: bool, groups: seq<string>, grouped: bool)

  // ----- truth values, SQL-92 8.12 -----

  datatype Truth = True | False | Unknown

  function Of(b: bool): Truth { if b then True else False }

  function And3(a: Truth, b: Truth): Truth {
    if a == False || b == False then False else if a == True && b == True then True else Unknown
  }

  function Or3(a: Truth, b: Truth): Truth {
    if a == True || b == True then True else if a == False && b == False then False else Unknown
  }

  function Not3(a: Truth): Truth { match a case True => False case False => True case Unknown => Unknown }

  predicate Holds(op: CmpOp, a: Value, b: Value) {
    match op
    case Eq => a == b
    case Neq => a != b
    case Gt => Less(b, a)
    case Gte => Less(b, a) || a == b
    case Lt => Less(a, b)
    case Lte => Less(a, b) || a == b
  }

  /** 8.2: a comparison with NULL is unknown. */
  function Compare3(op: CmpOp, a: Value, b: Value): Truth {
    if a.Null? || b.Null? then Unknown else Of(Holds(op, a, b))
  }

  /** 8.4: `v IN (w1, ..., wn)` is `v = w1 OR ... OR v = wn`. */
  function In3(v: Value, ws: seq<Value>): Truth {
    if ws == [] then False else Or3(Compare3(Eq, v, ws[0]), In3(v, ws[1..]))
  }

  /** Membership in a list value; on a non-list it is never TRUE. */
  function ListContains3(v: Value, w: Value): Truth {
    if v.Null? || w.Null? then Unknown else Of(v.Arr? && w in v.items)
  }

  // ----- set functions, SQL-92 6.5 -----

  /** Nulls are eliminated before a set function is applied. */
  function Present(field: string, rows: seq<Doc>): (r: seq<Value>)
    ensures |r| <= |rows|
  {
    if rows == [] then []
    else
      var rest := Present(field, rows[1..]);
      if Read(rows[0], field).Null? then rest else [Read(rows[0], field)] + rest
  }

  function Total(vs: seq<Value>): real {
    if vs == [] then 0.0 else (if vs[0].Num? then vs[0].n else 0.0) + Total(vs[1..])
  }

  function Least(vs: seq<Value>): Value {
    if vs == [] then Null
    else
      var m := Least(vs[1..]);
      if m.Null? || !Less(m, vs[0]) then vs[0] else m
  }

  function Greatest(vs: seq<Value>): Value {
    if vs == [] then Null
    else
      var m := Greatest(vs[1..]);
      if m.Null? || !Less(vs[0], m) then vs[0] else m
  }

  function AggValue(a: Agg, rows: seq<Doc>): Value {
    match a.field
    case None => Num(|rows| as real)
    case Some(f) =>
      var vs := Present(f, rows);
      if a.kind == Count then Num(|vs| as real)
      else if vs == [] then Null
      else match a.kind
        case Sum => Num(Total(vs))
        case Avg => Num(Total(vs) / |vs| as real)
        case Min => Least(vs)
        case _ => Greatest(vs)
  }

  // ----- expressions -----

  /** A row before grouping, or a group: its key values and the rows in it. */
  datatype Env = Row(doc: Doc) | Group(key: Key, rows: seq<Doc>)

  function LitValue(e: Expr): Value {
    match e
    case BoolLit(b) => Bool(b)
    case StrLit(s) => Str(s)
    case NumLit(n) => Num(n)
    case Neg(x) => (match LitValue(x) case Num(n) => Num(-n) case _ => Null)
    case _ => Null
  }

  function LitValues(es: seq<Expr>): (r: seq<Value>)
    ensures |r| == |es|
  {
    if es == [] then [] else [LitValue(es[0])] + LitValues(es[1..])
  }

  function AggOf(e: Expr): Agg
    requires e.AggCall?
  {
    Agg(e.kind, if e.kind == Count && e.star then None
                else if e.arg.Some? && e.arg.value.Column? then Some(e.arg.value.name) else Some(""))
  }

  function FindOutput(outputs: seq<Output>, name: string): Option<Expr> {
    if outputs == [] then None
    else if outputs[0].name == name then Some(outputs[0].source)
    else FindOutput(outputs[1..], name)
  }

  /** In ORDER BY an unqualified name that is an output name denotes that output. */
  function Resolve(sc: Scope, e: Expr): Expr {
    if e.Column? && e.table.None? then
      match FindOutput(sc.outputs, e.name)
      case Some(source) => source
      case None => e
    else e
  }

  /**
   * In HAVING a name denotes a grouping column (7.8); an output name is looked up, as an extension, only when no
   * grouping column has that name.
   */
  function ResolveHaving(sc: Scope, e: Expr): Expr {
    if e.Column? && e.name in sc.groups then e else Resolve(sc, e)
  }

  /** A grouping column or a set function in a group. */
  function GroupTerm(sc: Scope, e: Expr, key: Key, rows: seq<Doc>): Value {
    if e.AggCall? then AggValue(AggOf(e), rows)
    else if e.Column? then
      match IndexOf(sc.groups, e.name)
      case Some(i) => if i < |key| then key[i] else Null
      case None => Null
    else Null
  }

  function SqlValue(sc: Scope, e: Expr, env: Env): Value {
    if e.Column? || e.AggCall? then
      match env
      case Row(d) => if e.Column? then Read(d, e.name) else Null
      case Group(key, rows) => GroupTerm(sc, ResolveHaving(sc, e), key, rows)
    else LitValue(e)
  }

  /** Search conditions; anything else is not a predicate and is never TRUE or FALSE. */
  function SqlTruth(sc: Scope, e: Expr, env: Env): Truth {
    match e
    case Paren(x) => SqlTruth(sc, x, env)
    case Not(x) => Not3(SqlTruth(sc, x, env))
    case And(l, r) => And3(SqlTruth(sc, l, env), SqlTruth(sc, r, env))
    case Or(l, r) => Or3(SqlTruth(sc, l, env), SqlTruth(sc, r, env))
    case IsNull(x, neg) => Of(SqlValue(sc, x, env).Null? != neg)
    case InList(x, list, neg, _) =>
      var t := In3(SqlValue(sc, x, env), LitValues(list));
      if neg then Not3(t) else t
    case Compare(op, l, r) => Compare3(op, SqlValue(sc, l, env), SqlValue(sc, r, env))
    case ListContains(args, _) =>
      if |args| == 2 then ListContains3(SqlValue(sc, args[0], env), LitValue(args[1])) else Unknown
    case _ => Unknown
  }

  // ----- SELECT -----

  /** Rows on which the search condition is TRUE; no condition keeps all. */
  function Kept(sc: Scope, cond: Option<Expr>, envs: seq<Env>): (r: seq<Env>)
    ensures |r| <= |envs|
  {
    if envs == [] then []
    else
      var rest := Kept(sc, cond, envs[1..]);
      if cond.None? || SqlTruth(sc, cond.value, envs[0]) == True then [envs[0]] + rest else rest
  }

  function Rows(docs: seq<Doc>): (r: seq<Env>)
    ensures |r| == |docs| && forall i | 0 <= i < |r| :: r[i] == Row(docs[i])
  {
    seq(|docs|, i requires 0 <= i < |docs| => Row(docs[i]))
  }

  /** The documents on which WHERE is TRUE. */
  function Filtered(sc: Scope, cond: Option<Expr>, docs: seq<Doc>): (r: seq<Doc>)
  {
    if docs == [] then []
    else
      var rest := Filtered(sc, cond, docs[1..]);
      if cond.None? || SqlTruth(sc, cond.value, Row(docs[0])) == True then [docs[0]] + rest else rest
  }

  function KeyOf(groups: seq<string>, d: Doc): (k: Key)
    ensures |k| == |groups|
  {
    if groups == [] then [] else [Read(d, groups[0])] + KeyOf(groups[1..], d)
  }

  function KeysOf(groups: seq<string>, docs: seq<Doc>): (r: seq<Key>)
    ensures |r| == |docs| && forall i | 0 <= i < |r| :: r[i] == KeyOf(groups, docs[i])
  {
    seq(|docs|, i requires 0 <= i < |docs| => KeyOf(groups, docs[i]))
  }

  /** 7.7: one group per distinct key, NULL being one key value; without GROUP BY one group, even of no rows. */
  function Groups(groups: seq<string>, docs: seq<Doc>): (r: seq<Env>)
    ensures forall i | 0 <= i < |r| :: r[i].Group? && |r[i].key| == |groups|
  {
    if groups == [] then [Group([], docs)]
    else
      var keys := KeysOf(groups, docs);
      var ks := Distinct(keys);
      assert forall i | 0 <= i < |ks| :: |ks[i]| == |groups| by {
        forall i | 0 <= i < |ks| ensures |ks[i]| == |groups| { assert ks[i] in keys; }
      }
      seq(|ks|, i requires 0 <= i < |ks| && |docs| == |keys| => Group(ks[i], Members(docs, keys, ks[i])))
  }

  function Candidates(sc: Scope, sel: Select, docs: seq<Doc>): seq<Env> {
    var kept := Filtered(sc, sel.filter, docs);
    if sc.grouped then Kept(sc, sel.having, Groups(sc.groups, kept)) else Rows(kept)
  }

  function OrderTerm(sc: Scope, e: Expr, env: Env): Value {
    var x := Resolve(sc, e);
    match env
    case Row(d) => if x.Column? then Read(d, x.name) else Null
    case Group(key, rows) => GroupTerm(sc, x, key, rows)
  }

  function OrderKey(sc: Scope, orderBy: seq<Ordered>, env: Env): (k: Key)
    ensures |k| == |orderBy|
  {
    if orderBy == [] then [] else [OrderTerm(sc, orderBy[0].expr, env)] + OrderKey(sc, orderBy[1..], env)
  }

  function OrderKeys(sc: Scope, orderBy: seq<Ordered>, envs: seq<Env>): (r: seq<Key>)
    ensures |r| == |envs| && forall i | 0 <= i < |r| :: r[i] == OrderKey(sc, orderBy, envs[i])
  {
    seq(|envs|, i requires 0 <= i < |envs| => OrderKey(sc, orderBy, envs[i]))
  }

  function Directions(orderBy: seq<Ordered>): (r: seq<bool>)
    ensures |r| == |orderBy|
  {
    if orderBy == [] then [] else [orderBy[0].desc] + Directions(orderBy[1..])
  }

  function OutputValue(sc: Scope, source: Expr, env: Env): Value {
    match env
    case Row(d) => if source.Column? then Read(d, source.name) else Null
    case Group(key, rows) => GroupTerm(sc, source, key, rows)
  }

  /** The result row: the document itself for `*`, else output names to values. */
  function ResultRow(sc: Scope, outputs: seq<Output>, env: Env): Doc {
    if outputs == [] then map[]
    else
      var n := |outputs| - 1;
      ResultRow(sc, outputs[..n], env)[outputs[n].name := OutputValue(sc, outputs[n].source, env)]
  }

  function ResultDoc(sc: Scope, env: Env): Doc {
    if sc.star && env.Row? then env.doc else ResultRow(sc, sc.outputs, env)
  }

  function LimitOf(sel: Select, n: nat): (r: nat)
    ensures r <= n
  {
    match sel.limit
    case None => n
    case Some(e) =>
      (match LitValue(e)
       case Num(x) => if x < 0.0 then 0 else if x.Floor < n then x.Floor else n
       case _ => n)
  }

  function ResultDocs(sc: Scope, envs: seq<Env>): (r: seq<Doc>)
    ensures |r| == |envs| && forall i | 0 <= i < |r| :: r[i] == ResultDoc(sc, envs[i])
  {
    seq(|envs|, i requires 0 <= i < |envs| => ResultDoc(sc, envs[i]))
  }

  /** WHERE, GROUP BY, HAVING, ORDER BY, LIMIT, then the select list. */
  function Answer(sc: Scope, sel: Select, docs: seq<Doc>): seq<Doc> {
    var envs := Candidates(sc, sel, docs);
    var order := SortOrder(OrderKeys(sc, sel.orderBy, envs), Directions(sel.orderBy));
    var sorted := Pick(envs, order);
    ResultDocs(sc, sorted[..LimitOf(sel, |sorted|)])
  }
}
