/** The translated SELECT: header checks, assembly of the native query, and why it returns the SQL answer. */
module SelectQuery {
  import opened Values
  import opened Ordering
  import opened Partition
  import opened Sql
  import opened Mongo
  import opened Predicate
  import opened Grouping
  import opened OrderSpec

  // ----- the header: source, select list and grouping columns -----

  function UpperKind(k: AggKind): string {
    match k case Count => "COUNT" case Sum => "SUM" case Avg => "AVG" case Min => "MIN" case Max => "MAX"
  }

  function OutputOf(sc: Scope, item: Item): Result<Output> {
    if item.alias.Some? && item.aliasColumns then Rejected
    else
      var agg :- Aggregation(sc, item.expr);
      if item.alias.Some? then
        var name :- Identifier(item.alias.value);
        if '.' in name then Rejected else Ok(Output(item.expr, agg, name))
      else if item.expr.Column? then
        var name :- ColumnName(sc, item.expr);
        Ok(Output(item.expr, agg, name))
      else if agg.Some? then Ok(Output(item.expr, agg, UpperKind(agg.value.kind) + "(" + FieldOrStar(agg.value) + ")"))
      else Ok(Output(item.expr, agg, "*"))
  }

  function OutputsOf(sc: Scope, items: seq<Item>): (r: Result<seq<Output>>)
    ensures r.Ok? ==> |r.value| == |items| && forall i | 0 <= i < |items| :: OutputOf(sc, items[i]) == Ok(r.value[i])
  {
    if items == [] then Ok([])
    else
      var first :- OutputOf(sc, items[0]);
      var rest :- OutputsOf(sc, items[1..]);
      Ok([first] + rest)
  }

  predicate NamesDistinct(outputs: seq<Output>) {
    forall i, j | 0 <= i < j < |outputs| :: outputs[i].name != outputs[j].name
  }

  function ColumnNames(sc: Scope, es: seq<Expr>): Result<seq<string>> {
    if es == [] then Ok([])
    else
      var first :- ColumnName(sc, es[0]);
      var rest :- ColumnNames(sc, es[1..]);
      Ok([first] + rest)
  }

  datatype Header = Header(target: Target, scope: Scope)

  function HeaderOf(sel: Select, defaultDatabase: Option<string>): Result<Header> {
    if sel.otherClauses then Rejected
    else if |sel.from| != 1 || !sel.from[0].Table? || sel.from[0].decorated then Rejected
    else
      var source := sel.from[0];
      var database := if source.schema.Some? then source.schema else defaultDatabase;
      if database.None? || database.value == "" then Rejected
      else
        var qualifier := if source.alias.Some? then source.alias.value else source.name;
        var base := Scope(qualifier, [], false, [], false);
        var outputs :- OutputsOf(base, sel.items);
        if outputs == [] || !NamesDistinct(outputs) then Rejected
        else
          var star := |outputs| == 1 && outputs[0].source.Star?;
          if star && (outputs[0].name != "*" || outputs[0].source.modified
                      || (outputs[0].source.starTable.Some? && outputs[0].source.starTable.value != qualifier)) then Rejected
          else if !star && exists o | o in outputs :: o.source.Star? || (o.agg.None? && !o.source.Column?) then Rejected
          else
            var groups :- ColumnNames(base, sel.groupBy);
            if sel.groupAllOrTotals then Rejected
            else
              var grouped := groups != [] || (exists o | o in outputs :: o.agg.Some?) || sel.having.Some?;
              if grouped && star then Rejected
              else Ok(Header(Target(database.value, source.name), Scope(qualifier, outputs, star, groups, grouped)))
  }

  // ----- the clauses -----

  /** Mongo-style WHERE: literal equality and list membership become indexable filters. */
  function MatchFilter(sc: Scope, e: Expr): Result<Filter> {
    match e
    case Paren(x) => MatchFilter(sc, x)
    case And(l, r) =>
      var a :- MatchFilter(sc, l);
      var b :- MatchFilter(sc, r);
      Ok(AndF([a, b]))
    case Or(l, r) =>
      var a :- MatchFilter(sc, l);
      var b :- MatchFilter(sc, r);
      Ok(OrF([a, b]))
    case ListContains(args, distinct) =>
      if |args| != 2 || distinct then Rejected
      else
        var field :- ColumnName(sc, args[0]);
        var item :- Literal(args[1]);
        Ok(if item.Null? then ExprF(Lit(Bool(false))) else ElemEq(field, item))
    case Compare(op, l, r) =>
      if op == Eq && l.Column? != r.Column? then
        var item :- Literal(if l.Column? then r else l);
        if item.Null? then PredFilter(sc, e)
        else
          var field :- ColumnName(sc, if l.Column? then l else r);
          Ok(FieldEq(field, item))
      else PredFilter(sc, e)
    case _ => PredFilter(sc, e)
  }

  function PredFilter(sc: Scope, e: Expr): Result<Filter> {
    var p :- Pred(sc, [], e, false, false);
    Ok(ExprF(p))
  }

  function WhereFilter(sc: Scope, cond: Option<Expr>, mongoMatch: bool): Result<Filter> {
    match cond
    case None => Ok(All)
    case Some(e) => if mongoMatch then MatchFilter(sc, e) else PredFilter(sc, e)
  }

  type Fields = seq<(string, MExpr)>

  function OutputExpr(sc: Scope, t: Table, o: Output): Result<MExpr> {
    if sc.grouped then GroupRef(sc, t, o.source)
    else
      var field :- ColumnName(sc, o.source);
      Ok(IfNull(Field(field), Lit(Null)))
  }

  function Projection(sc: Scope, t: Table, outputs: seq<Output>): Result<Fields> {
    if outputs == [] then Ok([])
    else
      var n := |outputs| - 1;
      var rest :- Projection(sc, t, outputs[..n]);
      var last :- OutputExpr(sc, t, outputs[n]);
      Ok(rest + [(outputs[n].name, last)])
  }

  function HavingExpr(sc: Scope, t: Table, having: Option<Expr>): Result<Option<MExpr>> {
    match having
    case None => Ok(None)
    case Some(e) =>
      var p :- Pred(sc, t, e, true, false);
      Ok(Some(p))
  }

  function SortSlot(i: nat): string { "s" + Dec(i) }

  /** Grouped ORDER BY: the expressions, one sort slot each. */
  function SortExprs(sc: Scope, t: Table, orderBy: seq<Ordered>): Result<seq<MExpr>> {
    if orderBy == [] then Ok([])
    else
      var n := |orderBy| - 1;
      var rest :- SortExprs(sc, t, orderBy[..n]);
      if orderBy[n].nullsGiven then Rejected
      else
        var last :- GroupRef(sc, t, Resolve(sc, orderBy[n].expr));
        Ok(rest + [last])
  }

  /** Ungrouped ORDER BY: base columns with directions, as written. */
  function OrderList(sc: Scope, orderBy: seq<Ordered>): Result<SortSpec> {
    if orderBy == [] then Ok([])
    else
      var n := |orderBy| - 1;
      var rest :- OrderList(sc, orderBy[..n]);
      if orderBy[n].nullsGiven then Rejected
      else
        var last :- ColumnName(sc, Resolve(sc, orderBy[n].expr));
        Ok(rest + [(last, orderBy[n].desc)])
  }

  function LimitValue(limit: Option<Expr>): (r: Result<Option<nat>>)
  {
    match limit
    case None => Ok(None)
    case Some(e) =>
      var v :- Literal(e);
      if v.Num? && v.n.Floor as real == v.n && 0.0 <= v.n <= MAX_SAFE_INTEGER then Ok(Some(v.n.Floor)) else Rejected
  }

  // ----- assembly -----

  function SetStages(es: seq<MExpr>, k: nat): (r: seq<Stage>)
    ensures |r| == |es| && forall i | 0 <= i < |r| :: r[i] == SetS(SortSlot(k + i), es[i])
  {
    seq(|es|, i requires 0 <= i < |es| => SetS(SortSlot(k + i), es[i]))
  }

  function SlotSpec(orderBy: seq<Ordered>, k: nat): (r: SortSpec)
    ensures |r| == |orderBy|
  {
    if orderBy == [] then [] else [(SortSlot(k), orderBy[0].desc)] + SlotSpec(orderBy[1..], k + 1)
  }

  function LimitStages(limit: Option<nat>): seq<Stage> {
    match limit
    case None => []
    case Some(n) => if n == 0 then [Match(ExprF(Lit(Bool(false))))] else [LimitS(n)]
  }

  function SortStages(spec: SortSpec): seq<Stage> { if spec == [] then [] else [SortS(spec)] }

  function GroupStages(sc: Scope, t: Table): seq<Stage> {
    if sc.groups != [] then [GroupS(GroupIds(sc.groups, 0), TableAccs(t))] else GlobalStages(t)
  }

  function HavingStages(having: Option<MExpr>): seq<Stage> {
    match having case None => [] case Some(p) => [Match(ExprF(p))]
  }

  function FilterStages(sel: Select, filter: Filter): seq<Stage> { if sel.filter.Some? then [Match(filter)] else [] }

  /** Every output is a plain column under its own name. */
  predicate PlainOutputs(sc: Scope) {
    forall o | o in sc.outputs :: o.source.Column? && ColumnName(sc, o.source) == Ok(o.name)
  }

  function OutputNames(outputs: seq<Output>): (r: seq<string>)
    ensures |r| == |outputs| && forall i | 0 <= i < |r| :: r[i] == outputs[i].name
  {
    seq(|outputs|, i requires 0 <= i < |outputs| => outputs[i].name)
  }

  function GroupedPipeline(sc: Scope, sel: Select, t: Table, filter: Filter, fields: Fields, having: Option<MExpr>,
                           sorts: seq<MExpr>, limit: Option<nat>): seq<Stage> {
    FilterStages(sel, filter) + GroupStages(sc, t) + HavingStages(having) + SetStages(sorts, 0)
    + SortStages(SlotSpec(sel.orderBy, 0)) + LimitStages(limit) + [Project(fields)]
  }

  function PlainPipeline(sc: Scope, sel: Select, filter: Filter, fields: Fields, spec: SortSpec, limit: Option<nat>): seq<Stage> {
    FilterStages(sel, filter) + SortStages(spec) + LimitStages(limit) + (if sc.star then [] else [Project(fields)])
  }

  /** The native query for a SELECT whose aggregates have the slots of table `t`. */
  function Assemble(h: Header, sel: Select, t: Table, mongoMatch: bool): Result<Query> {
    var sc := h.scope;
    var filter :- WhereFilter(sc, sel.filter, mongoMatch);
    var fields :- if sc.star then Ok([]) else Projection(sc, t, sc.outputs);
    var having :- HavingExpr(sc, t, sel.having);
    if sc.grouped then
      var sorts :- SortExprs(sc, t, sel.orderBy);
      var limit :- LimitValue(sel.limit);
      Ok(Aggregate(h.target, GroupedPipeline(sc, sel, t, filter, fields, having, sorts, limit)))
    else
      var list :- OrderList(sc, sel.orderBy);
      var limit :- LimitValue(sel.limit);
      var spec := SortObject(list);
      if limit.None? && (sc.star || PlainOutputs(sc)) then
        Ok(Find(h.target, filter, if sc.star then None else Some(OutputNames(sc.outputs)), spec))
      else Ok(Aggregate(h.target, PlainPipeline(sc, sel, filter, fields, spec, limit)))
  }
}
