/** Predicate pushdown: a WHERE tree is split into a native filter and a residual condition, and columns are projected. */
module SourcePlan {
  import opened Values
  import opened Partition
  import opened Sql
  import opened Mongo
  import opened Predicate
  import opened SelectQuery
  import opened SelectCorrect
  import opened Subexpressions

  /** The base SELECT of the chain: its collection, select list, WHERE, and the expressions of all later clauses. */
  datatype Base = Base(source: Source, items: seq<Item>, condition: Expr, later: seq<Expr>) {
    function Alias(): string
      requires source.Table?
    {
      if source.alias.Some? then source.alias.value else source.name
    }
  }

  // ----- what an expression reads -----

  function LowerChar(c: char): char { if 'A' <= c <= 'Z' then (c as int + 32) as char else c }

  function Lower(s: string): string { if s == [] then [] else [LowerChar(s[0])] + Lower(s[1..]) }

  /** A qualifier other than the base alias names a struct column, so that column is read. */
  function ColumnField(alias: string, e: Expr): string
    requires e.Column?
  {
    if e.table.Some? && e.table.value != alias then e.table.value else e.name
  }

  /** Every node below an expression that is a column. */
  function Columns(e: Expr): seq<Expr>
    decreases e, 1
  {
    match e
    case Column(_, _, _) => [e]
    case Neg(x) => Columns(x)
    case AggCall(_, arg, _, _) => if arg.Some? then Columns(arg.value) else []
    case Paren(x) => Columns(x)
    case Not(x) => Columns(x)
    case And(l, r) => Columns(l) + Columns(r)
    case Or(l, r) => Columns(l) + Columns(r)
    case IsNull(x, _) => Columns(x)
    case InList(x, list, _, _) => Columns(x) + ColumnsAll(list)
    case Compare(_, l, r) => Columns(l) + Columns(r)
    case ListContains(args, _) => ColumnsAll(args)
    case Call(_, args) => ColumnsAll(args)
    case _ => []
  }

  function ColumnsAll(es: seq<Expr>): seq<Expr>
    decreases es, 0
  {
    if es == [] then [] else Columns(es[0]) + ColumnsAll(es[1..])
  }

  /** A star node, or a COUNT node, whose record always has a `star` property. */
  predicate HasStar(e: Expr)
    decreases e, 1
  {
    match e
    case Star(_, _) => true
    case Neg(x) => HasStar(x)
    case AggCall(kind, arg, _, _) => kind == Count || (arg.Some? && HasStar(arg.value))
    case Paren(x) => HasStar(x)
    case Not(x) => HasStar(x)
    case And(l, r) => HasStar(l) || HasStar(r)
    case Or(l, r) => HasStar(l) || HasStar(r)
    case IsNull(x, _) => HasStar(x)
    case InList(x, list, _, _) => HasStar(x) || HasStarAny(list)
    case Compare(_, l, r) => HasStar(l) || HasStar(r)
    case ListContains(args, _) => HasStarAny(args)
    case Call(_, args) => HasStarAny(args)
    case _ => false
  }

  predicate HasStarAny(es: seq<Expr>)
    decreases es, 0
  {
    es != [] && (HasStar(es[0]) || HasStarAny(es[1..]))
  }

  function FieldsOf(alias: string, columns: seq<Expr>): (r: seq<string>)
    requires forall i | 0 <= i < |columns| :: columns[i].Column?
    ensures |r| == |columns| && forall i | 0 <= i < |r| :: r[i] == ColumnField(alias, columns[i])
  {
    seq(|columns|, i requires 0 <= i < |columns| && forall i | 0 <= i < |columns| :: columns[i].Column? => ColumnField(alias, columns[i]))
  }

  lemma {:induction false} ColumnsAreColumns(e: Expr)
    ensures forall i | 0 <= i < |Columns(e)| :: Columns(e)[i].Column?
    decreases e, 1
  {
    match e
    case Neg(x) => ColumnsAreColumns(x);
    case AggCall(_, arg, _, _) => if arg.Some? { ColumnsAreColumns(arg.value); }
    case Paren(x) => ColumnsAreColumns(x);
    case Not(x) => ColumnsAreColumns(x);
    case And(l, r) => ColumnsAreColumns(l); ColumnsAreColumns(r);
    case Or(l, r) => ColumnsAreColumns(l); ColumnsAreColumns(r);
    case IsNull(x, _) => ColumnsAreColumns(x);
    case InList(x, list, _, _) => ColumnsAreColumns(x); AllColumnsAreColumns(list);
    case Compare(_, l, r) => ColumnsAreColumns(l); ColumnsAreColumns(r);
    case ListContains(args, _) => AllColumnsAreColumns(args);
    case Call(_, args) => AllColumnsAreColumns(args);
    case _ =>
  }

  lemma {:induction false} AllColumnsAreColumns(es: seq<Expr>)
    ensures forall i | 0 <= i < |ColumnsAll(es)| :: ColumnsAll(es)[i].Column?
    decreases es, 0
  {
    if es != [] { ColumnsAreColumns(es[0]); AllColumnsAreColumns(es[1..]); }
  }

  /** The visit finds every column of the expression, and nothing else. */
  lemma {:induction false} ColumnsIff(e: Expr, x: Expr)
    ensures x in Columns(e) <==> x in Subs(e) && x.Column?
    decreases e, 1
  {
    hide Subs;
    SubsIff(e, x);
    match e
    case Neg(y) => ColumnsIff(y, x);
    case AggCall(_, arg, _, _) => if arg.Some? { ColumnsIff(arg.value, x); }
    case Paren(y) => ColumnsIff(y, x);
    case Not(y) => ColumnsIff(y, x);
    case And(l, r) => ColumnsIff(l, x); ColumnsIff(r, x);
    case Or(l, r) => ColumnsIff(l, x); ColumnsIff(r, x);
    case IsNull(y, _) => ColumnsIff(y, x);
    case InList(y, list, _, _) => ColumnsIff(y, x); AllColumnsIff(list, x); SubsOfElements(list, x);
    case Compare(_, l, r) => ColumnsIff(l, x); ColumnsIff(r, x);
    case ListContains(args, _) => AllColumnsIff(args, x); SubsOfElements(args, x);
    case Call(_, args) => AllColumnsIff(args, x); SubsOfElements(args, x);
    case _ =>
  }

  lemma {:induction false} AllColumnsIff(es: seq<Expr>, x: Expr)
    ensures x in ColumnsAll(es) <==> InSome(es, x) && x.Column?
    decreases es, 0
  {
    hide Subs; hide InSome;
    if es == [] { NoneIn(x); } else { ColumnsIff(es[0], x); AllColumnsIff(es[1..], x); InSomeCons(es, x); }
  }

  lemma NoneIn(x: Expr)
    ensures !InSome([], x)
  {
  }

  /** It notices a star, or a COUNT, wherever one stands. */
  lemma {:induction false} StarIff(e: Expr)
    ensures HasStar(e) <==> Starred(e)
    decreases e, 1
  {
    hide Subs;
    StarredIff(e);
    match e
    case Neg(x) => StarIff(x);
    case AggCall(_, arg, _, _) => if arg.Some? { StarIff(arg.value); }
    case Paren(x) => StarIff(x);
    case Not(x) => StarIff(x);
    case And(l, r) => StarIff(l); StarIff(r);
    case Or(l, r) => StarIff(l); StarIff(r);
    case IsNull(x, _) => StarIff(x);
    case InList(x, list, _, _) => StarIff(x); AnyStarIff(list);
    case Compare(_, l, r) => StarIff(l); StarIff(r);
    case ListContains(args, _) => AnyStarIff(args);
    case Call(_, args) => AnyStarIff(args);
    case _ =>
  }

  lemma StarredIff(e: Expr)
    ensures Starred(e) <==> e.Star? || (e.AggCall? && e.kind == Count) || exists c :: c in Children(e) && Starred(c)
  {
    if Starred(e) {
      var x :| x in Subs(e) && (x.Star? || (x.AggCall? && x.kind == Count));
      SubsIff(e, x);
      if x != e { var c :| c in Children(e) && x in Subs(c); assert Starred(c); }
    }
    if c :| c in Children(e) && Starred(c) {
      var x :| x in Subs(c) && (x.Star? || (x.AggCall? && x.kind == Count));
      SubsOfChild(e, c);
      assert x in Subs(e);
    }
    SubsSelf(e);
  }

  lemma {:induction false} AnyStarIff(es: seq<Expr>)
    ensures HasStarAny(es) <==> exists c :: c in Elements(es) && Starred(c)
    decreases es, 0
  {
    hide Starred;
    if es != [] {
      StarIff(es[0]);
      AnyStarIff(es[1..]);
      assert es[0] in Elements(es) && Elements(es) == {es[0]} + Elements(es[1..]);
    }
  }

  /** The stored fields an expression reads. */
  function Reads(alias: string, e: Expr): (r: seq<string>)
    ensures forall n :: n in r <==> n in ReadSet(alias, e)
  {
    ColumnsAreColumns(e);
    ReadsIff(alias, e);
    FieldsOf(alias, Columns(e))
  }

  lemma ReadsIff(alias: string, e: Expr)
    requires forall i | 0 <= i < |Columns(e)| :: Columns(e)[i].Column?
    ensures forall n :: n in FieldsOf(alias, Columns(e)) <==> n in ReadSet(alias, e)
  {
    hide Columns; hide Subs;
    var r := FieldsOf(alias, Columns(e));
    forall n | n in r ensures n in ReadSet(alias, e) {
      var i :| 0 <= i < |r| && r[i] == n;
      ColumnsIff(e, Columns(e)[i]);
    }
    forall n | n in ReadSet(alias, e) ensures n in r {
      var c :| c in Subs(e) && c.Column? && FieldRead(alias, c) == n;
      ColumnsIff(e, c);
      var i :| 0 <= i < |Columns(e)| && Columns(e)[i] == c;
      assert r[i] == n;
    }
  }

  /** The column could denote a select-list alias instead of a stored field. */
  predicate NamesAlias(alias: string, aliases: seq<string>, c: Expr) {
    c.Column? && if c.table.Some? then c.table.value != alias && Lower(c.table.value) in aliases else Lower(c.name) in aliases
  }

  /** The visit that looks for such columns. */
  predicate Clashes(alias: string, aliases: seq<string>, e: Expr) {
    exists c | c in Columns(e) :: NamesAlias(alias, aliases, c)
  }

  /** The name is that of a select-list entry, but for case. */
  ghost predicate HeadsItem(items: seq<Item>, name: string) {
    exists i :: 0 <= i < |items| && items[i].alias.Some? && Lower(items[i].alias.value) == Lower(name)
  }

  /** Somewhere in `e` a column may mean a select-list entry instead of a stored field, by its name or by its qualifier. */
  ghost predicate Ambiguous(alias: string, items: seq<Item>, e: Expr) {
    exists c :: c in Subs(e) && c.Column?
                && match c.table case None => HeadsItem(items, c.name) case Some(table) => table != alias && HeadsItem(items, table)
  }

  lemma {:induction false} AliasesIff(items: seq<Item>, name: string)
    ensures Lower(name) in OutputAliases(items) <==> HeadsItem(items, name)
  {
    hide Lower;
    if items != [] {
      AliasesIff(items[1..], name);
      if HeadsItem(items[1..], name) {
        var i :| 0 <= i < |items[1..]| && items[1..][i].alias.Some? && Lower(items[1..][i].alias.value) == Lower(name);
        assert items[i + 1].alias.Some?;
      }
      if HeadsItem(items, name) {
        var i :| 0 <= i < |items| && items[i].alias.Some? && Lower(items[i].alias.value) == Lower(name);
        if i > 0 { assert items[1..][i - 1].alias.Some?; }
      }
    }
  }

  lemma ClashesIff(alias: string, items: seq<Item>, e: Expr)
    ensures Clashes(alias, OutputAliases(items), e) <==> Ambiguous(alias, items, e)
  {
    hide Columns; hide Subs; hide Lower; hide OutputAliases; hide HeadsItem;
    forall c ensures c in Columns(e) <==> c in Subs(e) && c.Column? { ColumnsIff(e, c); }
    forall c: Expr | c.Column?
      ensures NamesAlias(alias, OutputAliases(items), c)
              <==> match c.table case None => HeadsItem(items, c.name) case Some(table) => table != alias && HeadsItem(items, table)
    {
      AliasesIff(items, if c.table.Some? then c.table.value else c.name);
    }
  }

  function OutputAliases(items: seq<Item>): seq<string> {
    if items == [] then []
    else (if items[0].alias.Some? then [Lower(items[0].alias.value)] else []) + OutputAliases(items[1..])
  }

  // ----- splitting WHERE -----

  /** `SELECT * FROM base WHERE e`, through which a leaf is translated. */
  function ProbeSelect(source: Source, e: Expr): Select {
    Select([Item(Star(None, false), None, false)], [source], Some(e), [], false, None, [], None, false)
  }

  /** Literal equality and list membership only; other filters stay in SQL. */
  function LeafFilter(source: Source, db: Option<string>, e: Expr): Option<Filter> {
    if !(e.Compare? && e.op == Eq) && !e.ListContains? then None
    else
      match HeaderOf(ProbeSelect(source, e), db)
      case Rejected => None
      case Ok(h) =>
        match MatchFilter(h.scope, e)
        case Ok(filter) => if filter.FieldEq? || filter.ElemEq? then Some(filter) else None
        case Rejected => None
  }

  function Pushable(source: Source, db: Option<string>, e: Expr): Option<Filter> {
    match e
    case Paren(x) => Pushable(source, db, x)
    case And(l, r) =>
      var a, b := Pushable(source, db, l), Pushable(source, db, r);
      if a.Some? && b.Some? then Some(AndF([a.value, b.value])) else None
    case Or(l, r) =>
      var a, b := Pushable(source, db, l), Pushable(source, db, r);
      if a.Some? && b.Some? then Some(OrF([a.value, b.value])) else None
    case _ => LeafFilter(source, db, e)
  }

  datatype Split = Split(filters: seq<Filter>, residual: Option<Expr>)

  /** Conjuncts that can be pushed become filters; what is left is the residual condition. */
  function SplitOf(source: Source, db: Option<string>, e: Expr): Split {
    var filter := Pushable(source, db, e);
    if filter.Some? then Split([filter.value], None)
    else match e
      case Paren(x) =>
        var s := SplitOf(source, db, x);
        Split(s.filters, if s.residual.Some? then Some(Paren(s.residual.value)) else None)
      case And(l, r) =>
        var a, b := SplitOf(source, db, l), SplitOf(source, db, r);
        Split(a.filters + b.filters,
              if a.residual.Some? && b.residual.Some? then Some(And(a.residual.value, b.residual.value))
              else if a.residual.Some? then a.residual else b.residual)
      case _ => Split([], Some(e))
  }

  // ----- meaning -----

  /**
   * The SQL engine behind the residual. A condition or value it evaluates is any function of the fields the expression
   * reads; an expression that mentions a select-list alias may depend on anything.
   */
  datatype Engine = Engine(condition: (Expr, Doc) -> Truth, aliased: (Expr, Doc) -> Truth, value: (Expr, Doc) -> Value)

  /** The stored field that a column name denotes for an engine that ignores case; the name itself when there is none. */
  ghost function StoredName(name: string, d: Doc): (f: string)
    ensures (exists g | g in d :: Lower(g) == Lower(name)) ==> f in d && Lower(f) == Lower(name)
  {
    if exists g | g in d :: Lower(g) == Lower(name) then (var g :| g in d && Lower(g) == Lower(name); g) else name
  }

  /** The document as the engine sees it under the names of a query. */
  ghost function Seen(d: Doc, names: set<string>): Doc {
    map n | n in names && StoredName(n, d) in d :: d[StoredName(n, d)]
  }

  /** The name is spelled as the stored field it denotes. */
  ghost predicate Spelled(name: string, d: Doc) { forall f | f in d && Lower(f) == Lower(name) :: f == name }

  ghost predicate AllSpelled(names: seq<string>, d: Doc) { forall i | 0 <= i < |names| :: Spelled(names[i], d) }

  datatype Context = Context(source: Source, db: Option<string>, alias: string, items: seq<Item>)

  function LeafScope(alias: string): Scope { Scope(alias, [], true, [], false) }

  ghost function LeafTruth(cx: Context, e: Expr, d: Doc): Truth { SqlTruth(LeafScope(cx.alias), e, Row(Seen(d, ReadSet(cx.alias, e)))) }

  ghost function Truth3(en: Engine, cx: Context, e: Expr, d: Doc): Truth {
    match e
    case Paren(x) => Truth3(en, cx, x, d)
    case And(l, r) => And3(Truth3(en, cx, l, d), Truth3(en, cx, r, d))
    case Or(l, r) => Or3(Truth3(en, cx, l, d), Truth3(en, cx, r, d))
    case _ =>
      if Ambiguous(cx.alias, cx.items, e) then en.aliased(e, d)
      else if LeafFilter(cx.source, cx.db, e).Some? then LeafTruth(cx, e, d)
      else en.condition(e, Seen(d, ReadSet(cx.alias, e)))
  }

  /** An equality filter is not looking at an array that contains its literal. */
  predicate NoMember(filter: Option<Filter>, d: Doc) {
    filter.Some? && filter.value.FieldEq? ==>
      !(Read(d, filter.value.field).Arr? && filter.value.v in Read(d, filter.value.field).items)
  }

  /** The same of every leaf of a pushed condition. */
  predicate NoMembers(cx: Context, e: Expr, d: Doc) {
    match e
    case Paren(x) => NoMembers(cx, x, d)
    case And(l, r) => NoMembers(cx, l, d) && NoMembers(cx, r, d)
    case Or(l, r) => NoMembers(cx, l, d) && NoMembers(cx, r, d)
    case _ => NoMember(LeafFilter(cx.source, cx.db, e), d)
  }

  /** The same of the conjuncts that are pushed; the residual may compare arrays as it likes. */
  predicate PushedWithoutMembers(cx: Context, e: Expr, d: Doc) {
    if Pushable(cx.source, cx.db, e).Some? then NoMembers(cx, e, d)
    else match e
      case Paren(x) => PushedWithoutMembers(cx, x, d)
      case And(l, r) => PushedWithoutMembers(cx, l, d) && PushedWithoutMembers(cx, r, d)
      case _ => true
  }

  /** The pushed conjuncts name their fields as the document does. */
  ghost predicate PushedSpelled(cx: Context, e: Expr, d: Doc) {
    if Pushable(cx.source, cx.db, e).Some? then AllSpelled(Reads(cx.alias, e), d)
    else match e
      case Paren(x) => PushedSpelled(cx, x, d)
      case And(l, r) => PushedSpelled(cx, l, d) && PushedSpelled(cx, r, d)
      case _ => true
  }

  /** The columns of a conjunct are columns of the conjunction. */
  lemma AmbiguousParts(alias: string, items: seq<Item>, e: Expr)
    requires !Ambiguous(alias, items, e)
    ensures e.Paren? ==> !Ambiguous(alias, items, e.e)
    ensures e.And? || e.Or? ==> !Ambiguous(alias, items, e.l) && !Ambiguous(alias, items, e.r)
  {
    hide Subs; hide HeadsItem;
    if e.Paren? { SubsOfChild(e, e.e); }
    if e.And? || e.Or? { SubsOfChild(e, e.l); SubsOfChild(e, e.r); }
  }

  lemma ProbeScope(source: Source, db: Option<string>, e: Expr)
    requires HeaderOf(ProbeSelect(source, e), db).Ok?
    ensures source.Table?
    ensures HeaderOf(ProbeSelect(source, e), db).value.scope.qualifier == if source.alias.Some? then source.alias.value else source.name
  {
  }

  ghost predicate ForSource(cx: Context) {
    cx.source.Table? && cx.alias == if cx.source.alias.Some? then cx.source.alias.value else cx.source.name
  }

  ghost predicate Covers(keep: seq<string>, fields: seq<string>) { forall i | 0 <= i < |fields| :: fields[i] in keep }

  lemma RestrictTwice(d: Doc, keep: seq<string>, fields: seq<string>)
    requires Covers(keep, fields)
    ensures Restrict(Restrict(d, keep), fields) == Restrict(d, fields)
  {
  }

  lemma ReadsParts(alias: string, e: Expr, keep: seq<string>)
    requires Covers(keep, Reads(alias, e))
    ensures e.Paren? ==> Covers(keep, Reads(alias, e.e))
    ensures e.And? || e.Or? ==> Covers(keep, Reads(alias, e.l)) && Covers(keep, Reads(alias, e.r))
  {
    if e.And? || e.Or? {
      forall i | 0 <= i < |Reads(alias, e.l)| ensures Reads(alias, e.l)[i] in keep { assert Reads(alias, e)[i] == Reads(alias, e.l)[i]; }
      forall i | 0 <= i < |Reads(alias, e.r)| ensures Reads(alias, e.r)[i] in keep {
        assert Reads(alias, e)[|Reads(alias, e.l)| + i] == Reads(alias, e.r)[i];
      }
    }
  }

  lemma SeenSpelled(d: Doc, names: seq<string>)
    requires AllSpelled(names, d)
    ensures Seen(d, set n | n in names) == Restrict(d, names)
  {
    hide Lower;
    forall n | n in names ensures StoredName(n, d) == n {
      var i :| 0 <= i < |names| && names[i] == n;
      assert Spelled(names[i], d);
    }
  }

  lemma ReadsAsSet(alias: string, e: Expr)
    ensures ReadSet(alias, e) == set n | n in Reads(alias, e)
  {
    hide Reads; hide ReadSet;
  }

  /** What an expression sees of a document is unchanged by a projection that keeps what it reads. */
  lemma SeenTwice(d: Doc, keep: seq<string>, alias: string, e: Expr)
    requires Covers(keep, Reads(alias, e)) && AllSpelled(keep, d)
    ensures Seen(Restrict(d, keep), ReadSet(alias, e)) == Seen(d, ReadSet(alias, e))
  {
    hide Lower; hide Reads; hide ReadSet; hide Seen;
    var names := Reads(alias, e);
    ReadsAsSet(alias, e);
    forall i | 0 <= i < |names| ensures Spelled(names[i], d) && Spelled(names[i], Restrict(d, keep)) {
      assert names[i] in keep;
      var k :| 0 <= k < |keep| && keep[k] == names[i];
      assert Spelled(keep[k], d);
    }
    SeenSpelled(d, names);
    SeenSpelled(Restrict(d, keep), names);
    RestrictTwice(d, keep, names);
  }

  lemma {:induction false} LiteralHasNoColumns(e: Expr)
    requires Literal(e).Ok?
    ensures Columns(e) == []
  {
    if e.Neg? { LiteralHasNoColumns(e.e); }
  }

  /** What SQL says of a leaf filter's condition when its column has value `x`. */
  function FilterTruth(filter: Filter, x: Value): Truth
    requires filter.FieldEq? || filter.ElemEq?
  {
    if filter.FieldEq? then Compare3(Eq, x, filter.v) else ListContains3(x, filter.v)
  }

  lemma OneRead(alias: string, e: Expr, c: Expr)
    requires c.Column? && Columns(e) == [c]
    ensures Reads(alias, e) == [ColumnField(alias, c)]
  {
    hide Columns;
    ColumnsAreColumns(e);
    var fields := FieldsOf(alias, Columns(e));
    assert |fields| == 1 && fields[0] == ColumnField(alias, Columns(e)[0]);
  }

  lemma ListLeafIs(cx: Context, e: Expr, row: Doc)
    requires ForSource(cx) && e.ListContains? && LeafFilter(cx.source, cx.db, e).Some?
    ensures var filter := LeafFilter(cx.source, cx.db, e).value;
            && filter.ElemEq? && !filter.v.Null? && Reads(cx.alias, e) == [filter.field]
            && SqlTruth(LeafScope(cx.alias), e, Row(row)) == FilterTruth(filter, Read(row, filter.field))
  {
    ProbeScope(cx.source, cx.db, e);
    LiteralDenotes(e.args[1]);
    LiteralHasNoColumns(e.args[1]);
    assert e.args[1..] == [e.args[1]] && e.args[1..][1..] == [];
    assert ColumnsAll(e.args[1..]) == Columns(e.args[1]) + ColumnsAll([]);
    assert Columns(e.args[0]) == [e.args[0]] && [e.args[0]] + ([] + []) == [e.args[0]];
    OneRead(cx.alias, e, e.args[0]);
  }

  lemma CompareLeafIs(cx: Context, e: Expr, row: Doc)
    requires ForSource(cx) && e.Compare? && LeafFilter(cx.source, cx.db, e).Some?
    ensures var filter := LeafFilter(cx.source, cx.db, e).value;
            && filter.FieldEq? && Scalar(filter.v) && !filter.v.Null? && Reads(cx.alias, e) == [filter.field]
            && SqlTruth(LeafScope(cx.alias), e, Row(row)) == FilterTruth(filter, Read(row, filter.field))
  {
    hide HeaderOf; hide Reads; hide ReadSet;
    ProbeScope(cx.source, cx.db, e);
    var constant := if e.l.Column? then e.r else e.l;
    LiteralDenotes(constant);
    LiteralHasNoColumns(constant);
    OneRead(cx.alias, e, if e.l.Column? then e.l else e.r);
  }

  /** A pushable leaf reads one column and compares it with a literal. */
  lemma LeafIs(cx: Context, e: Expr, row: Doc)
    requires ForSource(cx) && LeafFilter(cx.source, cx.db, e).Some?
    ensures var filter := LeafFilter(cx.source, cx.db, e).value;
            && (filter.FieldEq? || filter.ElemEq?) && !filter.v.Null? && (filter.FieldEq? ==> Scalar(filter.v))
            && Reads(cx.alias, e) == [filter.field]
            && SqlTruth(LeafScope(cx.alias), e, Row(row)) == FilterTruth(filter, Read(row, filter.field))
  {
    hide HeaderOf; hide MatchFilter; hide SqlTruth; hide Reads;
    if e.ListContains? { ListLeafIs(cx, e, row); } else { CompareLeafIs(cx, e, row); }
  }

  /** The value a leaf's column has for the engine. */
  lemma LeafTruthIs(cx: Context, e: Expr, d: Doc)
    requires ForSource(cx) && LeafFilter(cx.source, cx.db, e).Some?
    ensures var filter := LeafFilter(cx.source, cx.db, e).value;
            && (filter.FieldEq? || filter.ElemEq?)
            && LeafTruth(cx, e, d) == FilterTruth(filter, Read(Seen(d, {filter.field}), filter.field))
  {
    hide LeafFilter; hide Reads; hide Seen; hide SqlTruth; hide FilterTruth;
    LeafIs(cx, e, map[]);
    LeafIs(cx, e, Seen(d, ReadSet(cx.alias, e)));
    ReadsAsSet(cx.alias, e);
    assert ReadSet(cx.alias, e) == {LeafFilter(cx.source, cx.db, e).value.field};
  }

  /**
   * On a document that has the field under the leaf's spelling, a pushed leaf matches whenever SQL says TRUE, and only then
   * unless an array contains the literal.
   */
  lemma LeafDenotes(cx: Context, e: Expr, d: Doc)
    requires ForSource(cx) && LeafFilter(cx.source, cx.db, e).Some? && AllSpelled(Reads(cx.alias, e), d)
    ensures LeafTruth(cx, e, d) == True ==> Matches(LeafFilter(cx.source, cx.db, e).value, d)
    ensures (Matches(LeafFilter(cx.source, cx.db, e).value, d) <==> LeafTruth(cx, e, d) == True)
            <==> NoMember(LeafFilter(cx.source, cx.db, e), d)
  {
    hide LeafFilter; hide Reads; hide Seen; hide SqlTruth; hide LeafTruth; hide Lower;
    var filter := LeafFilter(cx.source, cx.db, e).value;
    LeafIs(cx, e, d);
    LeafTruthIs(cx, e, d);
    SeenSpelled(d, [filter.field]);
    assert filter.field in [filter.field] && (set n | n in [filter.field]) == {filter.field};
    assert Read(Restrict(d, [filter.field]), filter.field) == Read(d, filter.field);
    if filter.ElemEq? { ElemEqDenotes(filter.field, filter.v, d); } else { FieldEqFaithfulIff(filter.field, filter.v, d); }
  }

  /** No two of the names differ in case only. */
  ghost predicate CaseDistinct(names: set<string>) { forall f, g | f in names && g in names && Lower(f) == Lower(g) :: f == g }

  /**
   * Among documents with the fields `names`, a pushed leaf agrees with SQL on all (but for arrays that contain an equality's
   * literal) exactly when no stored name differs from the leaf's in case only.
   */
  lemma LeafSpelledIff(cx: Context, e: Expr, names: set<string>)
    requires ForSource(cx) && LeafFilter(cx.source, cx.db, e).Some? && CaseDistinct(names)
    ensures var filter := LeafFilter(cx.source, cx.db, e);
            (forall d: Doc | d.Keys == names && NoMember(filter, d) :: Matches(filter.value, d) <==> LeafTruth(cx, e, d) == True)
            <==> forall f | f in names && Lower(f) == Lower(filter.value.field) :: f == filter.value.field
  {
    hide LeafFilter; hide Reads; hide LeafTruth; hide Lower; hide Matches; hide SqlTruth; hide Seen;
    var filter := LeafFilter(cx.source, cx.db, e).value;
    LeafIs(cx, e, map[]);
    if forall f | f in names && Lower(f) == Lower(filter.field) :: f == filter.field {
      forall d: Doc | d.Keys == names && NoMember(Some(filter), d) ensures Matches(filter, d) <==> LeafTruth(cx, e, d) == True {
        assert Spelled([filter.field][0], d);
        LeafDenotes(cx, e, d);
      }
    } else {
      var f :| f in names && Lower(f) == Lower(filter.field) && f != filter.field;
      assert filter.field !in names;
      var d := MisspelledDiffers(cx, e, names, f);
    }
  }

  lemma MisspelledDiffers(cx: Context, e: Expr, names: set<string>, f: string) returns (d: Doc)
    requires ForSource(cx) && LeafFilter(cx.source, cx.db, e).Some? && CaseDistinct(names)
    requires var name := LeafFilter(cx.source, cx.db, e).value.field; f in names && Lower(f) == Lower(name) && name !in names
    ensures d.Keys == names && NoMember(LeafFilter(cx.source, cx.db, e), d)
    ensures !Matches(LeafFilter(cx.source, cx.db, e).value, d) && LeafTruth(cx, e, d) == True
  {
    hide LeafFilter; hide Reads; hide LeafTruth; hide Lower; hide SqlTruth;
    var filter := LeafFilter(cx.source, cx.db, e).value;
    LeafIs(cx, e, map[]);
    var v := if filter.FieldEq? then filter.v else Arr([filter.v]);
    d := map n | n in names :: v;
    assert filter.v in [filter.v];
    LeafTruthIs(cx, e, d);
    assert f in d;
    assert d.Keys == names;
    assert Read(Seen(d, {filter.field}), filter.field) == v;
  }

  lemma SpelledParts(alias: string, e: Expr, d: Doc)
    requires AllSpelled(Reads(alias, e), d)
    ensures e.Paren? ==> AllSpelled(Reads(alias, e.e), d)
    ensures e.And? || e.Or? ==> AllSpelled(Reads(alias, e.l), d) && AllSpelled(Reads(alias, e.r), d)
  {
    hide Lower;
    if e.And? || e.Or? {
      forall i | 0 <= i < |Reads(alias, e.l)| ensures Spelled(Reads(alias, e.l)[i], d) { assert Reads(alias, e)[i] == Reads(alias, e.l)[i]; }
      forall i | 0 <= i < |Reads(alias, e.r)| ensures Spelled(Reads(alias, e.r)[i], d) {
        assert Reads(alias, e)[|Reads(alias, e.l)| + i] == Reads(alias, e.r)[i];
      }
    }
  }

  lemma {:induction false} PushedDenotes(en: Engine, cx: Context, e: Expr, d: Doc)
    requires ForSource(cx) && Pushable(cx.source, cx.db, e).Some? && !Ambiguous(cx.alias, cx.items, e)
    requires AllSpelled(Reads(cx.alias, e), d)
    ensures Truth3(en, cx, e, d) == True ==> Matches(Pushable(cx.source, cx.db, e).value, d)
    ensures NoMembers(cx, e, d) ==> (Matches(Pushable(cx.source, cx.db, e).value, d) <==> Truth3(en, cx, e, d) == True)
  {
    AmbiguousParts(cx.alias, cx.items, e);
    SpelledParts(cx.alias, e, d);
    match e
    case Paren(x) => PushedDenotes(en, cx, x, d);
    case And(l, r) =>
      PushedDenotes(en, cx, l, d);
      PushedDenotes(en, cx, r, d);
      MatchesPair(Pushable(cx.source, cx.db, l).value, Pushable(cx.source, cx.db, r).value, d);
    case Or(l, r) =>
      PushedDenotes(en, cx, l, d);
      PushedDenotes(en, cx, r, d);
      MatchesPair(Pushable(cx.source, cx.db, l).value, Pushable(cx.source, cx.db, r).value, d);
    case _ => LeafDenotes(cx, e, d);
  }

  lemma {:induction false} MatchesAllAppend(p: seq<Filter>, q: seq<Filter>, d: Doc)
    ensures MatchesAll(p + q, d) <==> MatchesAll(p, d) && MatchesAll(q, d)
  {
    if p == [] {
      assert p + q == q;
    } else {
      assert (p + q)[0] == p[0] && (p + q)[1..] == p[1..] + q;
      MatchesAllAppend(p[1..], q, d);
    }
  }

  lemma OneFilter(filter: Filter, d: Doc)
    ensures MatchesAll([filter], d) <==> Matches(filter, d)
  {
    assert [filter][1..] == [];
    assert MatchesAll([], d);
  }

  /** What the plan asks of a row: all pushed filters match and the residual is TRUE. */
  ghost predicate Passes(en: Engine, cx: Context, s: Split, d: Doc) {
    MatchesAll(s.filters, d) && (s.residual.None? || Truth3(en, cx, s.residual.value, d) == True)
  }

  /** Pushdown drops no row of the condition, and keeps no other one unless a pushed equality meets an array with its literal. */
  lemma {:induction false} SplitDenotes(en: Engine, cx: Context, e: Expr, d: Doc)
    requires ForSource(cx) && !Ambiguous(cx.alias, cx.items, e) && PushedSpelled(cx, e, d)
    ensures Truth3(en, cx, e, d) == True ==> Passes(en, cx, SplitOf(cx.source, cx.db, e), d)
    ensures PushedWithoutMembers(cx, e, d) ==> (Truth3(en, cx, e, d) == True <==> Passes(en, cx, SplitOf(cx.source, cx.db, e), d))
  {
    hide LeafFilter; hide LeafTruth; hide Matches; hide Ambiguous; hide AllSpelled; hide Reads; hide NoMembers;
    AmbiguousParts(cx.alias, cx.items, e);
    if Pushable(cx.source, cx.db, e).Some? {
      OneFilter(Pushable(cx.source, cx.db, e).value, d);
      PushedDenotes(en, cx, e, d);
    } else {
      match e
      case Paren(x) => SplitDenotes(en, cx, x, d);
      case And(l, r) =>
        SplitDenotes(en, cx, l, d);
        SplitDenotes(en, cx, r, d);
        MatchesAllAppend(SplitOf(cx.source, cx.db, l).filters, SplitOf(cx.source, cx.db, r).filters, d);
      case _ =>
    }
  }

  // ----- the residual on projected documents -----

  lemma {:induction false} TruthOnProjection(en: Engine, cx: Context, e: Expr, d: Doc, keep: seq<string>)
    requires !Ambiguous(cx.alias, cx.items, e) && Covers(keep, Reads(cx.alias, e)) && AllSpelled(keep, d)
    ensures Truth3(en, cx, e, Restrict(d, keep)) == Truth3(en, cx, e, d)
  {
    AmbiguousParts(cx.alias, cx.items, e);
    ReadsParts(cx.alias, e, keep);
    match e
    case Paren(x) => TruthOnProjection(en, cx, x, d, keep);
    case And(l, r) => TruthOnProjection(en, cx, l, d, keep); TruthOnProjection(en, cx, r, d, keep);
    case Or(l, r) => TruthOnProjection(en, cx, l, d, keep); TruthOnProjection(en, cx, r, d, keep);
    case _ =>
      SeenTwice(d, keep, cx.alias, e);
  }

  // ----- the plan -----

  /** `fields` are the stored columns the rewritten SELECT reads. */
  datatype Plan = Plan(query: Query, residual: Option<Expr>, fields: seq<string>)

  function ItemExprs(items: seq<Item>): (r: seq<Expr>)
    ensures |r| == |items| && forall i | 0 <= i < |r| :: r[i] == items[i].expr
  {
    seq(|items|, i requires 0 <= i < |items| => items[i].expr)
  }

  function ContextOf(base: Base, db: Option<string>): Context
    requires base.source.Table?
  {
    Context(base.source, db, base.Alias(), base.items)
  }

  /** What is left of the base SELECT once its WHERE is rewritten. */
  function Rewritten(base: Base, residual: Option<Expr>): seq<Expr> {
    ItemExprs(base.items) + (if residual.Some? then [residual.value] else []) + base.later
  }

  function AllReads(alias: string, es: seq<Expr>): seq<string> {
    if es == [] then [] else Reads(alias, es[0]) + AllReads(alias, es[1..])
  }

  /** Some of the expressions reads the field, at whatever depth. */
  ghost predicate ReadBySome(alias: string, es: seq<Expr>, f: string) { exists i :: 0 <= i < |es| && f in ReadSet(alias, es[i]) }

  lemma {:induction false} AllReadsIff(alias: string, es: seq<Expr>, f: string)
    ensures f in AllReads(alias, es) <==> ReadBySome(alias, es, f)
  {
    hide Reads; hide ReadSet;
    if es != [] {
      AllReadsIff(alias, es[1..], f);
      if i :| 0 <= i < |es[1..]| && f in ReadSet(alias, es[1..][i]) { assert f in ReadSet(alias, es[i + 1]); }
      if i :| 0 <= i < |es| && f in ReadSet(alias, es[i]) { if i > 0 { assert f in ReadSet(alias, es[1..][i - 1]); } }
    }
  }

  function AsOne(filters: seq<Filter>): Filter { if |filters| == 1 then filters[0] else AndF(filters) }

  function PlanOf(base: Base, db: Option<string>): Option<Plan> {
    if !base.source.Table? || base.source.decorated then None
    else
      var cx := ContextOf(base, db);
      if exists e | e in [base.condition] + base.later :: Clashes(cx.alias, OutputAliases(base.items), e) then None
      else
        var s := SplitOf(base.source, db, base.condition);
        if s.filters == [] then None
        else
          var es := Rewritten(base, s.residual);
          var fields, star := Distinct(AllReads(cx.alias, es)), HasStarAny(es);
          var database := if base.source.schema.Some? then base.source.schema else db;
          if database.None? || database.value == "" || (fields == [] && !star) then None
          else Some(Plan(Find(Target(database.value, base.source.name), AsOne(s.filters), if star then None else Some(fields), []),
                         s.residual, fields))
  }

  // ----- the answer is kept -----

  /** What the rest of the base SELECT sees of a row: the value of every select-list and later expression. */
  ghost function RowValues(en: Engine, alias: string, es: seq<Expr>, d: Doc): (r: seq<Value>)
    ensures |r| == |es|
  {
    if es == [] then []
    else [en.value(es[0], if Starred(es[0]) then d else Seen(d, ReadSet(alias, es[0])))] + RowValues(en, alias, es[1..], d)
  }

  /** The rows that survive WHERE, in order; grouping, ordering, limits and the CTE chain are functions of these. */
  ghost function Survivors(en: Engine, cx: Context, cond: Option<Expr>, es: seq<Expr>, docs: seq<Doc>): seq<seq<Value>> {
    if docs == [] then []
    else
      (if cond.None? || Truth3(en, cx, cond.value, docs[0]) == True then [RowValues(en, cx.alias, es, docs[0])] else [])
      + Survivors(en, cx, cond, es, docs[1..])
  }

  lemma {:induction false} AllReadsCover(alias: string, es: seq<Expr>, i: nat, keep: seq<string>)
    requires i < |es| && Covers(keep, AllReads(alias, es))
    ensures Covers(keep, Reads(alias, es[i]))
  {
    var first, rest := Reads(alias, es[0]), AllReads(alias, es[1..]);
    assert AllReads(alias, es) == first + rest;
    if i == 0 {
      forall k | 0 <= k < |first| ensures first[k] in keep { assert (first + rest)[k] == first[k]; }
    } else {
      forall k | 0 <= k < |rest| ensures rest[k] in keep { assert (first + rest)[|first| + k] == rest[k]; }
      AllReadsCover(alias, es[1..], i - 1, keep);
    }
  }

  lemma {:induction false} NoStarAt(es: seq<Expr>, i: nat)
    requires i < |es| && !HasStarAny(es)
    ensures !HasStar(es[i])
  {
    if i > 0 { NoStarAt(es[1..], i - 1); }
  }

  lemma {:induction false} ValuesOnProjection(en: Engine, alias: string, es: seq<Expr>, d: Doc, keep: seq<string>)
    requires AllSpelled(keep, d) && forall i | 0 <= i < |es| :: !Starred(es[i]) && Covers(keep, Reads(alias, es[i]))
    ensures RowValues(en, alias, es, Restrict(d, keep)) == RowValues(en, alias, es, d)
  {
    if es != [] {
      SeenTwice(d, keep, alias, es[0]);
      ValuesOnProjection(en, alias, es[1..], d, keep);
    }
  }

  /** How a plan treats one document: it is fetched, projected, and passes the residual exactly when WHERE holds of it. */
  ghost predicate Faithful(en: Engine, cx: Context, cond: Expr, filter: Filter, keep: Option<seq<string>>, residual: Option<Expr>,
                           es: seq<Expr>, d: Doc) {
    var p := if keep.None? then d else Restrict(d, keep.value);
    && (Truth3(en, cx, cond, d) == True
        <==> Matches(filter, d) && (residual.None? || Truth3(en, cx, residual.value, p) == True))
    && RowValues(en, cx.alias, es, p) == RowValues(en, cx.alias, es, d)
  }

  lemma FaithfulRow(en: Engine, cx: Context, cond: Expr, filter: Filter, keep: Option<seq<string>>, residual: Option<Expr>,
                    es: seq<Expr>, d: Doc)
    requires Faithful(en, cx, cond, filter, keep, residual, es, d)
    ensures var p := if keep.None? then d else Restrict(d, keep.value);
            && (Truth3(en, cx, cond, d) == True
                <==> Matches(filter, d) && (residual.None? || Truth3(en, cx, residual.value, p) == True))
            && RowValues(en, cx.alias, es, p) == RowValues(en, cx.alias, es, d)
  {
  }

  lemma {:induction false} FaithfulRows(en: Engine, cx: Context, cond: Expr, filter: Filter, keep: Option<seq<string>>,
                                        residual: Option<Expr>, es: seq<Expr>, docs: seq<Doc>)
    requires forall i | 0 <= i < |docs| :: Faithful(en, cx, cond, filter, keep, residual, es, docs[i])
    ensures Survivors(en, cx, Some(cond), es, docs) == Survivors(en, cx, residual, es, Restricted(keep, Matching(filter, docs)))
  {
    hide Faithful; hide Matches; hide Truth3; hide RowValues;
    if docs != [] {
      FaithfulRows(en, cx, cond, filter, keep, residual, es, docs[1..]);
      FaithfulRow(en, cx, cond, filter, keep, residual, es, docs[0]);
      var kept, rest := Matching(filter, docs), Matching(filter, docs[1..]);
      if Matches(filter, docs[0]) {
        assert Restricted(keep, kept)[1..] == Restricted(keep, rest);
      }
    }
  }

  lemma AsOneMatches(filters: seq<Filter>, d: Doc)
    requires filters != []
    ensures Matches(AsOne(filters), d) <==> MatchesAll(filters, d)
  {
    if |filters| == 1 { assert filters[1..] == []; }
  }

  lemma {:induction false} SplitUnambiguous(cx: Context, e: Expr)
    requires !Ambiguous(cx.alias, cx.items, e)
    ensures var s := SplitOf(cx.source, cx.db, e);
            s.residual.Some? ==> !Ambiguous(cx.alias, cx.items, s.residual.value)
  {
    AmbiguousParts(cx.alias, cx.items, e);
    if Pushable(cx.source, cx.db, e).None? {
      match e
      case Paren(x) => SplitUnambiguous(cx, x);
      case And(l, r) => SplitUnambiguous(cx, l); SplitUnambiguous(cx, r);
      case _ =>
    }
  }

  /** The names the plan puts into its filter and its projection are those of the document's fields. */
  ghost predicate PlanSpelled(base: Base, db: Option<string>, d: Doc)
    requires PlanOf(base, db).Some?
  {
    && PushedSpelled(ContextOf(base, db), base.condition, d)
    && (PlanOf(base, db).value.query.keep.Some? ==> AllSpelled(PlanOf(base, db).value.query.keep.value, d))
  }

  /** The projection keeps what the select list, the later clauses and the residual read. */
  lemma KeepCovers(base: Base, db: Option<string>)
    requires PlanOf(base, db).Some? && PlanOf(base, db).value.query.keep.Some?
    ensures var plan, cx, rest := PlanOf(base, db).value, ContextOf(base, db), ItemExprs(base.items) + base.later;
            && (forall i | 0 <= i < |rest| :: !Starred(rest[i]) && Covers(plan.query.keep.value, Reads(cx.alias, rest[i])))
            && (plan.residual.Some? ==> Covers(plan.query.keep.value, Reads(cx.alias, plan.residual.value)))
  {
    hide SplitOf; hide Clashes; hide Reads; hide AsOne; hide HasStar; hide Starred; hide Covers; hide OutputAliases;
    var plan, cx := PlanOf(base, db).value, ContextOf(base, db);
    var keep, es, rest := plan.query.keep.value, Rewritten(base, plan.residual), ItemExprs(base.items) + base.later;
    DistinctCovers(AllReads(cx.alias, es));
    forall i | 0 <= i < |es| ensures !Starred(es[i]) && Covers(keep, Reads(cx.alias, es[i])) {
      NoStarAt(es, i);
      StarIff(es[i]);
      AllReadsCover(cx.alias, es, i, keep);
    }
    var n, m := |base.items|, if plan.residual.Some? then 1 else 0;
    forall i | 0 <= i < |rest| ensures !Starred(rest[i]) && Covers(keep, Reads(cx.alias, rest[i])) {
      assert rest[i] == es[if i < n then i else i + m];
    }
    if plan.residual.Some? { assert es[n] == plan.residual.value; }
  }

  lemma DistinctCovers(names: seq<string>)
    ensures Covers(Distinct(names), names)
  {
  }

  /** The parts of a plan. */
  lemma PlanShape(base: Base, db: Option<string>)
    requires PlanOf(base, db).Some?
    ensures var plan, cx, s := PlanOf(base, db).value, ContextOf(base, db), SplitOf(base.source, db, base.condition);
            && plan.query.Find? && plan.query.sort == [] && plan.query.filter == AsOne(s.filters) && s.filters != []
            && plan.residual == s.residual && ForSource(cx) && cx.source == base.source && cx.db == db
            && !Ambiguous(cx.alias, cx.items, base.condition)
  {
    hide SplitOf; hide Ambiguous; hide Clashes; hide AsOne; hide AllReads; hide HasStarAny; hide OutputAliases; hide Distinct;
    assert base.condition in [base.condition] + base.later;
    ClashesIff(base.Alias(), base.items, base.condition);
  }

  lemma PlanFaithful(en: Engine, base: Base, db: Option<string>, d: Doc)
    requires PlanOf(base, db).Some? && PlanSpelled(base, db, d) && PushedWithoutMembers(ContextOf(base, db), base.condition, d)
    ensures var plan, cx := PlanOf(base, db).value, ContextOf(base, db);
            Faithful(en, cx, base.condition, plan.query.filter, plan.query.keep, plan.residual, ItemExprs(base.items) + base.later, d)
  {
    hide PlanOf; hide ContextOf; hide SplitOf; hide Ambiguous; hide Covers; hide Reads; hide HasStar; hide AllSpelled; hide Truth3;
    hide AsOne; hide PushedSpelled; hide PushedWithoutMembers; hide Matches; hide RowValues; hide Restrict;
    PlanShape(base, db);
    var plan, cx := PlanOf(base, db).value, ContextOf(base, db);
    var s := SplitOf(base.source, db, base.condition);
    SplitDenotes(en, cx, base.condition, d);
    SplitUnambiguous(cx, base.condition);
    AsOneMatches(s.filters, d);
    if plan.query.keep.Some? {
      KeepCovers(base, db);
      ValuesOnProjection(en, cx.alias, ItemExprs(base.items) + base.later, d, plan.query.keep.value);
      if s.residual.Some? { TruthOnProjection(en, cx, s.residual.value, d, plan.query.keep.value); }
    }
  }

  /**
   * The optimisation does not change the answer: for every base SELECT that gets a plan, running the rewritten SELECT on
   * the filtered, projected documents yields the rows of the original SELECT on all documents, in the same order.
   */
  lemma PushdownKeepsAnswer(en: Engine, base: Base, db: Option<string>, docs: seq<Doc>)
    requires PlanOf(base, db).Some?
    requires forall i | 0 <= i < |docs| :: PlanSpelled(base, db, docs[i]) && PushedWithoutMembers(ContextOf(base, db), base.condition, docs[i])
    ensures var plan, cx, es := PlanOf(base, db).value, ContextOf(base, db), ItemExprs(base.items) + base.later;
            Survivors(en, cx, Some(base.condition), es, docs) == Survivors(en, cx, plan.residual, es, Execute(plan.query, docs))
  {
    var plan, cx, es := PlanOf(base, db).value, ContextOf(base, db), ItemExprs(base.items) + base.later;
    forall i | 0 <= i < |docs|
      ensures Faithful(en, cx, base.condition, plan.query.filter, plan.query.keep, plan.residual, es, docs[i])
    {
      PlanFaithful(en, base, db, docs[i]);
    }
    FaithfulRows(en, cx, base.condition, plan.query.filter, plan.query.keep, plan.residual, es, docs);
    SortedNothing(Matching(plan.query.filter, docs));
  }

  /** `SELECT x FROM db.c WHERE x = 5` */
  const EXAMPLE_BASE: Base :=
    Base(Table(Some("db"), "c", None, false), [Item(Column(None, "x", false), None, false)],
         Compare(Eq, Column(None, "x", false), NumLit(5.0)), [])

  lemma MemberLeaf()
    ensures LeafFilter(EXAMPLE_BASE.source, None, EXAMPLE_BASE.condition) == Some(FieldEq("x", Num(5.0)))
  {
    var items, base := ProbeSelect(EXAMPLE_BASE.source, EXAMPLE_BASE.condition).items, Scope("c", [], false, [], false);
    assert items[1..] == [] && OutputsOf(base, []) == Ok([]);
    assert OutputOf(base, items[0]) == Ok(Output(Star(None, false), None, "*"));
    assert [Output(Star(None, false), None, "*")] + [] == [Output(Star(None, false), None, "*")];
    assert OutputsOf(base, items) == Ok([Output(Star(None, false), None, "*")]);
  }

  lemma MemberReads()
    ensures Distinct(AllReads("c", [Column(None, "x", false)])) == ["x"]
  {
    var x := Column(None, "x", false);
    assert Columns(x) == [x];
    assert Reads("c", x) == ["x"];
    assert [x][1..] == [] && AllReads("c", []) == [] && ["x"] + [] == ["x"];
    assert AllReads("c", [x]) == ["x"];
    assert ["x"][..0] == [] && Distinct(["x"][..0]) == [];
  }

  lemma MemberPlan()
    ensures PlanOf(EXAMPLE_BASE, None) == Some(Plan(Find(Target("db", "c"), FieldEq("x", Num(5.0)), Some(["x"]), []), None, ["x"]))
  {
    hide LeafFilter; hide Distinct; hide AllReads; hide HasStarAny; hide NamesAlias;
    MemberLeaf();
    MemberReads();
    var es := Rewritten(EXAMPLE_BASE, None);
    assert es == [Column(None, "x", false)];
    NoAlias(EXAMPLE_BASE.condition);
    NoStarColumn();
  }

  lemma NoAlias(e: Expr)
    ensures OutputAliases(EXAMPLE_BASE.items) == [] && !Clashes("c", [], e) && !Ambiguous("c", EXAMPLE_BASE.items, e)
  {
    hide Columns;
    assert EXAMPLE_BASE.items[1..] == [];
    ClashesIff("c", EXAMPLE_BASE.items, e);
  }

  lemma NoStarColumn()
    ensures !HasStarAny([Column(None, "x", false)])
  {
    assert [Column(None, "x", false)][1..] == [];
  }

  const MEMBER: Doc := map["x" := Arr([Num(5.0)])]

  /** The pushed equality fetches the document. */
  lemma MemberFetched()
    ensures Execute(Find(Target("db", "c"), FieldEq("x", Num(5.0)), Some(["x"]), []), [MEMBER]) == [Restrict(MEMBER, ["x"])]
  {
    hide Sorted;
    assert [MEMBER][1..] == [];
    assert Num(5.0) in [Num(5.0)];
    assert Matching(FieldEq("x", Num(5.0)), [MEMBER]) == [MEMBER];
    SortedNothing([MEMBER]);
  }

  lemma ExampleTruth(en: Engine, cx: Context, d: Doc)
    requires cx == ContextOf(EXAMPLE_BASE, None)
    ensures Truth3(en, cx, EXAMPLE_BASE.condition, d) == Compare3(Eq, Read(Seen(d, {"x"}), "x"), Num(5.0))
  {
    hide LeafFilter; hide NamesAlias; hide LeafTruth; hide Seen;
    MemberLeaf();
    NoAlias(EXAMPLE_BASE.condition);
    LeafTruthIs(cx, EXAMPLE_BASE.condition, d);
  }

  lemma MemberRefused(en: Engine, cx: Context)
    requires cx == ContextOf(EXAMPLE_BASE, None)
    ensures Truth3(en, cx, EXAMPLE_BASE.condition, MEMBER) == False
  {
    hide Truth3; hide ContextOf;
    ExampleTruth(en, cx, MEMBER);
    SeenSpelled(MEMBER, ["x"]);
    assert "x" in ["x"] && (set n | n in ["x"]) == {"x"};
  }

  lemma OneSurvivor(en: Engine, cx: Context, cond: Option<Expr>, es: seq<Expr>, d: Doc)
    ensures |Survivors(en, cx, cond, es, [d])| == if cond.None? || Truth3(en, cx, cond.value, d) == True then 1 else 0
  {
    hide Truth3; hide RowValues;
    assert [d][1..] == [];
  }

  /** On `{x: [5]}` the condition is not TRUE, but the pushed equality fetches the document and nothing is left to refuse it. */
  lemma MemberDiffers(en: Engine)
    ensures PlanOf(EXAMPLE_BASE, None).Some?
    ensures var plan, cx, es := PlanOf(EXAMPLE_BASE, None).value, ContextOf(EXAMPLE_BASE, None), ItemExprs(EXAMPLE_BASE.items);
            && |Survivors(en, cx, Some(EXAMPLE_BASE.condition), es, [MEMBER])| == 0
            && |Survivors(en, cx, plan.residual, es, Execute(plan.query, [MEMBER]))| == 1
  {
    hide PlanOf; hide Survivors; hide Truth3; hide Execute; hide ContextOf;
    MemberPlan();
    MemberFetched();
    var cx, es := ContextOf(EXAMPLE_BASE, None), ItemExprs(EXAMPLE_BASE.items);
    MemberRefused(en, cx);
    OneSurvivor(en, cx, Some(EXAMPLE_BASE.condition), es, MEMBER);
    OneSurvivor(en, cx, None, es, Restrict(MEMBER, ["x"]));
  }

  const UPPER: Doc := map["X" := Num(5.0)]

  /** The engine reads `x` from the field `X`. */
  lemma UpperSeen()
    ensures Seen(UPPER, {"x"}) == map["x" := Num(5.0)]
  {
    assert Lower("X") == "x" && Lower("x") == "x";
    assert "X" in UPPER;
    assert StoredName("x", UPPER) == "X";
  }

  lemma UpperMissed()
    ensures Execute(Find(Target("db", "c"), FieldEq("x", Num(5.0)), Some(["x"]), []), [UPPER]) == []
  {
    hide Sorted;
    assert [UPPER][1..] == [] && Read(UPPER, "x") == Null;
    assert Matching(FieldEq("x", Num(5.0)), [UPPER]) == [];
    SortedNothing([]);
  }

  /** On `{X: 5}` the condition is TRUE for the engine, which ignores case, but the pushed equality does not find the document. */
  lemma CaseDiffers(en: Engine)
    ensures PlanOf(EXAMPLE_BASE, None).Some?
    ensures var plan, cx, es := PlanOf(EXAMPLE_BASE, None).value, ContextOf(EXAMPLE_BASE, None), ItemExprs(EXAMPLE_BASE.items);
            && |Survivors(en, cx, Some(EXAMPLE_BASE.condition), es, [UPPER])| == 1
            && |Survivors(en, cx, plan.residual, es, Execute(plan.query, [UPPER]))| == 0
  {
    hide PlanOf; hide Truth3; hide Execute; hide ContextOf; hide Seen; hide RowValues;
    MemberPlan();
    UpperMissed();
    UpperSeen();
    var cx, es := ContextOf(EXAMPLE_BASE, None), ItemExprs(EXAMPLE_BASE.items);
    ExampleTruth(en, cx, UPPER);
    OneSurvivor(en, cx, Some(EXAMPLE_BASE.condition), es, UPPER);
  }

  // ----- the planner as it runs -----

  class Planner {
    const source: Source
    const db: Option<string>
    var filters: seq<Filter>

    constructor (source: Source, db: Option<string>)
      ensures filters == [] && this.source == source && this.db == db
    {
      this.source, this.db, filters := source, db, [];
    }

    /** Collects the pushable conjuncts of `e` and returns what remains of it. */
    method Remaining(e: Expr) returns (rest: Option<Expr>)
      modifies this
      ensures filters == old(filters) + SplitOf(source, db, e).filters
      ensures rest == SplitOf(source, db, e).residual
      decreases e
    {
      var filter := Pushable(source, db, e);
      if filter.Some? {
        filters := filters + [filter.value];
        return None;
      }
      match e {
        case Paren(x) =>
          var child := Remaining(x);
          rest := if child.Some? then Some(Paren(child.value)) else None;
        case And(l, r) =>
          var left := Remaining(l);
          var right := Remaining(r);
          rest := if left.Some? && right.Some? then Some(And(left.value, right.value)) else if left.Some? then left else right;
        case _ => rest := Some(e);
      }
    }
  }

  /** The visit over the rewritten SELECT that collects column names and notices a star. */
  method CollectFields(alias: string, es: seq<Expr>) returns (names: seq<string>, star: bool)
    ensures names == AllReads(alias, es) && star == HasStarAny(es)
    ensures forall f :: f in names <==> ReadBySome(alias, es, f)
    ensures star <==> exists e :: e in Elements(es) && Starred(e)
  {
    hide Reads; hide HasStar; hide Starred; hide ReadBySome;
    AnyStarIff(es);
    forall f ensures f in AllReads(alias, es) <==> ReadBySome(alias, es, f) { AllReadsIff(alias, es, f); }
    names, star := [], false;
    for i := 0 to |es|
      invariant names + AllReads(alias, es[i..]) == AllReads(alias, es)
      invariant star || HasStarAny(es[i..]) <==> HasStarAny(es)
    {
      assert es[i..][0] == es[i] && es[i..][1..] == es[i + 1..];
      names := names + Reads(alias, es[i]);
      star := star || HasStar(es[i]);
    }
    assert es[|es|..] == [];
  }

  method SplitCondition(base: Base, db: Option<string>) returns (s: Split)
    ensures s == SplitOf(base.source, db, base.condition)
  {
    var planner := new Planner(base.source, db);
    var residual := planner.Remaining(base.condition);
    s := Split(planner.filters, residual);
  }

  /** Plan one base SELECT; None leaves the query to a full scan. */
  method PlanSource(base: Base, db: Option<string>) returns (r: Option<Plan>)
    ensures r == PlanOf(base, db)
  {
    if !base.source.Table? || base.source.decorated { return None; }
    var cx := ContextOf(base, db);
    if exists e | e in [base.condition] + base.later :: Clashes(cx.alias, OutputAliases(base.items), e) { return None; }
    var s := SplitCondition(base, db);
    if s.filters == [] { return None; }
    var names, star := CollectFields(cx.alias, Rewritten(base, s.residual));
    var fields := Distinct(names);
    var database := if base.source.schema.Some? then base.source.schema else db;
    if database.None? || database.value == "" || (fields == [] && !star) { return None; }
    r := Some(Plan(Query.Find(Target(database.value, base.source.name), AsOne(s.filters), if star then None else Some(fields), []),
                   s.residual, fields));
  }
}
