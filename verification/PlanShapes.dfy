/** Which statements get a pushdown plan, what it pushes and what it fetches, said of the statement's parts. */
module PlanShapes {
  import opened Values
  import opened Partition
  import opened Sql
  import opened Mongo
  import opened Predicate
  import opened SelectQuery
  import opened Headers
  import opened Subexpressions
  import opened SourcePlan

  /** An expression of the rewritten base SELECT: of its select list, its residual WHERE, or a later clause. */
  ghost predicate InRewritten(base: Base, residual: Option<Expr>, e: Expr) {
    (exists i :: 0 <= i < |base.items| && base.items[i].expr == e) || residual == Some(e) || e in base.later
  }

  lemma RewrittenIff(base: Base, residual: Option<Expr>, e: Expr)
    ensures e in Rewritten(base, residual) <==> InRewritten(base, residual, e)
  {
    var exprs, rest := ItemExprs(base.items), if residual.Some? then [residual.value] else [];
    assert e in Rewritten(base, residual) <==> e in exprs || e in rest || e in base.later;
    if i :| 0 <= i < |base.items| && base.items[i].expr == e { assert exprs[i] == e; }
    if e in exprs { var i :| 0 <= i < |exprs| && exprs[i] == e; assert base.items[i].expr == e; }
  }

  /** The parts of a plan that say what is fetched. */
  lemma Fetched(base: Base, db: Option<string>)
    requires PlanOf(base, db).Some?
    ensures base.source.Table?
    ensures var plan := PlanOf(base, db).value;
            var es := Rewritten(base, plan.residual);
            && plan.query.Find? && plan.fields == Distinct(AllReads(CalledAs(base.source), es))
            && plan.query.keep == if HasStarAny(es) then None else Some(plan.fields)
  {
    hide SplitOf; hide Clashes; hide AsOne; hide AllReads; hide HasStarAny; hide OutputAliases; hide Distinct; hide Rewritten;
  }

  /** How the base SELECT calls its collection. */
  function CalledAs(s: Source): string
    requires s.Table?
  {
    match s.alias case Some(a) => a case None => s.name
  }

  /** The fields of a plan are those that columns of the rewritten SELECT read, at any depth, and no others. */
  lemma FieldsIff(base: Base, db: Option<string>, f: string)
    requires PlanOf(base, db).Some?
    ensures base.source.Table?
    ensures var plan := PlanOf(base, db).value;
            f in plan.fields <==> exists e :: InRewritten(base, plan.residual, e) && f in ReadSet(CalledAs(base.source), e)
  {
    hide PlanOf; hide AllReads; hide Rewritten; hide ReadSet; hide InRewritten; hide HasStarAny;
    Fetched(base, db);
    var plan, alias := PlanOf(base, db).value, CalledAs(base.source);
    var es := Rewritten(base, plan.residual);
    AllReadsIff(alias, es, f);
    if i :| 0 <= i < |es| && f in ReadSet(alias, es[i]) { RewrittenIff(base, plan.residual, es[i]); }
    if e :| InRewritten(base, plan.residual, e) && f in ReadSet(alias, e) {
      RewrittenIff(base, plan.residual, e);
      var i :| 0 <= i < |es| && es[i] == e;
      assert f in ReadSet(alias, es[i]);
    }
  }

  /** Whole documents are fetched exactly when a star or a COUNT stands somewhere in the rewritten SELECT. */
  lemma WholeIff(base: Base, db: Option<string>)
    requires PlanOf(base, db).Some?
    ensures var plan := PlanOf(base, db).value;
            && plan.query.Find?
            && plan.query.keep == if exists e :: InRewritten(base, plan.residual, e) && Starred(e) then None else Some(plan.fields)
  {
    hide PlanOf; hide AllReads; hide Rewritten; hide InRewritten; hide HasStarAny; hide Starred;
    Fetched(base, db);
    var plan := PlanOf(base, db).value;
    var es := Rewritten(base, plan.residual);
    AnyStarIff(es);
    if e :| e in Elements(es) && Starred(e) { RewrittenIff(base, plan.residual, e); }
    if e :| InRewritten(base, plan.residual, e) && Starred(e) {
      RewrittenIff(base, plan.residual, e);
      assert e in Elements(es);
    }
  }

  /** Every column of the rewritten SELECT, however deep, finds its field among what is fetched. */
  lemma ColumnIsFetched(base: Base, db: Option<string>, e: Expr, c: Expr)
    requires PlanOf(base, db).Some? && InRewritten(base, PlanOf(base, db).value.residual, e) && c in Subs(e) && c.Column?
    ensures base.source.Table?
    ensures var plan, f := PlanOf(base, db).value, FieldRead(CalledAs(base.source), c);
            plan.query.Find? && f in plan.fields && (plan.query.keep.Some? ==> f in plan.query.keep.value)
  {
    hide PlanOf; hide Subs; hide Starred;
    Fetched(base, db);
    var f := FieldRead(CalledAs(base.source), c);
    assert f in ReadSet(CalledAs(base.source), e);
    FieldsIff(base, db, f);
    WholeIff(base, db);
  }

  // ----- leaves -----

  /** A collection a filter can be translated for. */
  predicate IsFilterable(source: Source, db: Option<string>) {
    && source.Table? && !source.decorated
    && match source.schema case Some(schema) => schema != "" case None => db.Some? && db.value != ""
  }

  /** A field and a literal other than NULL. */
  predicate FieldAndLiteral(alias: string, column: Expr, constant: Expr, f: string, v: Value) {
    IsField(alias, column, f) && Literal(constant) == Ok(v) && v != Null
  }

  /** What is pushed: a field equal to a literal, either way round, or a list field that contains one. */
  predicate IsPushed(alias: string, e: Expr, filter: Filter) {
    match e
    case Compare(op, l, r) =>
      && op == Eq && filter.FieldEq?
      && (FieldAndLiteral(alias, l, r, filter.field, filter.v) || FieldAndLiteral(alias, r, l, filter.field, filter.v))
    case ListContains(args, distinct) =>
      |args| == 2 && !distinct && filter.ElemEq? && FieldAndLiteral(alias, args[0], args[1], filter.field, filter.v)
    case _ => false
  }

  lemma ProbeHeads(source: Source, db: Option<string>, e: Expr)
    ensures HeaderOf(ProbeSelect(source, e), db).Ok? <==> IsFilterable(source, db)
    ensures IsFilterable(source, db) ==> HeaderOf(ProbeSelect(source, e), db).value.scope.qualifier == CalledAs(source)
  {
    var sel := ProbeSelect(source, e);
    if IsFilterable(source, db) {
      var q := CalledAs(source);
      var o := Output(Star(None, false), None, "*");
      var h := Header(Target(if source.schema.Some? then source.schema.value else db.value, source.name), Scope(q, [o], true, [], false));
      assert IsOutput(q, sel.items[0], o);
      HeaderIff(sel, db, h);
    } else if HeaderOf(sel, db).Ok? {
      HeaderIff(sel, db, HeaderOf(sel, db).value);
    }
  }

  lemma MatchIff(sc: Scope, e: Expr, filter: Filter)
    requires (e.Compare? && e.op == Eq) || e.ListContains?
    ensures MatchFilter(sc, e) == Ok(filter) && (filter.FieldEq? || filter.ElemEq?) <==> IsPushed(sc.qualifier, e, filter)
  {
    hide Literal; hide ColumnName; hide IsField;
    if e.Compare? && (filter.FieldEq? || filter.ElemEq?) {
      ColumnIff(sc, e.l, filter.field);
      ColumnIff(sc, e.r, filter.field);
      LiteralsAreNoColumns(sc, e.l, filter.field);
      LiteralsAreNoColumns(sc, e.r, filter.field);
    }
    if e.ListContains? && |e.args| == 2 && (filter.FieldEq? || filter.ElemEq?) { ColumnIff(sc, e.args[0], filter.field); }
  }

  lemma LiteralsAreNoColumns(sc: Scope, e: Expr, f: string)
    ensures Literal(e).Ok? ==> !e.Column?
    ensures IsField(sc.qualifier, e, f) ==> e.Column?
  {
  }

  /** A leaf is pushed exactly when it is such a condition on a collection with a known database. */
  lemma LeafIff(source: Source, db: Option<string>, e: Expr, filter: Filter)
    ensures LeafFilter(source, db, e) == Some(filter) <==> IsFilterable(source, db) && IsPushed(CalledAs(source), e, filter)
  {
    hide HeaderOf; hide MatchFilter; hide IsField; hide Literal;
    if (e.Compare? && e.op == Eq) || e.ListContains? {
      ProbeHeads(source, db, e);
      if IsFilterable(source, db) { MatchIff(HeaderOf(ProbeSelect(source, e), db).value.scope, e, filter); }
    }
  }

  // ----- plans -----

  /** A conjunct, through parentheses, all of whose leaves under AND and OR are pushed. */
  predicate AllPushed(source: Source, db: Option<string>, e: Expr) {
    match e
    case Paren(x) => AllPushed(source, db, x)
    case And(l, r) => AllPushed(source, db, l) && AllPushed(source, db, r)
    case Or(l, r) => AllPushed(source, db, l) && AllPushed(source, db, r)
    case _ => LeafFilter(source, db, e).Some?
  }

  predicate SomePushed(source: Source, db: Option<string>, e: Expr) {
    || AllPushed(source, db, e)
    || match e
       case Paren(x) => SomePushed(source, db, x)
       case And(l, r) => SomePushed(source, db, l) || SomePushed(source, db, r)
       case _ => false
  }

  lemma {:induction false} PushableIff(source: Source, db: Option<string>, e: Expr)
    ensures Pushable(source, db, e).Some? <==> AllPushed(source, db, e)
  {
    hide LeafFilter;
    match e
    case Paren(x) => PushableIff(source, db, x);
    case And(l, r) => PushableIff(source, db, l); PushableIff(source, db, r);
    case Or(l, r) => PushableIff(source, db, l); PushableIff(source, db, r);
    case _ =>
  }

  lemma {:induction false} FiltersIff(source: Source, db: Option<string>, e: Expr)
    ensures SplitOf(source, db, e).filters != [] <==> SomePushed(source, db, e)
  {
    hide LeafFilter; hide Pushable; hide AllPushed;
    PushableIff(source, db, e);
    match e
    case Paren(x) => FiltersIff(source, db, x);
    case And(l, r) => FiltersIff(source, db, l); FiltersIff(source, db, r);
    case _ =>
  }

  ghost predicate AmbiguousWhere(base: Base)
    requires base.source.Table?
  {
    exists e :: (e == base.condition || e in base.later) && Ambiguous(CalledAs(base.source), base.items, e)
  }

  /**
   * A base SELECT gets a plan exactly when its collection can be filtered, no column outside the select list may mean an entry of
   * that list, some conjunct can be pushed, and the rewritten SELECT reads a field or whole documents.
   */
  lemma PlanIff(base: Base, db: Option<string>)
    ensures PlanOf(base, db).Some?
            <==> && IsFilterable(base.source, db) && !AmbiguousWhere(base) && SomePushed(base.source, db, base.condition)
                 && var residual := SplitOf(base.source, db, base.condition).residual;
                    exists e :: InRewritten(base, residual, e) && (ReadSet(CalledAs(base.source), e) != {} || Starred(e))
  {
    hide SplitOf; hide Clashes; hide Ambiguous; hide AsOne; hide AllReads; hide HasStarAny; hide OutputAliases; hide Rewritten; hide Starred;
    hide ReadSet; hide InRewritten; hide SomePushed;
    if base.source.Table? && !base.source.decorated {
      FiltersIff(base.source, db, base.condition);
      ClashIff(base);
      var residual := SplitOf(base.source, db, base.condition).residual;
      SomethingReadIff(base, residual);
    }
  }

  lemma ClashIff(base: Base)
    requires base.source.Table?
    ensures (exists e | e in [base.condition] + base.later :: Clashes(base.Alias(), OutputAliases(base.items), e)) <==> AmbiguousWhere(base)
  {
    hide Clashes; hide Ambiguous; hide OutputAliases;
    forall e ensures Clashes(base.Alias(), OutputAliases(base.items), e) <==> Ambiguous(CalledAs(base.source), base.items, e) {
      ClashesIff(base.Alias(), base.items, e);
    }
    assert base.condition in [base.condition] + base.later;
    assert forall e | e in base.later :: e in [base.condition] + base.later;
  }

  lemma SomethingReadIff(base: Base, residual: Option<Expr>)
    requires base.source.Table?
    ensures var es, alias := Rewritten(base, residual), base.Alias();
            Distinct(AllReads(alias, es)) != [] || HasStarAny(es)
            <==> exists e :: InRewritten(base, residual, e) && (ReadSet(CalledAs(base.source), e) != {} || Starred(e))
  {
    hide AllReads; hide HasStarAny; hide Rewritten; hide Starred; hide ReadSet; hide InRewritten;
    var es, alias := Rewritten(base, residual), base.Alias();
    AnyStarIff(es);
    forall e ensures e in es <==> InRewritten(base, residual, e) { RewrittenIff(base, residual, e); }
    var fields := Distinct(AllReads(alias, es));
    if fields != [] {
      AllReadsIff(alias, es, fields[0]);
      assert fields[0] in fields;
    }
    if e :| e in es && ReadSet(alias, e) != {} {
      var f :| f in ReadSet(alias, e);
      var i :| 0 <= i < |es| && es[i] == e;
      AllReadsIff(alias, es, f);
      assert f in fields;
    }
    if e :| e in es && Starred(e) { assert e in Elements(es); }
  }
}
