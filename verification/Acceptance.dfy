/** Which SELECTs the translator takes: a grammar of conditions, operands and clauses, and that it refuses nothing else. */
module Acceptance {
  import opened Values
  import opened Ordering
  import opened Sql
  import opened Mongo
  import opened Predicate
  import opened Grouping
  import opened OrderSpec
  import opened SelectQuery
  import opened SelectCorrect
  import opened Headers
  import opened Mentions
  import opened OrderedAnswer

  // ----- literals -----

  /** Fractions, and integers a double holds exactly. */
  predicate IsExact(n: real) { n.Floor as real != n || -9007199254740991.0 <= n <= 9007199254740991.0 }

  predicate IsNumeral(e: Expr) { (e.NumLit? && IsExact(e.n)) || (e.Neg? && IsNumeral(e.e)) }

  /** Text, an exact number with any signs, a truth value or NULL. */
  predicate IsLiteral(e: Expr) { e.NullLit? || e.BoolLit? || e.StrLit? || IsNumeral(e) }

  predicate AreLiterals(es: seq<Expr>) { forall i | 0 <= i < |es| :: IsLiteral(es[i]) }

  lemma {:induction false} LiteralIff(e: Expr)
    ensures Literal(e).Ok? <==> IsLiteral(e)
    ensures Literal(e).Ok? && Literal(e).value.Num? <==> IsNumeral(e)
    ensures Literal(e) == Ok(Null) <==> e.NullLit?
  {
    if e.Neg? { LiteralIff(e.e); }
  }

  lemma {:induction false} LiteralsIff(es: seq<Expr>)
    ensures Literals(es).Ok? <==> AreLiterals(es)
    ensures Literals(es).Ok? ==> (Null in Literals(es).value <==> exists i | 0 <= i < |es| :: es[i].NullLit?)
  {
    hide Literal; hide IsLiteral;
    if es != [] {
      LiteralIff(es[0]);
      LiteralsIff(es[1..]);
      assert forall i | 0 < i < |es| :: es[i] == es[1..][i - 1];
      assert forall i | 0 <= i < |es| - 1 :: es[1..][i] == es[i + 1];
    }
  }

  // ----- operands -----

  /** A field of the collection, by whatever name it has. */
  predicate IsColumn(sc: Scope, e: Expr) { e.Column? && IsField(sc.qualifier, e, e.name) }

  /** What a group has a value for: an aggregate, or one of its columns. */
  predicate IsGroupTerm(sc: Scope, e: Expr) {
    if e.AggCall? then IsAggregate(sc.qualifier, e, AggOf(e)) else IsColumn(sc, e) && e.name in sc.groups
  }

  /** A name of the select list stands for what it heads there. */
  predicate IsGroupName(sc: Scope, e: Expr) {
    if NamesOutput(sc, e) then forall i | 0 <= i < |sc.outputs| && sc.outputs[i].name == e.name :: IsGroupTerm(sc, sc.outputs[i].source)
    else IsGroupTerm(sc, e)
  }

  predicate IsColumnName(sc: Scope, e: Expr) {
    if NamesOutput(sc, e) then forall i | 0 <= i < |sc.outputs| && sc.outputs[i].name == e.name :: IsColumn(sc, sc.outputs[i].source)
    else IsColumn(sc, e)
  }

  predicate IsOperand(sc: Scope, e: Expr, afterGroup: bool) {
    if e.Column? || e.AggCall? then (if afterGroup then IsGroupName(sc, e) else IsColumn(sc, e)) else IsLiteral(e)
  }

  // ----- conditions -----

  /** Comparisons, IS NULL and IN over operands, under AND, OR, NOT and parentheses. NOT IN with a NULL needs no operand. */
  predicate IsCondition(sc: Scope, e: Expr, afterGroup: bool, negated: bool) {
    match e
    case Paren(x) => IsCondition(sc, x, afterGroup, negated)
    case Not(x) => IsCondition(sc, x, afterGroup, !negated)
    case And(l, r) => IsCondition(sc, l, afterGroup, negated) && IsCondition(sc, r, afterGroup, negated)
    case Or(l, r) => IsCondition(sc, l, afterGroup, negated) && IsCondition(sc, r, afterGroup, negated)
    case IsNull(x, _) => IsOperand(sc, x, afterGroup)
    case InList(x, list, neg, subquery) =>
      && !subquery && list != [] && AreLiterals(list)
      && (IsOperand(sc, x, afterGroup) || (neg != negated && exists i | 0 <= i < |list| :: list[i].NullLit?))
    case Compare(_, l, r) => IsOperand(sc, l, afterGroup) && IsOperand(sc, r, afterGroup)
    case _ => false
  }

  /** With indexable filters, list membership is a condition too. */
  predicate IsMatch(sc: Scope, e: Expr) {
    match e
    case Paren(x) => IsMatch(sc, x)
    case And(l, r) => IsMatch(sc, l) && IsMatch(sc, r)
    case Or(l, r) => IsMatch(sc, l) && IsMatch(sc, r)
    case ListContains(args, distinct) => |args| == 2 && !distinct && IsColumn(sc, args[0]) && IsLiteral(args[1])
    case _ => IsCondition(sc, e, false, false)
  }

  // ----- clauses -----

  predicate IsWhere(sc: Scope, cond: Option<Expr>, mongoMatch: bool) {
    match cond case None => true case Some(e) => if mongoMatch then IsMatch(sc, e) else IsCondition(sc, e, false, false)
  }

  predicate IsOutputTerm(sc: Scope, e: Expr) { if sc.grouped then IsGroupTerm(sc, e) else IsColumn(sc, e) }

  predicate IsOrderTerm(sc: Scope, o: Ordered) {
    !o.nullsGiven && if sc.grouped then IsGroupName(sc, o.expr) else IsColumnName(sc, o.expr)
  }

  /** A non-negative integer that a double holds exactly. */
  predicate IsLimit(e: Expr) {
    IsNumeral(e) && match LitValue(e) case Num(n) => n.Floor as real == n && 0.0 <= n <= 9007199254740991.0 case _ => false
  }

  predicate Accepts(sc: Scope, sel: Select, mongoMatch: bool) {
    && IsWhere(sc, sel.filter, mongoMatch)
    && (sc.star || forall i | 0 <= i < |sc.outputs| :: IsOutputTerm(sc, sc.outputs[i].source))
    && (sel.having.Some? ==> IsCondition(sc, sel.having.value, true, false))
    && (forall i | 0 <= i < |sel.orderBy| :: IsOrderTerm(sc, sel.orderBy[i]))
    && (sel.limit.Some? ==> IsLimit(sel.limit.value))
  }

  // ----- operands are taken exactly when they are such -----

  /** Every aggregate the SELECT mentions has a slot. */
  ghost predicate Full(t: Table, sel: Select) { forall a | Mentioned(a, sel) :: SlotOf(t, Signature(a)).Some? }

  /** After grouping, aggregates need their slots. */
  ghost predicate Ready(sc: Scope, t: Table, e: Expr, afterGroup: bool, sel: Select) {
    afterGroup ==> Full(t, sel) && OutputsWithin(sc, sel) && Within(e, sel)
  }

  lemma ColumnTaken(sc: Scope, e: Expr)
    ensures ColumnName(sc, e).Ok? <==> IsColumn(sc, e)
    ensures ColumnName(sc, e).Ok? ==> ColumnName(sc, e).value == e.name
  {
    hide IsField;
    if e.Column? { ColumnIff(sc, e, e.name); }
  }

  lemma GroupRefIff(sc: Scope, t: Table, e: Expr)
    ensures GroupRef(sc, t, e).Ok? <==> IsGroupTerm(sc, e) && (e.AggCall? ==> SlotOf(t, Signature(AggOf(e))).Some?)
  {
    if e.AggCall? { AggregateRefIff(sc, t, e); } else { ColumnRefIff(sc, t, e); }
  }

  lemma AggregateRefIff(sc: Scope, t: Table, e: Expr)
    requires e.AggCall?
    ensures GroupRef(sc, t, e).Ok? <==> IsAggregate(sc.qualifier, e, AggOf(e)) && SlotOf(t, Signature(AggOf(e))).Some?
  {
    hide Signature; hide Reference; hide Aggregation; hide IsAggregate; hide SlotOf;
    AggregateIff(sc, e, AggOf(e));
    AggregateIsOf(sc, e);
    if Aggregation(sc, e).Ok? {
      assert GroupRef(sc, t, e) == match SlotOf(t, Signature(AggOf(e))) case Some(i) => Ok(Reference(e.kind, i)) case None => Rejected;
    }
  }

  lemma ColumnRefIff(sc: Scope, t: Table, e: Expr)
    requires !e.AggCall?
    ensures GroupRef(sc, t, e).Ok? <==> IsColumn(sc, e) && e.name in sc.groups
  {
    hide ColumnName; hide IsField; hide IsColumn; hide Signature; hide Reference; hide SlotOf;
    ColumnTaken(sc, e);
    assert Aggregation(sc, e) == Ok(None);
  }

  lemma AggregateIsOf(sc: Scope, e: Expr)
    requires e.AggCall?
    ensures Aggregation(sc, e).Rejected? || Aggregation(sc, e) == Ok(Some(AggOf(e)))
  {
    hide ColumnName; hide IsColumn;
    if e.arg.Some? {
      ColumnTaken(sc, e.arg.value);
      TakenIsColumn(sc, e.arg.value);
    }
  }

  lemma TakenIsColumn(sc: Scope, e: Expr)
    ensures ColumnName(sc, e).Ok? ==> e.Column?
  {
    hide Identifier;
  }

  /** What a name resolves to. */
  lemma Resolved(sc: Scope, e: Expr)
    requires NamesDistinct(sc.outputs)
    ensures if NamesOutput(sc, e) then forall i | 0 <= i < |sc.outputs| && sc.outputs[i].name == e.name :: Resolve(sc, e) == sc.outputs[i].source
            else Resolve(sc, e) == e
  {
    hide FindOutput;
    if e.Column? && e.table.None? { FindsOutput(sc.outputs, e.name); }
  }

  lemma NamesResolved(sc: Scope, e: Expr)
    requires NamesDistinct(sc.outputs)
    ensures IsGroupName(sc, e) <==> IsGroupTerm(sc, Resolve(sc, e))
    ensures IsColumnName(sc, e) <==> IsColumn(sc, Resolve(sc, e))
  {
    hide Resolve; hide NamesDistinct; hide IsGroupTerm; hide IsColumn;
    Resolved(sc, e);
    if NamesOutput(sc, e) { var i :| 0 <= i < |sc.outputs| && sc.outputs[i].name == e.name; }
  }

  lemma SlotOfWithin(sc: Scope, t: Table, e: Expr, sel: Select)
    requires Full(t, sel) && Within(e, sel) && e.AggCall?
    ensures SlotOf(t, Signature(AggOf(e))).Some?
  {
    hide Mentioned; hide Signature;
    assert OccursIn(AggOf(e), e);
  }

  lemma GroupNameIff(sc: Scope, t: Table, e: Expr, sel: Select)
    requires NamesDistinct(sc.outputs)
    ensures GroupRef(sc, t, Resolve(sc, e)).Ok? ==> IsGroupName(sc, e)
    ensures Ready(sc, t, e, true, sel) && IsGroupName(sc, e) ==> GroupRef(sc, t, Resolve(sc, e)).Ok?
  {
    hide Resolve; hide NamesDistinct; hide IsGroupTerm; hide IsColumn; hide IsGroupName; hide GroupRef; hide Full; hide Within; hide Signature;
    NamesResolved(sc, e);
    GroupRefIff(sc, t, Resolve(sc, e));
    if Ready(sc, t, e, true, sel) && IsGroupName(sc, e) {
      WithinResolved(sc, e, sel);
      if Resolve(sc, e).AggCall? { SlotOfWithin(sc, t, Resolve(sc, e), sel); }
    }
  }

  lemma OperandIff(sc: Scope, t: Table, e: Expr, afterGroup: bool, sel: Select)
    requires NamesDistinct(sc.outputs)
    ensures ValueExpr(sc, t, e, afterGroup).Ok? ==> IsOperand(sc, e, afterGroup)
    ensures Ready(sc, t, e, afterGroup, sel) && IsOperand(sc, e, afterGroup) ==> ValueExpr(sc, t, e, afterGroup).Ok?
  {
    hide Resolve; hide NamesDistinct; hide IsGroupName; hide IsColumn; hide GroupRef; hide Ready; hide Literal; hide ColumnName; hide IsLiteral;
    if e.Column? || e.AggCall? {
      if afterGroup { GroupNameIff(sc, t, e, sel); } else { ColumnTaken(sc, e); }
    } else {
      LiteralIff(e);
    }
  }

  // ----- conditions -----

  lemma ReadyParts(sc: Scope, t: Table, e: Expr, afterGroup: bool, sel: Select)
    requires Ready(sc, t, e, afterGroup, sel)
    ensures e.Paren? || e.Not? || e.IsNull? || e.InList? ==> Ready(sc, t, e.e, afterGroup, sel)
    ensures e.And? || e.Or? || e.Compare? ==> Ready(sc, t, e.l, afterGroup, sel) && Ready(sc, t, e.r, afterGroup, sel)
  {
    hide Within; hide Full;
    if afterGroup { WithinParts(e, sel); }
  }

  /** Nothing else is taken as a condition. */
  lemma {:induction false} TakenIsCondition(sc: Scope, t: Table, e: Expr, afterGroup: bool, negated: bool, sel: Select)
    requires NamesDistinct(sc.outputs) && Pred(sc, t, e, afterGroup, negated).Ok?
    ensures IsCondition(sc, e, afterGroup, negated)
  {
    hide ValueExpr; hide IsOperand; hide NamesDistinct; hide Literals; hide AreLiterals; hide WithoutNulls; hide NonNull; hide Inverse;
    match e
    case Paren(x) => TakenIsCondition(sc, t, x, afterGroup, negated, sel);
    case Not(x) => TakenIsCondition(sc, t, x, afterGroup, !negated, sel);
    case And(l, r) => TakenIsCondition(sc, t, l, afterGroup, negated, sel); TakenIsCondition(sc, t, r, afterGroup, negated, sel);
    case Or(l, r) => TakenIsCondition(sc, t, l, afterGroup, negated, sel); TakenIsCondition(sc, t, r, afterGroup, negated, sel);
    case IsNull(x, _) => OperandIff(sc, t, x, afterGroup, sel);
    case InList(x, list, _, _) => LiteralsIff(list); OperandIff(sc, t, x, afterGroup, sel);
    case Compare(_, l, r) => OperandIff(sc, t, l, afterGroup, sel); OperandIff(sc, t, r, afterGroup, sel);
  }

  /** Every condition is taken. */
  lemma {:induction false} ConditionIsTaken(sc: Scope, t: Table, e: Expr, afterGroup: bool, negated: bool, sel: Select)
    requires NamesDistinct(sc.outputs) && Ready(sc, t, e, afterGroup, sel) && IsCondition(sc, e, afterGroup, negated)
    ensures Pred(sc, t, e, afterGroup, negated).Ok?
  {
    hide ValueExpr; hide IsOperand; hide NamesDistinct; hide Literals; hide AreLiterals; hide WithoutNulls; hide NonNull; hide Inverse;
    hide Ready;
    ReadyParts(sc, t, e, afterGroup, sel);
    match e
    case Paren(x) => ConditionIsTaken(sc, t, x, afterGroup, negated, sel);
    case Not(x) => ConditionIsTaken(sc, t, x, afterGroup, !negated, sel);
    case And(l, r) => ConditionIsTaken(sc, t, l, afterGroup, negated, sel); ConditionIsTaken(sc, t, r, afterGroup, negated, sel);
    case Or(l, r) => ConditionIsTaken(sc, t, l, afterGroup, negated, sel); ConditionIsTaken(sc, t, r, afterGroup, negated, sel);
    case IsNull(x, _) => OperandIff(sc, t, x, afterGroup, sel);
    case InList(x, list, _, _) => LiteralsIff(list); OperandIff(sc, t, x, afterGroup, sel);
    case Compare(_, l, r) => OperandIff(sc, t, l, afterGroup, sel); OperandIff(sc, t, r, afterGroup, sel);
  }

  lemma PredFilterIff(sc: Scope, e: Expr, sel: Select)
    requires NamesDistinct(sc.outputs)
    ensures PredFilter(sc, e).Ok? <==> IsCondition(sc, e, false, false)
  {
    hide Pred; hide IsCondition; hide NamesDistinct;
    if Pred(sc, [], e, false, false).Ok? { TakenIsCondition(sc, [], e, false, false, sel); }
    if IsCondition(sc, e, false, false) { ConditionIsTaken(sc, [], e, false, false, sel); }
  }

  lemma {:induction false} MatchFilterIff(sc: Scope, e: Expr, sel: Select)
    requires NamesDistinct(sc.outputs)
    ensures MatchFilter(sc, e).Ok? <==> IsMatch(sc, e)
  {
    hide PredFilter; hide Literal; hide IsLiteral; hide ColumnName; hide IsColumn; hide NamesDistinct; hide NamesOutput;
    match e
    case Paren(x) => MatchFilterIff(sc, x, sel);
    case And(l, r) => MatchFilterIff(sc, l, sel); MatchFilterIff(sc, r, sel);
    case Or(l, r) => MatchFilterIff(sc, l, sel); MatchFilterIff(sc, r, sel);
    case ListContains(args, _) =>
      if |args| == 2 { ColumnTaken(sc, args[0]); LiteralIff(args[1]); }
    case Compare(_, l, r) =>
      PredFilterIff(sc, e, sel);
      ColumnTaken(sc, l);
      ColumnTaken(sc, r);
      LiteralIff(l);
      LiteralIff(r);
      NoColumnIsLiteral(sc, l);
      NoColumnIsLiteral(sc, r);
    case _ => PredFilterIff(sc, e, sel);
  }

  lemma NoColumnIsLiteral(sc: Scope, e: Expr)
    ensures IsLiteral(e) ==> !e.Column? && !e.AggCall?
    ensures IsColumn(sc, e) ==> e.Column?
  {
  }

  lemma WhereIff(sc: Scope, cond: Option<Expr>, mongoMatch: bool, sel: Select)
    requires NamesDistinct(sc.outputs)
    ensures WhereFilter(sc, cond, mongoMatch).Ok? <==> IsWhere(sc, cond, mongoMatch)
  {
    hide MatchFilter; hide PredFilter; hide IsMatch; hide IsCondition; hide NamesDistinct;
    if cond.Some? { MatchFilterIff(sc, cond.value, sel); PredFilterIff(sc, cond.value, sel); }
  }

  // ----- lists of clauses -----

  lemma {:induction false} ProjectionTaken(sc: Scope, t: Table, outputs: seq<Output>)
    ensures Projection(sc, t, outputs).Ok? <==> forall i | 0 <= i < |outputs| :: OutputExpr(sc, t, outputs[i]).Ok?
  {
    hide OutputExpr;
    if outputs != [] {
      var n := |outputs| - 1;
      ProjectionTaken(sc, t, outputs[..n]);
      assert forall i | 0 <= i < n :: outputs[..n][i] == outputs[i];
    }
  }

  lemma {:induction false} SortExprsTaken(sc: Scope, t: Table, orderBy: seq<Ordered>)
    ensures SortExprs(sc, t, orderBy).Ok?
            <==> forall i | 0 <= i < |orderBy| :: !orderBy[i].nullsGiven && GroupRef(sc, t, Resolve(sc, orderBy[i].expr)).Ok?
  {
    hide GroupRef; hide Resolve;
    if orderBy != [] {
      var n := |orderBy| - 1;
      SortExprsTaken(sc, t, orderBy[..n]);
      assert forall i | 0 <= i < n :: orderBy[..n][i] == orderBy[i];
    }
  }

  lemma {:induction false} OrderListTaken(sc: Scope, orderBy: seq<Ordered>)
    ensures OrderList(sc, orderBy).Ok?
            <==> forall i | 0 <= i < |orderBy| :: !orderBy[i].nullsGiven && ColumnName(sc, Resolve(sc, orderBy[i].expr)).Ok?
  {
    hide ColumnName; hide Resolve;
    if orderBy != [] {
      var n := |orderBy| - 1;
      OrderListTaken(sc, orderBy[..n]);
      assert forall i | 0 <= i < n :: orderBy[..n][i] == orderBy[i];
    }
  }

  lemma LimitIff(limit: Option<Expr>)
    ensures LimitValue(limit).Ok? <==> (limit.Some? ==> IsLimit(limit.value))
  {
    hide Literal; hide LitValue; hide IsNumeral;
    if limit.Some? {
      LiteralIff(limit.value);
      if Literal(limit.value).Ok? { LiteralDenotes(limit.value); }
    }
  }

  lemma OutputTaken(sc: Scope, t: Table, o: Output, sel: Select)
    ensures OutputExpr(sc, t, o).Ok? ==> IsOutputTerm(sc, o.source)
    ensures Full(t, sel) && Within(o.source, sel) && IsOutputTerm(sc, o.source) ==> OutputExpr(sc, t, o).Ok?
  {
    hide GroupRef; hide ColumnName; hide IsGroupTerm; hide IsColumn; hide Full; hide Within; hide Signature;
    if sc.grouped {
      GroupRefIff(sc, t, o.source);
      if Full(t, sel) && Within(o.source, sel) && o.source.AggCall? { SlotOfWithin(sc, t, o.source, sel); }
    } else {
      ColumnTaken(sc, o.source);
    }
  }

  lemma OrderTermTaken(sc: Scope, t: Table, o: Ordered, sel: Select)
    requires NamesDistinct(sc.outputs)
    ensures !sc.grouped ==> (!o.nullsGiven && ColumnName(sc, Resolve(sc, o.expr)).Ok? <==> IsOrderTerm(sc, o))
    ensures sc.grouped && !o.nullsGiven && GroupRef(sc, t, Resolve(sc, o.expr)).Ok? ==> IsOrderTerm(sc, o)
    ensures sc.grouped && Ready(sc, t, o.expr, true, sel) && IsOrderTerm(sc, o) ==> !o.nullsGiven && GroupRef(sc, t, Resolve(sc, o.expr)).Ok?
  {
    hide GroupRef; hide ColumnName; hide IsGroupName; hide IsColumnName; hide IsColumn; hide IsGroupTerm; hide Ready; hide Resolve;
    hide NamesDistinct;
    if sc.grouped {
      GroupNameIff(sc, t, o.expr, sel);
    } else {
      NamesResolved(sc, o.expr);
      ColumnTaken(sc, Resolve(sc, o.expr));
    }
  }

  // ----- the whole SELECT -----

  /** The clauses of a query that is assembled. */
  ghost predicate ClausesTaken(h: Header, sel: Select, t: Table, mongoMatch: bool) {
    var sc := h.scope;
    && WhereFilter(sc, sel.filter, mongoMatch).Ok? && (sc.star || Projection(sc, t, sc.outputs).Ok?)
    && (sel.having.Some? ==> Pred(sc, t, sel.having.value, true, false).Ok?)
    && (if sc.grouped then SortExprs(sc, t, sel.orderBy).Ok? else OrderList(sc, sel.orderBy).Ok?)
    && LimitValue(sel.limit).Ok?
  }

  lemma AssembleTakes(h: Header, sel: Select, t: Table, mongoMatch: bool)
    ensures Assemble(h, sel, t, mongoMatch).Ok? <==> ClausesTaken(h, sel, t, mongoMatch)
  {
    hide WhereFilter; hide Projection; hide Pred; hide SortExprs; hide OrderList; hide LimitValue; hide GroupedPipeline; hide PlainPipeline;
    hide SortObject; hide PlainOutputs;
  }

  /** What is assembled is in the grammar. */
  lemma AssembledIsAccepted(h: Header, sel: Select, t: Table, mongoMatch: bool)
    requires NamesDistinct(h.scope.outputs) && Assemble(h, sel, t, mongoMatch).Ok?
    ensures Accepts(h.scope, sel, mongoMatch)
  {
    hide Assemble; hide WhereFilter; hide Projection; hide Pred; hide SortExprs; hide OrderList; hide LimitValue; hide NamesDistinct;
    hide IsWhere; hide IsCondition; hide IsOrderTerm; hide IsOutputTerm; hide IsLimit; hide OutputExpr; hide GroupRef; hide Resolve;
    hide ColumnName;
    AssembleTakes(h, sel, t, mongoMatch);
    var sc := h.scope;
    WhereIff(sc, sel.filter, mongoMatch, sel);
    ProjectionTaken(sc, t, sc.outputs);
    LimitIff(sel.limit);
    if sel.having.Some? { TakenIsCondition(sc, t, sel.having.value, true, false, sel); }
    SortExprsTaken(sc, t, sel.orderBy);
    OrderListTaken(sc, sel.orderBy);
    forall i | 0 <= i < |sc.outputs| && !sc.star ensures IsOutputTerm(sc, sc.outputs[i].source) { OutputTaken(sc, t, sc.outputs[i], sel); }
    forall i | 0 <= i < |sel.orderBy| ensures IsOrderTerm(sc, sel.orderBy[i]) { OrderTermTaken(sc, t, sel.orderBy[i], sel); }
  }

  /** What is in the grammar is assembled, once every aggregate has its slot. */
  lemma AcceptedIsAssembled(h: Header, sel: Select, t: Table, mongoMatch: bool)
    requires NamesDistinct(h.scope.outputs) && OutputsWithin(h.scope, sel) && Full(t, sel) && Accepts(h.scope, sel, mongoMatch)
    ensures Assemble(h, sel, t, mongoMatch).Ok?
  {
    hide Assemble; hide WhereFilter; hide Projection; hide Pred; hide SortExprs; hide OrderList; hide LimitValue; hide NamesDistinct;
    hide IsWhere; hide IsCondition; hide IsOrderTerm; hide IsOutputTerm; hide IsLimit; hide OutputExpr; hide GroupRef; hide Resolve;
    hide ColumnName; hide Full; hide Within;
    AssembleTakes(h, sel, t, mongoMatch);
    var sc := h.scope;
    WhereIff(sc, sel.filter, mongoMatch, sel);
    ProjectionTaken(sc, t, sc.outputs);
    LimitIff(sel.limit);
    if sel.having.Some? {
      HavingWithin(sel);
      ConditionIsTaken(sc, t, sel.having.value, true, false, sel);
    }
    SortExprsTaken(sc, t, sel.orderBy);
    OrderListTaken(sc, sel.orderBy);
    forall i | 0 <= i < |sc.outputs| && !sc.star ensures OutputExpr(sc, t, sc.outputs[i]).Ok? { OutputTaken(sc, t, sc.outputs[i], sel); }
    forall i | 0 <= i < |sel.orderBy|
      ensures !sel.orderBy[i].nullsGiven
      ensures if sc.grouped then GroupRef(sc, t, Resolve(sc, sel.orderBy[i].expr)).Ok? else ColumnName(sc, Resolve(sc, sel.orderBy[i].expr)).Ok?
    {
      TermIsWithin(sel, i);
      OrderTermTaken(sc, t, sel.orderBy[i], sel);
    }
  }

  lemma HavingWithin(sel: Select)
    requires sel.having.Some?
    ensures Within(sel.having.value, sel)
  {
  }

  lemma TermIsWithin(sel: Select, i: nat)
    requires i < |sel.orderBy|
    ensures Within(sel.orderBy[i].expr, sel)
  {
  }

  // ----- a table with every slot -----

  ghost function AggsIn(e: Expr): seq<Agg> {
    match e
    case AggCall(_, _, _, _) => [AggOf(e)]
    case Paren(x) => AggsIn(x)
    case Not(x) => AggsIn(x)
    case And(l, r) => AggsIn(l) + AggsIn(r)
    case Or(l, r) => AggsIn(l) + AggsIn(r)
    case IsNull(x, _) => AggsIn(x)
    case InList(x, _, _, _) => AggsIn(x)
    case Compare(_, l, r) => AggsIn(l) + AggsIn(r)
    case _ => []
  }

  lemma {:induction false} OccursInAggs(a: Agg, e: Expr)
    requires OccursIn(a, e)
    ensures a in AggsIn(e)
  {
    match e
    case Paren(x) => OccursInAggs(a, x);
    case Not(x) => OccursInAggs(a, x);
    case And(l, r) => if OccursIn(a, l) { OccursInAggs(a, l); } else { OccursInAggs(a, r); }
    case Or(l, r) => if OccursIn(a, l) { OccursInAggs(a, l); } else { OccursInAggs(a, r); }
    case IsNull(x, _) => OccursInAggs(a, x);
    case InList(x, _, _, _) => OccursInAggs(a, x);
    case Compare(_, l, r) => if OccursIn(a, l) { OccursInAggs(a, l); } else { OccursInAggs(a, r); }
    case _ =>
  }

  ghost function AggsOfItems(items: seq<Item>): seq<Agg> { if items == [] then [] else AggsIn(items[0].expr) + AggsOfItems(items[1..]) }

  ghost function AggsOfTerms(orderBy: seq<Ordered>): seq<Agg> {
    if orderBy == [] then [] else AggsIn(orderBy[0].expr) + AggsOfTerms(orderBy[1..])
  }

  lemma {:induction false} ItemInAggs(items: seq<Item>, i: nat, a: Agg)
    requires i < |items| && a in AggsIn(items[i].expr)
    ensures a in AggsOfItems(items)
  {
    if i > 0 { ItemInAggs(items[1..], i - 1, a); }
  }

  lemma {:induction false} TermInAggs(orderBy: seq<Ordered>, i: nat, a: Agg)
    requires i < |orderBy| && a in AggsIn(orderBy[i].expr)
    ensures a in AggsOfTerms(orderBy)
  {
    if i > 0 { TermInAggs(orderBy[1..], i - 1, a); }
  }

  lemma MemberHasSlot(t: Table, a: Agg)
    requires a in t
    ensures SlotOf(t, Signature(a)).Some?
  {
    var i :| 0 <= i < |t| && t[i] == a;
  }

  /** Any table can be filled up. */
  lemma FilledUp(t: Table, sel: Select) returns (u: Table)
    ensures t <= u && Full(u, sel)
  {
    hide OccursIn; hide Signature; hide SlotOf;
    u := t + (AggsOfItems(sel.items) + AggsOfTerms(sel.orderBy) + (if sel.having.Some? then AggsIn(sel.having.value) else []));
    forall a | Mentioned(a, sel) ensures SlotOf(u, Signature(a)).Some? {
      if i :| 0 <= i < |sel.items| && OccursIn(a, sel.items[i].expr) {
        OccursInAggs(a, sel.items[i].expr);
        ItemInAggs(sel.items, i, a);
      } else if i :| 0 <= i < |sel.orderBy| && OccursIn(a, sel.orderBy[i].expr) {
        OccursInAggs(a, sel.orderBy[i].expr);
        TermInAggs(sel.orderBy, i, a);
      } else {
        OccursInAggs(a, sel.having.value);
      }
      assert a in u;
      MemberHasSlot(u, a);
    }
  }
}
