/** The translator as it runs: accumulator slots are allocated while expressions are walked. */
module Translator {
  import opened Values
  import opened Ordering
  import opened Sql
  import opened Mongo
  import opened HavingNames
  import opened Predicate
  import opened Grouping
  import opened OrderSpec
  import opened SelectQuery
  import opened SelectCorrect
  import opened Mentions
  import opened OrderedAnswer
  import opened Headers
  import opened Acceptance

  // ----- a larger table changes no earlier slot -----

  lemma {:induction false} FindInPrefix(t: Table, u: Table, signature: string)
    requires t <= u && SlotOf(t, signature).Some?
    ensures SlotOf(u, signature) == SlotOf(t, signature)
  {
    hide Signature;
    assert u[0] == t[0];
    if Signature(t[0]) != signature { FindInPrefix(t[1..], u[1..], signature); }
  }

  lemma {:induction false} FindNew(t: Table, a: Agg)
    requires SlotOf(t, Signature(a)).None?
    ensures SlotOf(t + [a], Signature(a)) == Some(|t|)
  {
    hide Signature;
    if t != [] {
      assert (t + [a])[1..] == t[1..] + [a];
      FindNew(t[1..], a);
    }
  }

  lemma AccsStep(t: Table, a: Agg)
    ensures TableAccs(t + [a]) == TableAccs(t) + SlotAccs(a, |t|)
  {
    hide SlotAccs;
    assert (t + [a])[..|t|] == t;
  }

  lemma AggregationWithin(sc: Scope, e: Expr, sel: Select)
    requires Aggregation(sc, e).Ok? && Aggregation(sc, e).value.Some? && Within(e, sel)
    ensures Mentioned(Aggregation(sc, e).value.value, sel)
  {
    hide Mentioned;
    assert OccursIn(AggOf(e), e);
  }

  lemma RefOfAggregate(sc: Scope, t: Table, e: Expr)
    requires var agg := Aggregation(sc, e); agg.Ok? && agg.value.Some? && SlotOf(t, Signature(agg.value.value)).Some?
    ensures var a := Aggregation(sc, e).value.value; GroupRef(sc, t, e) == Ok(Reference(a.kind, SlotOf(t, Signature(a)).value))
  {
    hide Aggregation; hide Signature; hide Reference;
  }

  /** What is no aggregate does not depend on the table. */
  lemma RefWithoutAggregate(sc: Scope, t: Table, e: Expr)
    ensures var agg := Aggregation(sc, e);
            agg.Rejected? || agg.value.None? ==>
              forall u {:trigger GroupRef(sc, u, e)} :: GroupRef(sc, u, e) == if agg.Rejected? then Rejected else GroupRef(sc, t, e)
  {
    hide Aggregation; hide Signature; hide Reference;
  }

  class SelectTranslator {
    const select: Select
    const scope: Scope
    /** One entry per distinct signature, in order of first use: the keys of the source's `aggregates` map. */
    var aggregates: Table
    /** The accumulators written so far into the `$group` stage. */
    var group: Accs

    ghost predicate Valid()
      reads this
    {
      && group == TableAccs(aggregates)
      && (forall i | 0 <= i < |aggregates| :: Mentioned(aggregates[i], select))
      && (forall i | 0 <= i < |scope.outputs| :: Within(scope.outputs[i].source, select))
    }

    constructor (select: Select, scope: Scope)
      requires forall i | 0 <= i < |scope.outputs| :: Within(scope.outputs[i].source, select)
      ensures Valid() && this.select == select && this.scope == scope && aggregates == []
    {
      this.select, this.scope := select, scope;
      aggregates, group := [], [];
    }

    /** A new signature gets the next slot; the reference stays right however the table grows. */
    method GroupValue(e: Expr) returns (r: Result<MExpr>)
      requires Valid() && Within(e, select)
      modifies this
      ensures Valid() && old(aggregates) <= aggregates
      ensures forall t | aggregates <= t :: GroupRef(scope, t, e) == r
      ensures var agg := Aggregation(scope, e);
              aggregates == if agg.Ok? && agg.value.Some? && SlotOf(old(aggregates), Signature(agg.value.value)).None?
                            then old(aggregates) + [agg.value.value] else old(aggregates)
    {
      hide Mentioned; hide Signature; hide SlotAccs; hide Reference; hide GroupRef; hide Aggregation; hide Within;
      var agg := Aggregation(scope, e);
      RefWithoutAggregate(scope, aggregates, e);
      if agg.Rejected? { return Rejected; }
      if agg.value.Some? {
        var a := agg.value.value;
        var entry := SlotOf(aggregates, Signature(a));
        if entry.None? {
          FindNew(aggregates, a);
          var slot := |aggregates|;
          AccsStep(aggregates, a);
          AggregationWithin(scope, e, select);
          aggregates := aggregates + [a];
          group := group + SlotAccs(a, slot);
          entry := Some(slot);
        }
        r := Ok(Reference(a.kind, entry.value));
        forall t | aggregates <= t ensures GroupRef(scope, t, e) == r {
          FindInPrefix(aggregates, t, Signature(a));
          RefOfAggregate(scope, t, e);
        }
      } else {
        r := GroupRef(scope, aggregates, e);
      }
    }

    method Value(e: Expr, afterGroup: bool) returns (r: Result<MExpr>)
      requires Valid() && Within(e, select)
      modifies this
      ensures Valid() && old(aggregates) <= aggregates
      ensures forall t | aggregates <= t :: ValueExpr(scope, t, e, afterGroup) == r
    {
      if e.Column? || e.AggCall? {
        if afterGroup {
          WithinResolved(scope, e, select);
          r := GroupValue(Resolve(scope, e));
        } else {
          var field := ColumnName(scope, e);
          r := if field.Ok? then Ok(Field(field.value)) else Rejected;
        }
      } else {
        var v := Literal(e);
        r := if v.Ok? then Ok(Lit(v.value)) else Rejected;
      }
    }

    /** Conditions over values, which refer to no further condition. */
    method NullTest(e: Expr, afterGroup: bool, negated: bool) returns (r: Result<MExpr>)
      requires Valid() && Within(e, select) && e.IsNull?
      modifies this
      ensures Valid() && old(aggregates) <= aggregates
      ensures forall t | aggregates <= t :: Pred(scope, t, e, afterGroup, negated) == r
    {
      hide ValueExpr; hide Within; hide Literals; hide WithoutNulls; hide NonNull; hide Inverse; hide OccursIn; hide Mentioned;
      WithinParts(e, select);
      var v := Value(e.e, afterGroup);
      if v.Rejected? { return Rejected; }
      r := Ok(Cmp(if e.neg != negated then Neq else Eq, IfNull(v.value, Lit(Null)), Lit(Null)));
    }

    method Membership(e: Expr, afterGroup: bool, negated: bool) returns (r: Result<MExpr>)
      requires Valid() && Within(e, select) && e.InList?
      modifies this
      ensures Valid() && old(aggregates) <= aggregates
      ensures forall t | aggregates <= t :: Pred(scope, t, e, afterGroup, negated) == r
    {
      hide ValueExpr; hide Within; hide Literals; hide WithoutNulls; hide NonNull; hide Inverse; hide OccursIn; hide Mentioned;
      WithinParts(e, select);
      if e.subquery || e.list == [] { return Rejected; }
      var vs := Literals(e.list);
      if vs.Rejected? { return Rejected; }
      var invert := e.neg != negated;
      if invert && Null in vs.value { return Ok(Lit(Bool(false))); }
      var ref := Value(e.e, afterGroup);
      if ref.Rejected? { return Rejected; }
      var membership := InLit(ref.value, WithoutNulls(vs.value));
      r := Ok(AndE([NonNull(ref.value), if invert then NotE(membership) else membership]));
    }

    method Comparison(e: Expr, afterGroup: bool, negated: bool) returns (r: Result<MExpr>)
      requires Valid() && Within(e, select) && e.Compare?
      modifies this
      ensures Valid() && old(aggregates) <= aggregates
      ensures forall t | aggregates <= t :: Pred(scope, t, e, afterGroup, negated) == r
    {
      hide ValueExpr; hide Within; hide Literals; hide WithoutNulls; hide NonNull; hide Inverse; hide OccursIn; hide Mentioned;
      WithinParts(e, select);
      var a := Value(e.l, afterGroup);
      if a.Rejected? { return Rejected; }
      var b := Value(e.r, afterGroup);
      if b.Rejected? { return Rejected; }
      r := Ok(AndE([NonNull(a.value), NonNull(b.value), Cmp(if negated then Inverse(e.op) else e.op, a.value, b.value)]));
    }

    method Condition(e: Expr, afterGroup: bool, negated: bool) returns (r: Result<MExpr>)
      requires Valid() && Within(e, select)
      modifies this
      ensures Valid() && old(aggregates) <= aggregates
      ensures forall t | aggregates <= t :: Pred(scope, t, e, afterGroup, negated) == r
      decreases e
    {
      hide ValueExpr; hide Within; hide Literals; hide WithoutNulls; hide NonNull; hide Inverse; hide OccursIn; hide Mentioned;
      WithinParts(e, select);
      match e {
        case Paren(x) => r := Condition(x, afterGroup, negated);
        case Not(x) => r := Condition(x, afterGroup, !negated);
        case And(l, rr) =>
          var a := Condition(l, afterGroup, negated);
          if a.Rejected? { return Rejected; }
          var b := Condition(rr, afterGroup, negated);
          if b.Rejected? { return Rejected; }
          r := Ok(if negated then OrE([a.value, b.value]) else AndE([a.value, b.value]));
        case Or(l, rr) =>
          var a := Condition(l, afterGroup, negated);
          if a.Rejected? { return Rejected; }
          var b := Condition(rr, afterGroup, negated);
          if b.Rejected? { return Rejected; }
          r := Ok(if negated then AndE([a.value, b.value]) else OrE([a.value, b.value]));
        case IsNull(_, _) => r := NullTest(e, afterGroup, negated);
        case InList(_, _, _, _) => r := Membership(e, afterGroup, negated);
        case Compare(_, _, _) => r := Comparison(e, afterGroup, negated);
        case _ => r := Rejected;
      }
    }

    /** What one output is projected from. */
    method OutputValue(o: Output) returns (r: Result<MExpr>)
      requires Valid() && Within(o.source, select)
      modifies this
      ensures Valid() && old(aggregates) <= aggregates
      ensures forall t | aggregates <= t :: OutputExpr(scope, t, o) == r
    {
      hide Valid; hide Within; hide GroupRef; hide ColumnName;
      if scope.grouped {
        r := GroupValue(o.source);
      } else {
        var field := ColumnName(scope, o.source);
        r := if field.Ok? then Ok(IfNull(Field(field.value), Lit(Null))) else Rejected;
      }
    }

    /** The select list, one projection entry after another. */
    method ProjectOutputs() returns (r: Result<Fields>)
      requires Valid()
      modifies this
      ensures Valid() && old(aggregates) <= aggregates
      ensures forall t | aggregates <= t :: Projection(scope, t, scope.outputs) == r
    {
      hide Projection; hide OutputExpr; hide Within; hide Mentioned;
      var fields: Fields := [];
      NoProjection(scope);
      for i := 0 to |scope.outputs|
        invariant Valid() && old(aggregates) <= aggregates
        invariant forall t | aggregates <= t :: Projection(scope, t, scope.outputs[..i]) == Ok(fields)
      {
        var o := scope.outputs[i];
        var value := OutputValue(o);
        ghost var done := scope.outputs[..i + 1];
        forall t | aggregates <= t
          ensures Projection(scope, t, done) == if value.Ok? then Ok(fields + [(o.name, value.value)]) else Rejected
        {
          ProjectionStep(scope, t, scope.outputs, i);
        }
        if value.Rejected? {
          forall t | aggregates <= t ensures Projection(scope, t, scope.outputs) == Rejected {
            ProjectionRejected(scope, t, scope.outputs, i + 1);
          }
          return Rejected;
        }
        fields := fields + [(o.name, value.value)];
      }
      assert scope.outputs[..|scope.outputs|] == scope.outputs;
      r := Ok(fields);
    }

    /** What ORDER BY term `i` of a grouped query is sorted by. */
    method SortValue(i: nat) returns (r: Result<MExpr>)
      requires Valid() && i < |select.orderBy|
      modifies this
      ensures Valid() && old(aggregates) <= aggregates
      ensures forall t | aggregates <= t :: SortExpr(scope, t, select.orderBy[i]) == r
    {
      hide GroupRef; hide Resolve;
      r := Rejected;
      if !select.orderBy[i].nullsGiven {
        TermWithin(scope, select, i);
        r := GroupValue(Resolve(scope, select.orderBy[i].expr));
      }
    }

    /** Grouped ORDER BY: one sort slot per term. */
    method SortTerms() returns (r: Result<seq<MExpr>>)
      requires Valid()
      modifies this
      ensures Valid() && old(aggregates) <= aggregates
      ensures forall t | aggregates <= t :: SortExprs(scope, t, select.orderBy) == r
    {
      hide SortExprs; hide GroupRef; hide Resolve; hide Within; hide Mentioned; hide Valid;
      var es: seq<MExpr> := [];
      var orderBy := select.orderBy;
      NoSortExprs(scope);
      for i := 0 to |orderBy|
        invariant Valid() && old(aggregates) <= aggregates
        invariant forall t | aggregates <= t :: SortExprs(scope, t, orderBy[..i]) == Ok(es)
      {
        var value := SortValue(i);
        ghost var done := orderBy[..i + 1];
        forall t | aggregates <= t
          ensures SortExprs(scope, t, done) == if value.Ok? then Ok(es + [value.value]) else Rejected
        {
          TermStep(scope, t, orderBy, i);
        }
        if value.Rejected? {
          forall t | aggregates <= t ensures SortExprs(scope, t, orderBy) == Rejected { SortRejected(scope, t, orderBy, i + 1); }
          return Rejected;
        }
        es := es + [value.value];
      }
      assert orderBy[..|orderBy|] == orderBy;
      r := Ok(es);
    }
  }

  lemma NoProjection(sc: Scope)
    ensures forall t :: Projection(sc, t, sc.outputs[..0]) == Ok([])
  {
  }

  lemma ProjectionStep(sc: Scope, t: Table, outputs: seq<Output>, i: nat)
    requires i < |outputs|
    ensures Projection(sc, t, outputs[..i + 1]) ==
            if Projection(sc, t, outputs[..i]).Rejected? || OutputExpr(sc, t, outputs[i]).Rejected? then Rejected
            else Ok(Projection(sc, t, outputs[..i]).value + [(outputs[i].name, OutputExpr(sc, t, outputs[i]).value)])
  {
    hide OutputExpr;
    var done := outputs[..i + 1];
    assert done[..i] == outputs[..i] && done[i] == outputs[i];
  }

  function SortExpr(sc: Scope, t: Table, o: Ordered): Result<MExpr> {
    if o.nullsGiven then Rejected else GroupRef(sc, t, Resolve(sc, o.expr))
  }

  lemma NoSortExprs(sc: Scope)
    ensures forall t :: SortExprs(sc, t, []) == Ok([])
  {
  }

  lemma TermStep(sc: Scope, t: Table, orderBy: seq<Ordered>, i: nat)
    requires i < |orderBy|
    ensures SortExprs(sc, t, orderBy[..i + 1]) ==
            if SortExprs(sc, t, orderBy[..i]).Rejected? || SortExpr(sc, t, orderBy[i]).Rejected? then Rejected
            else Ok(SortExprs(sc, t, orderBy[..i]).value + [SortExpr(sc, t, orderBy[i]).value])
  {
    hide GroupRef; hide Resolve;
    var done := orderBy[..i + 1];
    assert done[..i] == orderBy[..i] && done[i] == orderBy[i];
  }

  lemma {:induction false} ProjectionRejected(sc: Scope, t: Table, outputs: seq<Output>, k: nat)
    requires k <= |outputs| && Projection(sc, t, outputs[..k]).Rejected?
    ensures Projection(sc, t, outputs).Rejected?
    decreases |outputs|
  {
    if k < |outputs| {
      var n := |outputs| - 1;
      assert outputs[..n][..k] == outputs[..k];
      ProjectionRejected(sc, t, outputs[..n], k);
    } else {
      assert outputs[..k] == outputs;
    }
  }

  lemma {:induction false} SortRejected(sc: Scope, t: Table, orderBy: seq<Ordered>, k: nat)
    requires k <= |orderBy| && SortExprs(sc, t, orderBy[..k]).Rejected?
    ensures SortExprs(sc, t, orderBy).Rejected?
    decreases |orderBy|
  {
    if k < |orderBy| {
      var n := |orderBy| - 1;
      assert orderBy[..n][..k] == orderBy[..k];
      SortRejected(sc, t, orderBy[..n], k);
    } else {
      assert orderBy[..k] == orderBy;
    }
  }

  /** The sort object of an ungrouped ORDER BY, filled entry by entry. */
  method SortEntries(sc: Scope, orderBy: seq<Ordered>) returns (r: Result<SortSpec>)
    ensures r.Ok? <==> OrderList(sc, orderBy).Ok?
    ensures r.Ok? ==> r.value == SortObject(OrderList(sc, orderBy).value)
  {
    var sort: SortSpec := [];
    ghost var list: SortSpec := [];
    for i := 0 to |orderBy|
      invariant OrderList(sc, orderBy[..i]) == Ok(list) && sort == SortObject(list)
    {
      assert orderBy[..i + 1][..i] == orderBy[..i];
      var name := ColumnName(sc, Resolve(sc, orderBy[i].expr));
      if orderBy[i].nullsGiven || name.Rejected? {
        OrderRejected(sc, orderBy, i + 1);
        return Rejected;
      }
      sort := SetEntry(sort, name.value, orderBy[i].desc);
      assert (list + [(name.value, orderBy[i].desc)])[..|list|] == list;
      list := list + [(name.value, orderBy[i].desc)];
    }
    assert orderBy[..|orderBy|] == orderBy;
    r := Ok(sort);
  }

  lemma {:induction false} OrderRejected(sc: Scope, orderBy: seq<Ordered>, k: nat)
    requires k <= |orderBy| && OrderList(sc, orderBy[..k]).Rejected?
    ensures OrderList(sc, orderBy).Rejected?
    decreases |orderBy|
  {
    if k < |orderBy| {
      var n := |orderBy| - 1;
      assert orderBy[..n][..k] == orderBy[..k];
      OrderRejected(sc, orderBy[..n], k);
    } else {
      assert orderBy[..k] == orderBy;
    }
  }

  /** On every eligible collection the query's documents, read as rows, are the SQL answer. */
  ghost predicate ReturnsAnswer(q: Query, sc: Scope, sel: Select, mongoMatch: bool) {
    forall coll | Eligible(sc, sel, mongoMatch, coll) :: View(sc, Execute(q, coll)) == Answer(sc, sel, coll)
  }

  /**
   * Translate one SELECT. Accepted means: on every eligible collection the emitted query returns the SQL answer; the
   * slots it uses are those of some table of aggregates the SELECT mentions.
   */
  method TranslateSelect(sel: Select, defaultDatabase: Option<string>, mongoMatch: bool)
    returns (r: Result<Query>, ghost t: Table)
    ensures HeaderOf(sel, defaultDatabase).Rejected? ==> r.Rejected?
    ensures HeaderOf(sel, defaultDatabase).Ok? ==> r == Assemble(HeaderOf(sel, defaultDatabase).value, sel, t, mongoMatch)
    ensures forall i | 0 <= i < |t| :: Mentioned(t[i], sel)
    ensures r.Ok? ==> ReturnsAnswer(r.value, HeaderOf(sel, defaultDatabase).value.scope, sel, mongoMatch)
    ensures r.Ok? ==> ReturnsInTurn(r.value, HeaderOf(sel, defaultDatabase).value.scope, sel, mongoMatch)
    ensures r.Ok? <==> IsTranslatable(sel, defaultDatabase, mongoMatch)
  {
    t := [];
    var header := HeaderOf(sel, defaultDatabase);
    if header.Rejected? {
      NoHeader(sel, defaultDatabase, mongoMatch);
      return Rejected, t;
    }
    HeaderScoped(sel, defaultDatabase);
    var h := header.value;
    r, t := AssembleStepwise(h, sel, mongoMatch);
    TranslatableIff(sel, defaultDatabase, h, t, mongoMatch);
    if r.Ok? { Returns(sel, defaultDatabase, h, t, mongoMatch); }
  }

  /** The emitted query returns the SQL answer, in turn. */
  lemma Returns(sel: Select, defaultDatabase: Option<string>, h: Header, t: Table, mongoMatch: bool)
    requires HeaderOf(sel, defaultDatabase) == Ok(h) && Assemble(h, sel, t, mongoMatch).Ok? && forall i | 0 <= i < |t| :: Mentioned(t[i], sel)
    ensures ReturnsAnswer(Assemble(h, sel, t, mongoMatch).value, h.scope, sel, mongoMatch)
    ensures ReturnsInTurn(Assemble(h, sel, t, mongoMatch).value, h.scope, sel, mongoMatch)
  {
    hide HeaderOf; hide Assemble; hide Eligible; hide View; hide Execute; hide Answer; hide Mentioned; hide RowsInTurn;
    HeaderScoped(sel, defaultDatabase);
    forall coll | Eligible(h.scope, sel, mongoMatch, coll)
      ensures View(h.scope, Execute(Assemble(h, sel, t, mongoMatch).value, coll)) == Answer(h.scope, sel, coll)
    {
      EligibleSupported(h.scope, sel, t, mongoMatch, coll);
      MeaningPreserved(h, sel, t, mongoMatch, coll);
    }
    forall coll | Eligible(h.scope, sel, mongoMatch, coll)
      ensures InTurnAll(h.scope, sel.orderBy, View(h.scope, Execute(Assemble(h, sel, t, mongoMatch).value, coll)))
    {
      ReturnedInOrder(sel, defaultDatabase, t, mongoMatch, coll);
    }
  }

  ghost predicate InTurnAll(sc: Scope, orderBy: seq<Ordered>, rows: seq<Doc>) {
    forall i, j | 0 <= i < j < |rows| :: RowsInTurn(sc, orderBy, rows[i], rows[j])
  }

  /** On every eligible collection the rows returned are ordered by what they show under the names of ORDER BY. */
  ghost predicate ReturnsInTurn(q: Query, sc: Scope, sel: Select, mongoMatch: bool) {
    forall coll | Eligible(sc, sel, mongoMatch, coll) :: InTurnAll(sc, sel.orderBy, View(sc, Execute(q, coll)))
  }

  // ----- what is accepted -----

  /** The SELECT has a header, and its clauses are in the grammar. */
  ghost predicate IsTranslatable(sel: Select, defaultDatabase: Option<string>, mongoMatch: bool) {
    exists h :: Heads(sel, defaultDatabase, h) && Accepts(h.scope, sel, mongoMatch)
  }

  lemma NoHeader(sel: Select, defaultDatabase: Option<string>, mongoMatch: bool)
    requires HeaderOf(sel, defaultDatabase).Rejected?
    ensures !IsTranslatable(sel, defaultDatabase, mongoMatch)
  {
    hide HeaderOf; hide Heads; hide Accepts;
    forall h ensures !Heads(sel, defaultDatabase, h) { HeaderIff(sel, defaultDatabase, h); }
  }

  /** Rejected whatever slots are added: with all of them, the SELECT is not in the grammar. */
  ghost predicate NeverAssembled(h: Header, sel: Select, t: Table, mongoMatch: bool) {
    forall u | t <= u :: Assemble(h, sel, u, mongoMatch).Rejected?
  }

  lemma TranslatableIff(sel: Select, defaultDatabase: Option<string>, h: Header, t: Table, mongoMatch: bool)
    requires HeaderOf(sel, defaultDatabase) == Ok(h)
    requires Assemble(h, sel, t, mongoMatch).Ok? || NeverAssembled(h, sel, t, mongoMatch)
    ensures Assemble(h, sel, t, mongoMatch).Ok? <==> IsTranslatable(sel, defaultDatabase, mongoMatch)
  {
    hide HeaderOf; hide Heads; hide Accepts; hide Assemble; hide Full; hide Within; hide NamesDistinct;
    HeaderScoped(sel, defaultDatabase);
    forall g ensures Heads(sel, defaultDatabase, g) <==> g == h { HeaderIff(sel, defaultDatabase, g); }
    forall i | 0 <= i < |h.scope.outputs| ensures Within(h.scope.outputs[i].source, sel) { ItemWithin(sel, i); }
    if Assemble(h, sel, t, mongoMatch).Ok? {
      AssembledIsAccepted(h, sel, t, mongoMatch);
    } else if Accepts(h.scope, sel, mongoMatch) {
      var u := FilledUp(t, sel);
      AcceptedIsAssembled(h, sel, u, mongoMatch);
    }
  }

  lemma ClauseRejected(h: Header, sel: Select, t: Table, mongoMatch: bool)
    requires forall u | t <= u :: !ClausesTaken(h, sel, u, mongoMatch)
    ensures NeverAssembled(h, sel, t, mongoMatch)
  {
    hide Assemble; hide ClausesTaken;
    forall u | t <= u ensures Assemble(h, sel, u, mongoMatch).Rejected? { AssembleTakes(h, sel, u, mongoMatch); }
  }

  /** Where clause, projection, HAVING, ORDER BY and LIMIT in the source's order; the pipeline is assembled last. */
  method AssembleStepwise(h: Header, sel: Select, mongoMatch: bool) returns (r: Result<Query>, ghost t: Table)
    requires |h.scope.outputs| == |sel.items| && forall i | 0 <= i < |sel.items| :: h.scope.outputs[i].source == sel.items[i].expr
    ensures r == Assemble(h, sel, t, mongoMatch)
    ensures r.Rejected? ==> NeverAssembled(h, sel, t, mongoMatch)
    ensures forall i | 0 <= i < |t| :: Mentioned(t[i], sel)
  {
    hide WhereFilter; hide Projection; hide Pred; hide SortExprs; hide OrderList; hide LimitValue; hide GroupedPipeline; hide PlainPipeline;
    hide SortObject; hide PlainOutputs; hide OutputNames; hide NeverAssembled; hide Within; hide Mentioned;
    var sc := h.scope;
    forall i | 0 <= i < |sc.outputs| ensures Within(sc.outputs[i].source, sel) { ItemWithin(sel, i); }
    var translator := new SelectTranslator(sel, sc);
    t := translator.aggregates;
    var filter := WhereFilter(sc, sel.filter, mongoMatch);
    if filter.Rejected? { ClauseRejected(h, sel, t, mongoMatch); return Rejected, t; }
    var fields: Result<Fields> := Ok([]);
    if !sc.star { fields := translator.ProjectOutputs(); }
    t := translator.aggregates;
    if fields.Rejected? { ClauseRejected(h, sel, t, mongoMatch); return Rejected, t; }
    var having: Option<MExpr> := None;
    if sel.having.Some? {
      HavingWithin(sel);
      var p := translator.Condition(sel.having.value, true, false);
      t := translator.aggregates;
      if p.Rejected? { ClauseRejected(h, sel, t, mongoMatch); return Rejected, t; }
      having := Some(p.value);
    }
    var limit := LimitValue(sel.limit);
    if sc.grouped {
      var sorts := translator.SortTerms();
      t := translator.aggregates;
      if sorts.Rejected? || limit.Rejected? { ClauseRejected(h, sel, t, mongoMatch); return Rejected, t; }
      r := Ok(Aggregate(h.target, GroupedPipeline(sc, sel, translator.aggregates, filter.value, fields.value, having, sorts.value, limit.value)));
    } else {
      var sort := SortEntries(sc, sel.orderBy);
      if sort.Rejected? || limit.Rejected? { ClauseRejected(h, sel, t, mongoMatch); return Rejected, t; }
      if limit.value.None? && (sc.star || PlainOutputs(sc)) {
        r := Ok(Query.Find(h.target, filter.value, if sc.star then None else Some(OutputNames(sc.outputs)), sort.value));
      } else {
        r := Ok(Aggregate(h.target, PlainPipeline(sc, sel, filter.value, fields.value, sort.value, limit.value)));
      }
    }
  }
}
