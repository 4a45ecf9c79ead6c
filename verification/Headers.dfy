/** Which SELECTs have a header the translator takes, and what their names denote, said clause by clause. */
module Headers {
  import opened Values
  import opened Sql
  import opened Mongo
  import opened Predicate
  import opened SelectQuery

  /** A field name: parts between dots, none empty and none starting with `$`; no NUL character. */
  predicate UsableName(s: string) {
    && s != "" && s[0] != '.' && s[0] != '$' && s[|s| - 1] != '.'
    && (forall i | 0 < i < |s| && s[i - 1] == '.' :: s[i] != '.' && s[i] != '$')
    && (forall i | 0 <= i < |s| :: s[i] != '\0')
  }

  /** `e` is a reference to the field `f` of the one collection. */
  predicate IsField(qualifier: string, e: Expr, f: string) {
    e.Column? && !e.joinMark && e.name == f && UsableName(f) && (e.table == None || e.table == Some(qualifier))
  }

  /** An aggregate of a field, or COUNT(*), without DISTINCT, FILTER or ORDER BY. */
  predicate IsAggregate(qualifier: string, e: Expr, a: Agg) {
    && e.AggCall? && !e.modified && a.kind == e.kind
    && if e.kind == Count && e.star then a.field == None
       else e.arg.Some? && a.field.Some? && IsField(qualifier, e.arg.value, a.field.value)
  }

  /** How an aggregate without an alias is called. */
  function DefaultName(a: Agg): string {
    (match a.kind case Count => "COUNT" case Sum => "SUM" case Avg => "AVG" case Min => "MIN" case Max => "MAX")
    + "(" + (match a.field case None => "*" case Some(f) => f) + ")"
  }

  /** One entry of the select list and the column it gives the result. */
  predicate IsOutput(qualifier: string, item: Item, o: Output) {
    && o.source == item.expr
    && (match o.agg case None => !item.expr.AggCall? case Some(a) => IsAggregate(qualifier, item.expr, a))
    && match item.alias
       case Some(alias) => !item.aliasColumns && o.name == alias && UsableName(alias) && '.' !in alias
       case None =>
         if item.expr.Column? then IsField(qualifier, item.expr, o.name)
         else o.name == if o.agg.Some? then DefaultName(o.agg.value) else "*"
  }

  /** The single collection read from, in the schema it names or else the default database. */
  predicate IsTarget(sel: Select, defaultDatabase: Option<string>, target: Target) {
    && |sel.from| == 1 && sel.from[0].Table? && !sel.from[0].decorated
    && target.collection == sel.from[0].name && target.database != ""
    && if sel.from[0].schema.Some? then sel.from[0].schema == Some(target.database) else defaultDatabase == Some(target.database)
  }

  function QualifierOf(s: Source): string
    requires s.Table?
  {
    if s.alias.Some? then s.alias.value else s.name
  }

  /** Either one unmodified star, or columns and aggregates only. */
  predicate IsSelectList(qualifier: string, items: seq<Item>, star: bool) {
    && items != []
    && if star then
         && |items| == 1 && items[0].expr.Star? && !items[0].expr.modified && (items[0].alias == None || items[0].alias == Some("*"))
         && (items[0].expr.starTable == None || items[0].expr.starTable == Some(qualifier))
       else OnlyColumns(items)
  }

  predicate OnlyColumns(items: seq<Item>) { forall i | 0 <= i < |items| :: items[i].expr.Column? || items[i].expr.AggCall? }

  ghost predicate AreOutputs(qualifier: string, items: seq<Item>, outputs: seq<Output>) {
    |outputs| == |items| && forall i | 0 <= i < |items| :: IsOutput(qualifier, items[i], outputs[i])
  }

  predicate HasAggregate(items: seq<Item>) { exists i | 0 <= i < |items| :: items[i].expr.AggCall? }

  ghost predicate Heads(sel: Select, defaultDatabase: Option<string>, h: Header) {
    && !sel.otherClauses && !sel.groupAllOrTotals && IsTarget(sel, defaultDatabase, h.target)
    && h.scope.qualifier == QualifierOf(sel.from[0])
    && IsSelectList(h.scope.qualifier, sel.items, h.scope.star)
    && AreOutputs(h.scope.qualifier, sel.items, h.scope.outputs)
    && (forall i, j | 0 <= i < j < |sel.items| :: h.scope.outputs[i].name != h.scope.outputs[j].name)
    && |h.scope.groups| == |sel.groupBy|
    && (forall i | 0 <= i < |sel.groupBy| :: IsField(h.scope.qualifier, sel.groupBy[i], h.scope.groups[i]))
    && (h.scope.grouped <==> sel.groupBy != [] || sel.having.Some? || HasAggregate(sel.items))
    && !(h.scope.grouped && h.scope.star)
  }

  // ----- names -----

  lemma {:induction false} TailUsable(s: string)
    ensures PartTailOk(s) <==> (s == "" || s[|s| - 1] != '.')
                               && forall i | 0 < i < |s| && s[i - 1] == '.' :: s[i] != '.' && s[i] != '$'
    decreases |s|, 0
  {
    if s != "" {
      var r := s[1..];
      assert forall i | 0 < i < |s| :: r[i - 1] == s[i];
      if s[0] == '.' { PartsUsable(r); } else { TailUsable(r); }
      assert r != "" ==> r[|r| - 1] == s[|s| - 1];
      if |s| > 1 { assert s[1 - 1] == s[0] && r[0] == s[1]; }
    }
  }

  lemma {:induction false} PartsUsable(s: string)
    ensures PartsOk(s) <==> s != "" && s[|s| - 1] != '.' && s[0] != '.' && s[0] != '$'
                            && forall i | 0 < i < |s| && s[i - 1] == '.' :: s[i] != '.' && s[i] != '$'
    decreases |s|, 1
  {
    if s != "" { TailUsable(s); }
  }

  lemma NameIff(s: string)
    ensures GoodName(s) <==> UsableName(s)
  {
    PartsUsable(s);
  }

  lemma ColumnIff(sc: Scope, e: Expr, f: string)
    ensures ColumnName(sc, e) == Ok(f) <==> IsField(sc.qualifier, e, f)
  {
    hide GoodName; hide UsableName;
    if e.Column? { NameIff(e.name); }
  }

  lemma AggregateIff(sc: Scope, e: Expr, a: Agg)
    ensures Aggregation(sc, e) == Ok(Some(a)) <==> IsAggregate(sc.qualifier, e, a)
    ensures Aggregation(sc, e) == Ok(None) <==> !e.AggCall?
  {
    hide ColumnName; hide IsField;
    if e.AggCall? && e.arg.Some? && a.field.Some? { ColumnIff(sc, e.arg.value, a.field.value); }
  }

  lemma OutputIff(sc: Scope, item: Item, o: Output)
    ensures OutputOf(sc, item) == Ok(o) <==> IsOutput(sc.qualifier, item, o)
  {
    hide ColumnName; hide IsField; hide Aggregation; hide IsAggregate; hide GoodName; hide UsableName;
    if o.agg.Some? { AggregateIff(sc, item.expr, o.agg.value); } else { AggregateIff(sc, item.expr, Agg(Count, None)); }
    if item.alias.Some? { NameIff(item.alias.value); } else if item.expr.Column? { ColumnIff(sc, item.expr, o.name); }
  }

  lemma {:induction false} OutputsIff(sc: Scope, items: seq<Item>, outputs: seq<Output>)
    ensures OutputsOf(sc, items) == Ok(outputs)
            <==> |outputs| == |items| && forall i | 0 <= i < |items| :: IsOutput(sc.qualifier, items[i], outputs[i])
  {
    hide OutputOf; hide IsOutput;
    if items != [] && outputs != [] {
      OutputIff(sc, items[0], outputs[0]);
      OutputsIff(sc, items[1..], outputs[1..]);
      assert outputs == [outputs[0]] + outputs[1..];
      assert forall i | 0 < i < |items| :: items[i] == items[1..][i - 1];
      assert forall i | 0 < i < |outputs| :: outputs[i] == outputs[1..][i - 1];
    }
  }

  lemma {:induction false} ColumnsIff(sc: Scope, es: seq<Expr>, names: seq<string>)
    ensures ColumnNames(sc, es) == Ok(names)
            <==> |names| == |es| && forall i | 0 <= i < |es| :: IsField(sc.qualifier, es[i], names[i])
  {
    hide ColumnName; hide IsField;
    if es != [] && names != [] {
      ColumnIff(sc, es[0], names[0]);
      ColumnsIff(sc, es[1..], names[1..]);
      assert names == [names[0]] + names[1..];
      assert forall i | 0 < i < |es| :: es[i] == es[1..][i - 1];
      assert forall i | 0 < i < |names| :: names[i] == names[1..][i - 1];
    }
  }

  // ----- the header -----

  predicate IsPlain(o: Output) { !o.source.Star? && (o.agg.Some? || o.source.Column?) }

  lemma OutputTells(qualifier: string, item: Item, o: Output)
    requires IsOutput(qualifier, item, o)
    ensures o.source == item.expr && (o.agg.Some? <==> item.expr.AggCall?)
    ensures IsPlain(o) <==> item.expr.Column? || item.expr.AggCall?
    ensures item.expr.Star? ==> (o.name == "*" <==> item.alias == None || item.alias == Some("*"))
  {
    hide IsField; hide UsableName;
  }

  lemma OutputsTell(qualifier: string, items: seq<Item>, outputs: seq<Output>)
    requires AreOutputs(qualifier, items, outputs)
    ensures (exists o | o in outputs :: o.agg.Some?) <==> HasAggregate(items)
    ensures (exists o | o in outputs :: !IsPlain(o)) <==> !OnlyColumns(items)
  {
    hide IsOutput; hide IsPlain;
    forall i | 0 <= i < |items|
      ensures (outputs[i].agg.Some? <==> items[i].expr.AggCall?)
      ensures IsPlain(outputs[i]) <==> items[i].expr.Column? || items[i].expr.AggCall?
      ensures outputs[i] in outputs
    {
      OutputTells(qualifier, items[i], outputs[i]);
    }
    if HasAggregate(items) {
      var i :| 0 <= i < |items| && items[i].expr.AggCall?;
      assert outputs[i] in outputs && outputs[i].agg.Some?;
    } else {
      forall o | o in outputs ensures o.agg.None? { var i :| 0 <= i < |outputs| && outputs[i] == o; assert !items[i].expr.AggCall?; }
    }
    if OnlyColumns(items) {
      forall o | o in outputs ensures IsPlain(o) { var i :| 0 <= i < |outputs| && outputs[i] == o; assert IsPlain(outputs[i]); }
    } else {
      var i :| 0 <= i < |items| && !(items[i].expr.Column? || items[i].expr.AggCall?);
      assert outputs[i] in outputs && !IsPlain(outputs[i]);
    }
  }

  /** What is checked of the source, before the select list. */
  predicate GoodSource(sel: Select, defaultDatabase: Option<string>) {
    && !sel.otherClauses && |sel.from| == 1 && sel.from[0].Table? && !sel.from[0].decorated
    && var database := if sel.from[0].schema.Some? then sel.from[0].schema else defaultDatabase; database.Some? && database.value != ""
  }

  function BaseScope(s: Source): Scope
    requires s.Table?
  {
    Scope(QualifierOf(s), [], false, [], false)
  }

  predicate BadStar(qualifier: string, o: Output)
    requires o.source.Star?
  {
    o.name != "*" || o.source.modified || (o.source.starTable.Some? && o.source.starTable.value != qualifier)
  }

  /** The header from its parts. */
  lemma HeaderGiven(sel: Select, defaultDatabase: Option<string>, outputs: seq<Output>, groups: seq<string>)
    requires GoodSource(sel, defaultDatabase)
    requires OutputsOf(BaseScope(sel.from[0]), sel.items) == Ok(outputs) && ColumnNames(BaseScope(sel.from[0]), sel.groupBy) == Ok(groups)
    ensures var source := sel.from[0];
            var star := |outputs| == 1 && outputs[0].source.Star?;
            var grouped := groups != [] || (exists o | o in outputs :: o.agg.Some?) || sel.having.Some?;
            HeaderOf(sel, defaultDatabase)
            == if outputs == [] || !NamesDistinct(outputs) || (star && BadStar(QualifierOf(source), outputs[0]))
                  || (!star && exists o | o in outputs :: !IsPlain(o)) || sel.groupAllOrTotals || (grouped && star) then Rejected
               else Ok(Header(Target((if source.schema.Some? then source.schema else defaultDatabase).value, source.name),
                              Scope(QualifierOf(source), outputs, star, groups, grouped)))
  {
    hide OutputsOf; hide ColumnNames; hide NamesDistinct;
  }

  lemma HeaderNeeds(sel: Select, defaultDatabase: Option<string>)
    requires HeaderOf(sel, defaultDatabase).Ok?
    ensures GoodSource(sel, defaultDatabase)
    ensures OutputsOf(BaseScope(sel.from[0]), sel.items).Ok? && ColumnNames(BaseScope(sel.from[0]), sel.groupBy).Ok?
  {
    hide OutputsOf; hide ColumnNames; hide NamesDistinct;
  }

  lemma HeaderHeads(sel: Select, defaultDatabase: Option<string>, h: Header)
    requires HeaderOf(sel, defaultDatabase) == Ok(h)
    ensures Heads(sel, defaultDatabase, h)
  {
    hide OutputsOf; hide ColumnNames; hide IsOutput; hide IsField; hide HeaderOf; hide IsPlain;
    HeaderNeeds(sel, defaultDatabase);
    var base := BaseScope(sel.from[0]);
    var outputs, groups := OutputsOf(base, sel.items).value, ColumnNames(base, sel.groupBy).value;
    HeaderGiven(sel, defaultDatabase, outputs, groups);
    OutputsIff(base, sel.items, outputs);
    ColumnsIff(base, sel.groupBy, groups);
    OutputsTell(base.qualifier, sel.items, outputs);
    if |outputs| == 1 { OutputTells(base.qualifier, sel.items[0], outputs[0]); }
  }

  lemma HeadsHeader(sel: Select, defaultDatabase: Option<string>, h: Header)
    requires Heads(sel, defaultDatabase, h)
    ensures HeaderOf(sel, defaultDatabase) == Ok(h)
  {
    hide OutputsOf; hide ColumnNames; hide IsOutput; hide IsField; hide HeaderOf; hide IsPlain;
    var base, outputs := BaseScope(sel.from[0]), h.scope.outputs;
    OutputsIff(base, sel.items, outputs);
    ColumnsIff(base, sel.groupBy, h.scope.groups);
    HeaderGiven(sel, defaultDatabase, outputs, h.scope.groups);
    OutputsTell(base.qualifier, sel.items, outputs);
    if |outputs| == 1 { OutputTells(base.qualifier, sel.items[0], outputs[0]); }
  }

  /** A SELECT has one header at most, and has it exactly when its clauses are these. */
  lemma HeaderIff(sel: Select, defaultDatabase: Option<string>, h: Header)
    ensures HeaderOf(sel, defaultDatabase) == Ok(h) <==> Heads(sel, defaultDatabase, h)
  {
    hide HeaderOf; hide Heads;
    if HeaderOf(sel, defaultDatabase) == Ok(h) { HeaderHeads(sel, defaultDatabase, h); }
    if Heads(sel, defaultDatabase, h) { HeadsHeader(sel, defaultDatabase, h); }
  }
}
