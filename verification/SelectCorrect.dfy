/** The native query returns the SQL answer, for every accepted SELECT and every collection of flat documents. */
module SelectCorrect {
  import opened Values
  import opened Ordering
  import opened Partition
  import opened Sql
  import opened Mongo
  import opened HavingNames
  import opened Predicate
  import opened Grouping
  import opened OrderSpec
  import opened SelectQuery

  // ----- WHERE -----

  lemma MatchesPair(a: Filter, b: Filter, d: Doc)
    ensures Matches(AndF([a, b]), d) <==> Matches(a, d) && Matches(b, d)
    ensures Matches(OrF([a, b]), d) <==> Matches(a, d) || Matches(b, d)
  {
    assert [a, b][1..] == [b] && [b][1..] == [];
    assert MatchesAll([a, b], d) == (Matches(a, d) && MatchesAll([b], d));
    assert MatchesAll([b], d) == (Matches(b, d) && MatchesAll([], d));
    assert MatchesAny([a, b], d) == (Matches(a, d) || MatchesAny([b], d));
    assert MatchesAny([b], d) == (Matches(b, d) || MatchesAny([], d));
  }

  /** Match equality agrees with SQL equality on a row exactly when the field is no array that contains the literal. */
  lemma FieldEqFaithfulIff(field: string, v: Value, d: Doc)
    requires Scalar(v) && !v.Null?
    ensures (Matches(FieldEq(field, v), d) <==> Compare3(Eq, Read(d, field), v) == True)
            <==> !(Read(d, field).Arr? && v in Read(d, field).items)
  {
  }

  /** List membership means the same on both sides, on every document. */
  lemma ElemEqDenotes(field: string, v: Value, d: Doc)
    requires !v.Null?
    ensures Matches(ElemEq(field, v), d) <==> ListContains3(Read(d, field), v) == True
  {
  }

  /** A comparison that becomes a match equality meets no array that contains its literal; others compare no two arrays or objects. */
  predicate ComparisonFits(sc: Scope, e: Expr, d: Doc)
    requires e.Compare?
  {
    if e.op == Eq && e.l.Column? != e.r.Column? then
      var field, v := if e.l.Column? then e.l.name else e.r.name, LitValue(if e.l.Column? then e.r else e.l);
      v.Null? || !(Read(d, field).Arr? && v in Read(d, field).items)
    else Comparables(sc, e, Row(d))
  }

  /** What the match filter of `e` needs of a document; list membership needs nothing. */
  predicate FilterFits(sc: Scope, e: Expr, d: Doc) {
    match e
    case Paren(x) => FilterFits(sc, x, d)
    case And(l, r) => FilterFits(sc, l, d) && FilterFits(sc, r, d)
    case Or(l, r) => FilterFits(sc, l, d) && FilterFits(sc, r, d)
    case Compare(_, _, _) => ComparisonFits(sc, e, d)
    case _ => Comparables(sc, e, Row(d))
  }

  lemma ListMatchDenotes(sc: Scope, e: Expr, d: Doc)
    requires e.ListContains? && MatchFilter(sc, e).Ok?
    ensures Matches(MatchFilter(sc, e).value, d) <==> SqlTruth(sc, e, Row(d)) == True
  {
    LiteralDenotes(e.args[1]);
    if !LitValue(e.args[1]).Null? { ElemEqDenotes(e.args[0].name, LitValue(e.args[1]), d); }
  }

  lemma ComparisonMatchDenotes(sc: Scope, e: Expr, d: Doc)
    requires e.Compare? && MatchFilter(sc, e).Ok? && ComparisonFits(sc, e, d)
    ensures Matches(MatchFilter(sc, e).value, d) <==> SqlTruth(sc, e, Row(d)) == True
  {
    hide Pred; hide Eval;
    if e.op == Eq && e.l.Column? != e.r.Column? {
      LiteralDenotes(if e.l.Column? then e.r else e.l);
      var v := LitValue(if e.l.Column? then e.r else e.l);
      if v.Null? { PredDenotes(sc, [], e, false, false, Row(d), d); } else { FieldEqFaithfulIff(if e.l.Column? then e.l.name else e.r.name, v, d); }
    } else {
      PredDenotes(sc, [], e, false, false, Row(d), d);
    }
  }

  lemma {:induction false} MatchFilterDenotes(sc: Scope, e: Expr, d: Doc)
    requires MatchFilter(sc, e).Ok? && FilterFits(sc, e, d)
    ensures Matches(MatchFilter(sc, e).value, d) <==> SqlTruth(sc, e, Row(d)) == True
  {
    match e
    case Paren(x) => MatchFilterDenotes(sc, x, d);
    case And(l, r) =>
      MatchFilterDenotes(sc, l, d);
      MatchFilterDenotes(sc, r, d);
      MatchesPair(MatchFilter(sc, l).value, MatchFilter(sc, r).value, d);
    case Or(l, r) =>
      MatchFilterDenotes(sc, l, d);
      MatchFilterDenotes(sc, r, d);
      MatchesPair(MatchFilter(sc, l).value, MatchFilter(sc, r).value, d);
    case ListContains(_, _) => ListMatchDenotes(sc, e, d);
    case Compare(_, _, _) => ComparisonMatchDenotes(sc, e, d);
    case _ => PredDenotes(sc, [], e, false, false, Row(d), d);
  }

  predicate ConditionFits(sc: Scope, e: Expr, mongoMatch: bool, d: Doc) {
    if mongoMatch then FilterFits(sc, e, d) else Comparables(sc, e, Row(d))
  }

  ghost predicate WhereFits(sc: Scope, cond: Option<Expr>, mongoMatch: bool, docs: seq<Doc>) {
    cond.Some? ==> forall i | 0 <= i < |docs| :: ConditionFits(sc, cond.value, mongoMatch, docs[i])
  }

  lemma {:induction false} WhereDenotes(sc: Scope, cond: Option<Expr>, mongoMatch: bool, docs: seq<Doc>)
    requires WhereFilter(sc, cond, mongoMatch).Ok? && WhereFits(sc, cond, mongoMatch, docs)
    ensures Matching(WhereFilter(sc, cond, mongoMatch).value, docs) == Filtered(sc, cond, docs)
    ensures cond.None? ==> Filtered(sc, cond, docs) == docs
  {
    if docs != [] {
      assert cond.Some? ==> ConditionFits(sc, cond.value, mongoMatch, docs[0]);
      WhereDenotes(sc, cond, mongoMatch, docs[1..]);
      if cond.Some? {
        if mongoMatch { MatchFilterDenotes(sc, cond.value, docs[0]); }
        else { PredDenotes(sc, [], cond.value, false, false, Row(docs[0]), docs[0]); }
      }
    }
  }

  lemma {:induction false} FilteredFrom(sc: Scope, cond: Option<Expr>, docs: seq<Doc>)
    ensures From(Filtered(sc, cond, docs), docs)
  {
    if docs != [] { FilteredFrom(sc, cond, docs[1..]); }
  }

  lemma FilteredKeeps(sc: Scope, cond: Option<Expr>, docs: seq<Doc>, t: Table)
    requires ScalarFields(sc.groups, docs) && TableFits(t, docs)
    ensures ScalarFields(sc.groups, Filtered(sc, cond, docs)) && TableFits(t, Filtered(sc, cond, docs))
  {
    FilteredFrom(sc, cond, docs);
    ScalarFieldsFrom(sc.groups, docs, Filtered(sc, cond, docs));
    TableFitsFrom(t, docs, Filtered(sc, cond, docs));
  }

  // ----- stage by stage -----

  lemma {:induction false} HavingPairwise(sc: Scope, t: Table, e: Expr, envs: seq<Env>, docs: seq<Doc>)
    requires Pairwise(sc, t, true, envs, docs) && Pred(sc, t, e, true, false).Ok? && Fits(t, e) && NamesAgree(sc, e)
    ensures Pairwise(sc, t, true, Kept(sc, Some(e), envs), Matching(ExprF(Pred(sc, t, e, true, false).value), docs))
  {
    if docs != [] {
      assert Denotes(sc, t, true, envs[0], docs[0]);
      PredDenotes(sc, t, e, true, false, envs[0], docs[0]);
      assert Pairwise(sc, t, true, envs[1..], docs[1..]);
      HavingPairwise(sc, t, e, envs[1..], docs[1..]);
    }
  }

  lemma {:induction false} KeptAll(sc: Scope, envs: seq<Env>)
    ensures Kept(sc, None, envs) == envs
  {
    if envs != [] { KeptAll(sc, envs[1..]); }
  }

  lemma {:induction false} EachMaps(s: Stage, docs: seq<Doc>, coll: seq<Doc>)
    requires s.SetS? || s.Project?
    ensures |Each(s, docs, coll)| == |docs|
    ensures forall i | 0 <= i < |docs| ::
      Each(s, docs, coll)[i] == if s.SetS? then SetDoc(s.name, s.e, docs[i]) else ProjectDoc(s.fields, docs[i])
  {
    if docs != [] { EachMaps(s, docs[1..], coll); }
  }

  lemma SortSlotApart(i: nat, j: nat)
    ensures SortSlot(i) != Slot(j) && SortSlot(i) != CountSlot(j) && SortSlot(i) != "_id"
    ensures SortSlot(i) == SortSlot(j) ==> i == j
  {
    assert SortSlot(i)[0] == 's' && Slot(j)[0] == 'a' && CountSlot(j)[0] == 'a' && "_id"[0] == '_';
    assert SortSlot(i)[1..] == Dec(i) && SortSlot(j)[1..] == Dec(j);
    if Dec(i) == Dec(j) { DecInjective(i, j); }
  }

  /** Adding a sort slot leaves what the document presents. */
  lemma SetKeepsDenotes(sc: Scope, t: Table, env: Env, d: Doc, k: nat, v: Value)
    requires Denotes(sc, t, true, env, d)
    ensures Denotes(sc, t, true, env, d[SortSlot(k) := v])
  {
    var e := d[SortSlot(k) := v];
    forall i | 0 <= i < |env.key| ensures Eval(IdField(GroupKeyName(i)), e, map[]) == Some(env.key[i]) {
      SortSlotApart(k, i);
      assert Eval(IdField(GroupKeyName(i)), d, map[]) == Some(env.key[i]);
    }
    forall i | 0 <= i < |t| ensures Eval(Reference(t[i].kind, i), e, map[]) == Some(AggValue(t[i], env.rows)) {
      SortSlotApart(k, i);
      assert SlotHolds(t[i], i, d, env.rows);
      SlotKept(t[i], i, d, e, env.rows);
      assert SlotHolds(t[i], i, e, env.rows);
    }
  }

  lemma SortExprsLast(sc: Scope, t: Table, orderBy: seq<Ordered>)
    requires orderBy != [] && SortExprs(sc, t, orderBy).Ok?
    ensures var n := |orderBy| - 1;
            && SortExprs(sc, t, orderBy[..n]).Ok? && GroupRef(sc, t, Resolve(sc, orderBy[n].expr)).Ok?
            && SortExprs(sc, t, orderBy).value
               == SortExprs(sc, t, orderBy[..n]).value + [GroupRef(sc, t, Resolve(sc, orderBy[n].expr)).value]
  {
    hide GroupRef; hide Resolve;
  }

  lemma {:induction false} SortExprsSize(sc: Scope, t: Table, orderBy: seq<Ordered>)
    requires SortExprs(sc, t, orderBy).Ok?
    ensures |SortExprs(sc, t, orderBy).value| == |orderBy|
  {
    hide GroupRef; hide Resolve;
    if orderBy != [] {
      SortExprsLast(sc, t, orderBy);
      SortExprsSize(sc, t, orderBy[..|orderBy| - 1]);
    }
  }

  lemma {:induction false} SortExprAt(sc: Scope, t: Table, orderBy: seq<Ordered>, j: nat)
    requires SortExprs(sc, t, orderBy).Ok? && j < |orderBy|
    ensures |SortExprs(sc, t, orderBy).value| == |orderBy|
    ensures GroupRef(sc, t, Resolve(sc, orderBy[j].expr)) == Ok(SortExprs(sc, t, orderBy).value[j])
  {
    hide GroupRef; hide Resolve; hide SortExprs;
    var n := |orderBy| - 1;
    SortExprsSize(sc, t, orderBy);
    SortExprsLast(sc, t, orderBy);
    SortExprsSize(sc, t, orderBy[..n]);
    if j < n { SortExprAt(sc, t, orderBy[..n], j); }
  }

  ghost predicate FitsOrder(t: Table, orderBy: seq<Ordered>) { forall i | 0 <= i < |orderBy| :: Fits(t, orderBy[i].expr) }

  /** The first `k` sort slots hold the ORDER BY terms. */
  ghost predicate SlotsSet(sc: Scope, orderBy: seq<Ordered>, k: nat, env: Env, d: Doc)
    requires k <= |orderBy|
  {
    forall j | 0 <= j < k :: Read(d, SortSlot(j)) == OrderTerm(sc, orderBy[j].expr, env)
  }

  lemma SetSlotDenotes(sc: Scope, t: Table, orderBy: seq<Ordered>, k: nat, env: Env, d: Doc)
    requires SortExprs(sc, t, orderBy).Ok? && FitsOrder(t, orderBy) && k < |orderBy|
    requires Denotes(sc, t, true, env, d) && SlotsSet(sc, orderBy, k, env, d)
    requires |SortExprs(sc, t, orderBy).value| == |orderBy|
    ensures var e := SetDoc(SortSlot(k), SortExprs(sc, t, orderBy).value[k], d);
            Denotes(sc, t, true, env, e) && SlotsSet(sc, orderBy, k + 1, env, e)
  {
    hide GroupRef; hide SortSlot; hide Presents;
    SortExprAt(sc, t, orderBy, k);
    var x := orderBy[k].expr;
    if x.Column? { FindOutputFits(t, sc.outputs, x.name); }
    GroupRefDenotes(sc, t, Resolve(sc, x), env.key, env.rows, d);
    SetKeepsDenotes(sc, t, env, d, k, OrderTerm(sc, x, env));
    forall j | 0 <= j < k ensures SortSlot(j) != SortSlot(k) { SortSlotApart(j, k); }
  }

  lemma {:induction false} SetStagesRun(sc: Scope, t: Table, orderBy: seq<Ordered>, k: nat, envs: seq<Env>, docs: seq<Doc>, coll: seq<Doc>)
    requires SortExprs(sc, t, orderBy).Ok? && |SortExprs(sc, t, orderBy).value| == |orderBy|
    requires FitsOrder(t, orderBy) && k <= |orderBy|
    requires Pairwise(sc, t, true, envs, docs) && forall i | 0 <= i < |docs| :: SlotsSet(sc, orderBy, k, envs[i], docs[i])
    ensures var out := Run(SetStages(SortExprs(sc, t, orderBy).value, 0)[k..], docs, coll);
            Pairwise(sc, t, true, envs, out) && forall i | 0 <= i < |out| :: SlotsSet(sc, orderBy, |orderBy|, envs[i], out[i])
    decreases |orderBy| - k
  {
    var stages := SetStages(SortExprs(sc, t, orderBy).value, 0);
    if k < |orderBy| {
      var next := Each(stages[k], docs, coll);
      EachMaps(stages[k], docs, coll);
      forall i | 0 <= i < |docs|
        ensures Denotes(sc, t, true, envs[i], next[i]) && SlotsSet(sc, orderBy, k + 1, envs[i], next[i])
      {
        SetSlotDenotes(sc, t, orderBy, k, envs[i], docs[i]);
      }
      assert stages[k..][0] == stages[k] && stages[k..][1..] == stages[k + 1..];
      SetStagesRun(sc, t, orderBy, k + 1, envs, next, coll);
    }
  }

  // ----- ORDER BY -----

  lemma {:induction false} NothingLess(keys: seq<Key>, perm: seq<nat>, x: nat)
    requires Sized(keys, []) && x < |keys| && InRange(perm, |keys|)
    ensures Insert(perm, keys, [], x) == perm + [x]
  {
    if perm != [] { NothingLess(keys, perm[1..], x); }
  }

  lemma {:induction false} NoOrder(keys: seq<Key>, n: nat)
    requires Sized(keys, []) && n <= |keys|
    ensures SortPrefix(keys, [], n) == Iota(n)
  {
    if n > 0 {
      NoOrder(keys, n - 1);
      NothingLess(keys, SortPrefix(keys, [], n - 1), n - 1);
    }
  }

  lemma PickAll<T>(items: seq<T>)
    ensures Pick(items, Iota(|items|)) == items
  {
  }

  lemma SortedNothing(docs: seq<Doc>)
    ensures Sorted([], docs) == docs
  {
    NoOrder(SortKeys([], docs), |docs|);
    PickAll(docs);
  }

  /** Sorting rows and documents that carry the same keys keeps them in step. */
  lemma SortKeepsStep(spec: SortSpec, sc: Scope, orderBy: seq<Ordered>, envs: seq<Env>, docs: seq<Doc>)
    requires |envs| == |docs| && SpecDirections(spec) == Directions(orderBy)
    requires forall i | 0 <= i < |docs| :: SortKey(spec, docs[i]) == OrderKey(sc, orderBy, envs[i])
    ensures var order := SortOrder(OrderKeys(sc, orderBy, envs), Directions(orderBy));
            Sorted(spec, docs) == Pick(docs, order) && |order| == |envs|
  {
    assert SortKeys(spec, docs) == OrderKeys(sc, orderBy, envs);
  }

  lemma {:induction false} SlotSpecDenotes(sc: Scope, orderBy: seq<Ordered>, k: nat, env: Env, d: Doc)
    requires forall j | 0 <= j < |orderBy| :: Read(d, SortSlot(k + j)) == OrderTerm(sc, orderBy[j].expr, env)
    ensures SortKey(SlotSpec(orderBy, k), d) == OrderKey(sc, orderBy, env)
    ensures SpecDirections(SlotSpec(orderBy, k)) == Directions(orderBy)
  {
    if orderBy != [] {
      assert SlotSpec(orderBy, k)[1..] == SlotSpec(orderBy[1..], k + 1);
      forall j | 0 <= j < |orderBy[1..]|
        ensures Read(d, SortSlot(k + 1 + j)) == OrderTerm(sc, orderBy[1..][j].expr, env)
      {
        assert orderBy[1..][j] == orderBy[j + 1] && k + 1 + j == k + (j + 1);
      }
      SlotSpecDenotes(sc, orderBy[1..], k + 1, env, d);
    }
  }

  lemma {:induction false} SlotSpecDirections(orderBy: seq<Ordered>, k: nat)
    ensures SpecDirections(SlotSpec(orderBy, k)) == Directions(orderBy)
  {
    if orderBy != [] {
      assert SlotSpec(orderBy, k)[1..] == SlotSpec(orderBy[1..], k + 1);
      SlotSpecDirections(orderBy[1..], k + 1);
    }
  }

  lemma {:induction false} OrderListAt(sc: Scope, orderBy: seq<Ordered>, j: nat)
    requires OrderList(sc, orderBy).Ok? && j < |orderBy|
    ensures |OrderList(sc, orderBy).value| == |orderBy|
    ensures ColumnName(sc, Resolve(sc, orderBy[j].expr)) == Ok(OrderList(sc, orderBy).value[j].0)
    ensures OrderList(sc, orderBy).value[j].1 == orderBy[j].desc
  {
    var n := |orderBy| - 1;
    if j < n { OrderListAt(sc, orderBy[..n], j); }
    else if n > 0 { OrderListAt(sc, orderBy[..n], 0); }
  }

  lemma {:induction false} ListKeyDenotes(sc: Scope, orderBy: seq<Ordered>, list: SortSpec, d: Doc)
    requires |list| == |orderBy|
    requires forall j | 0 <= j < |list| :: list[j].1 == orderBy[j].desc && ColumnName(sc, Resolve(sc, orderBy[j].expr)) == Ok(list[j].0)
    ensures SortKey(list, d) == OrderKey(sc, orderBy, Row(d))
    ensures SpecDirections(list) == Directions(orderBy)
  {
    if list != [] {
      assert ColumnName(sc, Resolve(sc, orderBy[0].expr)) == Ok(list[0].0);
      forall j | 0 <= j < |list[1..]|
        ensures list[1..][j].1 == orderBy[1..][j].desc && ColumnName(sc, Resolve(sc, orderBy[1..][j].expr)) == Ok(list[1..][j].0)
      {
        assert list[1..][j] == list[j + 1] && orderBy[1..][j] == orderBy[j + 1];
      }
      ListKeyDenotes(sc, orderBy[1..], list[1..], d);
    }
  }

  // ----- LIMIT and the select list -----

  lemma LimitDenotes(sel: Select, n: nat)
    requires LimitValue(sel.limit).Ok?
    ensures LimitOf(sel, n) == match LimitValue(sel.limit).value case None => n case Some(m) => if m < n then m else n
  {
    if sel.limit.Some? { LiteralDenotes(sel.limit.value); }
  }

  lemma {:induction false} MatchNothing(docs: seq<Doc>)
    ensures Matching(ExprF(Lit(Bool(false))), docs) == []
  {
    if docs != [] { MatchNothing(docs[1..]); }
  }

  lemma LimitRun(limit: Option<nat>, docs: seq<Doc>, coll: seq<Doc>)
    ensures Run(LimitStages(limit), docs, coll) ==
            match limit case None => docs case Some(n) => if n < |docs| then docs[..n] else docs
  {
    match limit
    case None =>
    case Some(n) =>
      RunOne(LimitStages(limit)[0], docs, coll);
      MatchNothing(docs);
  }

  lemma ProjectLast(fields: Fields, d: Doc, v: Value)
    requires fields != [] && Eval(fields[|fields| - 1].1, d, map[]) == Some(v)
    ensures ProjectDoc(fields, d) == ProjectDoc(fields[..|fields| - 1], d)[fields[|fields| - 1].0 := v]
  {
  }

  /** Every projected expression is defined, so the projected document is the result row. */
  lemma {:induction false} ProjectDenotes(sc: Scope, t: Table, outputs: seq<Output>, env: Env, d: Doc)
    requires Projection(sc, t, outputs).Ok? && Denotes(sc, t, sc.grouped, env, d)
    requires sc.grouped ==> forall i | 0 <= i < |outputs| :: Fits(t, outputs[i].source)
    ensures ProjectDoc(Projection(sc, t, outputs).value, d) == ResultRow(sc, outputs, env)
  {
    if outputs != [] {
      var n := |outputs| - 1;
      ProjectDenotes(sc, t, outputs[..n], env, d);
      var fields, last := Projection(sc, t, outputs).value, OutputExpr(sc, t, outputs[n]).value;
      assert fields[..|fields| - 1] == Projection(sc, t, outputs[..n]).value;
      if sc.grouped {
        GroupRefDenotes(sc, t, outputs[n].source, env.key, env.rows, d);
      } else {
        FieldOrNull(outputs[n].source.name, d, map[]);
      }
      ProjectLast(fields, d, OutputValue(sc, outputs[n].source, env));
    }
  }

  lemma ProjectRun(sc: Scope, t: Table, envs: seq<Env>, docs: seq<Doc>, coll: seq<Doc>)
    requires Projection(sc, t, sc.outputs).Ok? && Pairwise(sc, t, sc.grouped, envs, docs) && !sc.star
    requires sc.grouped ==> FitsOutputs(t, sc)
    ensures Run([Project(Projection(sc, t, sc.outputs).value)], docs, coll) == ResultDocs(sc, envs)
  {
    var stage := Project(Projection(sc, t, sc.outputs).value);
    RunOne(stage, docs, coll);
    EachMaps(stage, docs, coll);
    forall i | 0 <= i < |docs| ensures ProjectDoc(stage.fields, docs[i]) == ResultDoc(sc, envs[i]) {
      assert Denotes(sc, t, sc.grouped, envs[i], docs[i]);
      ProjectDenotes(sc, t, sc.outputs, envs[i], docs[i]);
    }
  }

  lemma PickPairwise(sc: Scope, t: Table, ag: bool, envs: seq<Env>, docs: seq<Doc>, order: seq<nat>, n: nat)
    requires Pairwise(sc, t, ag, envs, docs) && InRange(order, |envs|) && n <= |order|
    ensures Pairwise(sc, t, ag, Pick(envs, order)[..n], Pick(docs, order)[..n])
  {
    forall i | 0 <= i < n ensures Denotes(sc, t, ag, Pick(envs, order)[i], Pick(docs, order)[i]) {
      assert Denotes(sc, t, ag, envs[order[i]], docs[order[i]]);
    }
  }

  // ----- whole queries -----

  /** What the header check guarantees about an accepted SELECT. */
  ghost predicate WellScoped(sc: Scope, sel: Select) {
    && (sc.star ==> !sc.grouped)
    && (sc.groups != [] || sel.having.Some? ==> sc.grouped)
    && (!sc.grouped && !sc.star ==> forall i | 0 <= i < |sc.outputs| :: sc.outputs[i].source.Column?)
    && (forall i | 0 <= i < |sc.outputs| :: sc.outputs[i].source.AggCall? ==> sc.grouped)
    && NamesDistinct(sc.outputs) && sc.outputs != []
  }

  lemma HeaderScoped(sel: Select, defaultDatabase: Option<string>)
    requires HeaderOf(sel, defaultDatabase).Ok?
    ensures WellScoped(HeaderOf(sel, defaultDatabase).value.scope, sel)
    ensures var sc := HeaderOf(sel, defaultDatabase).value.scope;
            |sc.outputs| == |sel.items| && forall i | 0 <= i < |sel.items| :: sc.outputs[i].source == sel.items[i].expr
  {
    hide OutputOf; hide ColumnNames;
    var sc := HeaderOf(sel, defaultDatabase).value.scope;
    forall i | 0 <= i < |sel.items|
      ensures sc.outputs[i].source == sel.items[i].expr && (sc.outputs[i].source.AggCall? ==> sc.outputs[i].agg.Some?)
    {
      OutputIs(Scope(sc.qualifier, [], false, [], false), sel.items[i]);
      assert sc.outputs[i] in sc.outputs;
    }
  }

  lemma OutputIs(sc: Scope, item: Item)
    requires OutputOf(sc, item).Ok?
    ensures var o := OutputOf(sc, item).value; o.source == item.expr && (o.source.AggCall? ==> o.agg.Some?)
  {
    hide Identifier; hide ColumnName;
  }

  /** Ungrouped ORDER BY keeps its meaning as a sort object. */
  predicate OrderFaithful(sc: Scope, sel: Select) {
    !sc.grouped && OrderList(sc, sel.orderBy).Ok? ==>
      var list := OrderList(sc, sel.orderBy).value;
      IndicesFirst(FirstMentions(list)) && DirectionsKept(list)
  }

  /** Every aggregate of HAVING has its own slot, and every name of it means the same on both sides. */
  predicate HavingFits(sc: Scope, t: Table, having: Option<Expr>) {
    having.Some? ==> Fits(t, having.value) && NamesAgree(sc, having.value)
  }

  /** The columns an ungrouped ORDER BY reads; MongoDB sorts an array by one of its elements, which is not modelled. */
  function OrderFields(sc: Scope, orderBy: seq<Ordered>): seq<string> {
    if orderBy == [] then []
    else
      var x := Resolve(sc, orderBy[0].expr);
      (if x.Column? then [x.name] else []) + OrderFields(sc, orderBy[1..])
  }

  /** The documents have scalars where the query groups, orders, aggregates or compares; elsewhere they may hold anything. */
  ghost predicate DocumentsFit(sc: Scope, sel: Select, mongoMatch: bool, docs: seq<Doc>) {
    && WhereFits(sc, sel.filter, mongoMatch, docs) && ScalarFields(sc.groups, docs)
    && (!sc.grouped ==> ScalarFields(OrderFields(sc, sel.orderBy), docs))
  }

  /** The documents fit, every aggregate has its own slot, HAVING names agree, and ORDER BY is kept. */
  ghost predicate Supported(sc: Scope, sel: Select, t: Table, mongoMatch: bool, docs: seq<Doc>) {
    && DocumentsFit(sc, sel, mongoMatch, docs) && TableFits(t, docs) && SoundTable(t)
    && FitsOutputs(t, sc) && FitsOrder(t, sel.orderBy) && HavingFits(sc, t, sel.having) && OrderFaithful(sc, sel)
  }

  /** Flat documents fit every query. */
  lemma FlatFits(sc: Scope, sel: Select, mongoMatch: bool, docs: seq<Doc>)
    requires AllFlat(docs)
    ensures DocumentsFit(sc, sel, mongoMatch, docs)
  {
    if sel.filter.Some? {
      forall i | 0 <= i < |docs| ensures ConditionFits(sc, sel.filter.value, mongoMatch, docs[i]) {
        assert Flat(docs[i]);
        FlatConditionFits(sc, sel.filter.value, docs[i]);
      }
    }
    FlatFields(sc.groups, docs);
    FlatFields(OrderFields(sc, sel.orderBy), docs);
  }

  lemma {:induction false} LitScalar(e: Expr)
    ensures Scalar(LitValue(e))
  {
  }

  lemma {:induction false} FlatConditionFits(sc: Scope, e: Expr, d: Doc)
    requires Flat(d)
    ensures FilterFits(sc, e, d) && Comparables(sc, e, Row(d))
  {
    match e
    case Paren(x) => FlatConditionFits(sc, x, d);
    case Not(x) => FlatConditionFits(sc, x, d);
    case And(l, r) => FlatConditionFits(sc, l, d); FlatConditionFits(sc, r, d);
    case Or(l, r) => FlatConditionFits(sc, l, d); FlatConditionFits(sc, r, d);
    case Compare(_, l, r) => LitScalar(l); LitScalar(r);
    case _ =>
  }

  lemma FilterRun(sc: Scope, sel: Select, mongoMatch: bool, docs: seq<Doc>, coll: seq<Doc>)
    requires WhereFilter(sc, sel.filter, mongoMatch).Ok? && WhereFits(sc, sel.filter, mongoMatch, docs)
    ensures Run(FilterStages(sel, WhereFilter(sc, sel.filter, mongoMatch).value), docs, coll) == Filtered(sc, sel.filter, docs)
  {
    WhereDenotes(sc, sel.filter, mongoMatch, docs);
    if sel.filter.Some? { RunOne(FilterStages(sel, WhereFilter(sc, sel.filter, mongoMatch).value)[0], docs, coll); }
  }

  /** The documents after grouping and HAVING present the candidate groups. */
  lemma GroupingRun(sc: Scope, sel: Select, t: Table, kept: seq<Doc>, coll: seq<Doc>)
    requires ScalarFields(sc.groups, kept) && TableFits(t, kept) && SoundTable(t) && FitsOutputs(t, sc)
    requires HavingExpr(sc, t, sel.having).Ok? && HavingFits(sc, t, sel.having)
    ensures Pairwise(sc, t, true, Kept(sc, sel.having, Groups(sc.groups, kept)),
                     Run(GroupStages(sc, t) + HavingStages(HavingExpr(sc, t, sel.having).value), kept, coll))
  {
    var having := HavingStages(HavingExpr(sc, t, sel.having).value);
    RunAppend(GroupStages(sc, t), having, kept, coll);
    var groups := Groups(sc.groups, kept);
    var out := Run(GroupStages(sc, t), kept, coll);
    assert Pairwise(sc, t, true, groups, out) by {
      if sc.groups != [] {
        RunOne(GroupStages(sc, t)[0], kept, coll);
        GroupStagePresents(sc, t, kept);
      } else {
        GlobalStagesPresent(sc, t, kept, coll);
      }
    }
    if sel.having.Some? {
      RunOne(having[0], out, coll);
      HavingPairwise(sc, t, sel.having.value, groups, out);
    } else {
      KeptAll(sc, groups);
    }
  }

  lemma SortStagesRun(spec: SortSpec, docs: seq<Doc>, coll: seq<Doc>)
    ensures Run(SortStages(spec), docs, coll) == Sorted(spec, docs)
  {
    if spec == [] { SortedNothing(docs); } else { RunOne(SortS(spec), docs, coll); }
  }

  /** Once the slots are set, `$sort` on them orders the documents as ORDER BY orders the groups. */
  lemma SlotOrderRun(sc: Scope, t: Table, orderBy: seq<Ordered>, envs: seq<Env>, docs: seq<Doc>, coll: seq<Doc>)
    requires Pairwise(sc, t, true, envs, docs)
    requires forall i | 0 <= i < |docs| :: SlotsSet(sc, orderBy, |orderBy|, envs[i], docs[i])
    ensures Pairwise(sc, t, true, Pick(envs, SortOrder(OrderKeys(sc, orderBy, envs), Directions(orderBy))),
                     Run(SortStages(SlotSpec(orderBy, 0)), docs, coll))
  {
    var spec := SlotSpec(orderBy, 0);
    SlotSpecDirections(orderBy, 0);
    forall i | 0 <= i < |docs| ensures SortKey(spec, docs[i]) == OrderKey(sc, orderBy, envs[i]) {
      assert SlotsSet(sc, orderBy, |orderBy|, envs[i], docs[i]);
      SlotSpecDenotes(sc, orderBy, 0, envs[i], docs[i]);
    }
    SortKeepsStep(spec, sc, orderBy, envs, docs);
    SortStagesRun(spec, docs, coll);
    var order := SortOrder(OrderKeys(sc, orderBy, envs), Directions(orderBy));
    PickPairwise(sc, t, true, envs, docs, order, |order|);
    assert Pick(envs, order)[..|order|] == Pick(envs, order) && Pick(docs, order)[..|order|] == Pick(docs, order);
  }

  /** Sort slots and `$sort` put the group documents in the order of the SQL rows. */
  lemma SlotSortRun(sc: Scope, sel: Select, t: Table, envs: seq<Env>, docs: seq<Doc>, coll: seq<Doc>)
    requires SortExprs(sc, t, sel.orderBy).Ok? && FitsOrder(t, sel.orderBy) && Pairwise(sc, t, true, envs, docs)
    ensures Pairwise(sc, t, true, Pick(envs, SortOrder(OrderKeys(sc, sel.orderBy, envs), Directions(sel.orderBy))),
                     Run(SetStages(SortExprs(sc, t, sel.orderBy).value, 0) + SortStages(SlotSpec(sel.orderBy, 0)), docs, coll))
  {
    if sel.orderBy != [] { SortExprAt(sc, t, sel.orderBy, 0); }
    var sets := SetStages(SortExprs(sc, t, sel.orderBy).value, 0);
    RunAppend(sets, SortStages(SlotSpec(sel.orderBy, 0)), docs, coll);
    assert sets[0..] == sets;
    SetStagesRun(sc, t, sel.orderBy, 0, envs, docs, coll);
    SlotOrderRun(sc, t, sel.orderBy, envs, Run(sets, docs, coll), coll);
  }

  /** LIMIT then `$project` after the sort give the first result rows. */
  lemma TailRun(sc: Scope, sel: Select, t: Table, sorted: seq<Env>, docs: seq<Doc>, coll: seq<Doc>)
    requires LimitValue(sel.limit).Ok? && Projection(sc, t, sc.outputs).Ok? && !sc.star
    requires Pairwise(sc, t, sc.grouped, sorted, docs) && (sc.grouped ==> FitsOutputs(t, sc))
    ensures Run(LimitStages(LimitValue(sel.limit).value) + [Project(Projection(sc, t, sc.outputs).value)], docs, coll)
            == ResultDocs(sc, sorted[..LimitOf(sel, |sorted|)])
  {
    var limit := LimitStages(LimitValue(sel.limit).value);
    var n := LimitOf(sel, |sorted|);
    RunAppend(limit, [Project(Projection(sc, t, sc.outputs).value)], docs, coll);
    LimitRun(LimitValue(sel.limit).value, docs, coll);
    LimitDenotes(sel, |sorted|);
    assert docs[..n] == Run(limit, docs, coll);
    assert Pairwise(sc, t, sc.grouped, sorted[..n], docs[..n]);
    ProjectRun(sc, t, sorted[..n], docs[..n], coll);
  }

  lemma Regroup<T>(a: seq<T>, b: seq<T>, c: seq<T>, d: seq<T>, e: seq<T>, f: seq<T>, g: seq<T>)
    ensures a + b + c + d + e + f + g == a + ((b + c) + ((d + e) + (f + g)))
  {
    assert a + b + c + d + e + f + g == (a + (b + c)) + ((d + e) + (f + g));
  }

  /** The four parts of a grouped pipeline. */
  lemma GroupedShape(h: Header, sel: Select, t: Table, mongoMatch: bool)
    requires Assemble(h, sel, t, mongoMatch).Ok? && WellScoped(h.scope, sel) && h.scope.grouped
    ensures var sc := h.scope;
            && WhereFilter(sc, sel.filter, mongoMatch).Ok? && Projection(sc, t, sc.outputs).Ok? && !sc.star
            && HavingExpr(sc, t, sel.having).Ok? && SortExprs(sc, t, sel.orderBy).Ok? && LimitValue(sel.limit).Ok?
            && Assemble(h, sel, t, mongoMatch).value.Aggregate?
            && Assemble(h, sel, t, mongoMatch).value.pipeline ==
               FilterStages(sel, WhereFilter(sc, sel.filter, mongoMatch).value)
               + ((GroupStages(sc, t) + HavingStages(HavingExpr(sc, t, sel.having).value))
                  + ((SetStages(SortExprs(sc, t, sel.orderBy).value, 0) + SortStages(SlotSpec(sel.orderBy, 0)))
                     + (LimitStages(LimitValue(sel.limit).value) + [Project(Projection(sc, t, sc.outputs).value)])))
  {
    var sc := h.scope;
    Regroup(FilterStages(sel, WhereFilter(sc, sel.filter, mongoMatch).value), GroupStages(sc, t),
            HavingStages(HavingExpr(sc, t, sel.having).value), SetStages(SortExprs(sc, t, sel.orderBy).value, 0),
            SortStages(SlotSpec(sel.orderBy, 0)), LimitStages(LimitValue(sel.limit).value),
            [Project(Projection(sc, t, sc.outputs).value)]);
  }

  lemma RunFour(p: seq<Stage>, q: seq<Stage>, r: seq<Stage>, s: seq<Stage>, docs: seq<Doc>, coll: seq<Doc>)
    ensures Run(p + (q + (r + s)), docs, coll) == Run(s, Run(r, Run(q, Run(p, docs, coll), coll), coll), coll)
  {
    RunAppend(p, q + (r + s), docs, coll);
    RunAppend(q, r + s, Run(p, docs, coll), coll);
    RunAppend(r, s, Run(q, Run(p, docs, coll), coll), coll);
  }

  lemma GroupedAnswer(h: Header, sel: Select, t: Table, mongoMatch: bool, docs: seq<Doc>, coll: seq<Doc>)
    requires Assemble(h, sel, t, mongoMatch).Ok? && WellScoped(h.scope, sel) && Supported(h.scope, sel, t, mongoMatch, docs)
    requires h.scope.grouped
    ensures Assemble(h, sel, t, mongoMatch).value.Aggregate?
    ensures Run(Assemble(h, sel, t, mongoMatch).value.pipeline, docs, coll) == Answer(h.scope, sel, docs)
  {
    var sc := h.scope;
    GroupedShape(h, sel, t, mongoMatch);
    var filter := FilterStages(sel, WhereFilter(sc, sel.filter, mongoMatch).value);
    var group := GroupStages(sc, t) + HavingStages(HavingExpr(sc, t, sel.having).value);
    var sort := SetStages(SortExprs(sc, t, sel.orderBy).value, 0) + SortStages(SlotSpec(sel.orderBy, 0));
    var tail := LimitStages(LimitValue(sel.limit).value) + [Project(Projection(sc, t, sc.outputs).value)];
    RunFour(filter, group, sort, tail, docs, coll);
    var kept := Filtered(sc, sel.filter, docs);
    FilterRun(sc, sel, mongoMatch, docs, coll);
    FilteredKeeps(sc, sel.filter, docs, t);
    GroupingRun(sc, sel, t, kept, coll);
    var envs, grouped := Candidates(sc, sel, docs), Run(group, kept, coll);
    SlotSortRun(sc, sel, t, envs, grouped, coll);
    var order := SortOrder(OrderKeys(sc, sel.orderBy, envs), Directions(sel.orderBy));
    TailRun(sc, sel, t, Pick(envs, order), Run(sort, grouped, coll), coll);
  }

  /** The sort object orders the kept documents as ORDER BY orders the rows. */
  lemma PlainSort(sc: Scope, sel: Select, kept: seq<Doc>)
    requires OrderList(sc, sel.orderBy).Ok? && !sc.grouped && OrderFaithful(sc, sel)
    ensures var envs := Rows(kept);
            var order := SortOrder(OrderKeys(sc, sel.orderBy, envs), Directions(sel.orderBy));
            Rows(Sorted(SortObject(OrderList(sc, sel.orderBy).value), kept)) == Pick(envs, order)
  {
    var list := OrderList(sc, sel.orderBy).value;
    SortObjectFaithful(list, kept);
    if sel.orderBy != [] { OrderListAt(sc, sel.orderBy, 0); }
    forall j | 0 <= j < |list|
      ensures list[j].1 == sel.orderBy[j].desc && ColumnName(sc, Resolve(sc, sel.orderBy[j].expr)) == Ok(list[j].0)
    {
      OrderListAt(sc, sel.orderBy, j);
    }
    ListKeyDenotes(sc, sel.orderBy, list, map[]);
    forall i | 0 <= i < |kept| ensures SortKey(list, kept[i]) == OrderKey(sc, sel.orderBy, Rows(kept)[i]) {
      ListKeyDenotes(sc, sel.orderBy, list, kept[i]);
    }
    SortKeepsStep(list, sc, sel.orderBy, Rows(kept), kept);
  }

  lemma RowsPairwise(sc: Scope, t: Table, docs: seq<Doc>)
    ensures Pairwise(sc, t, false, Rows(docs), docs)
  {
  }

  function ProjectStages(sc: Scope, t: Table): seq<Stage>
    requires !sc.star ==> Projection(sc, t, sc.outputs).Ok?
  {
    if sc.star then [] else [Project(Projection(sc, t, sc.outputs).value)]
  }

  lemma PlainShape(h: Header, sel: Select, t: Table, mongoMatch: bool)
    requires Assemble(h, sel, t, mongoMatch).Ok? && !h.scope.grouped && Assemble(h, sel, t, mongoMatch).value.Aggregate?
    ensures var sc := h.scope;
            && WhereFilter(sc, sel.filter, mongoMatch).Ok? && (!sc.star ==> Projection(sc, t, sc.outputs).Ok?)
            && OrderList(sc, sel.orderBy).Ok? && LimitValue(sel.limit).Ok?
            && Assemble(h, sel, t, mongoMatch).value.pipeline ==
               FilterStages(sel, WhereFilter(sc, sel.filter, mongoMatch).value)
               + (SortStages(SortObject(OrderList(sc, sel.orderBy).value))
                  + (LimitStages(LimitValue(sel.limit).value) + ProjectStages(sc, t)))
  {
    hide WhereFilter; hide Projection; hide OrderList; hide LimitValue; hide SortExprs; hide HavingExpr; hide SortObject;
    hide FilterStages; hide SortStages; hide LimitStages; hide PlainOutputs; hide GroupedPipeline;
    var sc := h.scope;
    Regroup<Stage>([], [], [], FilterStages(sel, WhereFilter(sc, sel.filter, mongoMatch).value),
            SortStages(SortObject(OrderList(sc, sel.orderBy).value)), LimitStages(LimitValue(sel.limit).value), ProjectStages(sc, t));
  }

  lemma StarTail(sc: Scope, sel: Select, t: Table, docs: seq<Doc>, coll: seq<Doc>)
    requires LimitValue(sel.limit).Ok? && sc.star
    ensures Run(LimitStages(LimitValue(sel.limit).value) + ProjectStages(sc, t), docs, coll)
            == ResultDocs(sc, Rows(docs)[..LimitOf(sel, |docs|)])
  {
    var limit := LimitStages(LimitValue(sel.limit).value);
    assert limit + ProjectStages(sc, t) == limit;
    LimitRun(LimitValue(sel.limit).value, docs, coll);
    LimitDenotes(sel, |docs|);
  }

  lemma PlainAnswer(h: Header, sel: Select, t: Table, mongoMatch: bool, docs: seq<Doc>, coll: seq<Doc>)
    requires Assemble(h, sel, t, mongoMatch).Ok? && WellScoped(h.scope, sel) && Supported(h.scope, sel, t, mongoMatch, docs)
    requires !h.scope.grouped && Assemble(h, sel, t, mongoMatch).value.Aggregate?
    ensures Run(Assemble(h, sel, t, mongoMatch).value.pipeline, docs, coll) == Answer(h.scope, sel, docs)
  {
    var sc := h.scope;
    PlainShape(h, sel, t, mongoMatch);
    var spec := SortObject(OrderList(sc, sel.orderBy).value);
    var tail := LimitStages(LimitValue(sel.limit).value) + ProjectStages(sc, t);
    var filter := FilterStages(sel, WhereFilter(sc, sel.filter, mongoMatch).value);
    var kept := Filtered(sc, sel.filter, docs);
    RunAppend(filter, SortStages(spec) + tail, docs, coll);
    RunAppend(SortStages(spec), tail, kept, coll);
    FilterRun(sc, sel, mongoMatch, docs, coll);
    FilteredKeeps(sc, sel.filter, docs, t);
    SortStagesRun(spec, kept, coll);
    PlainSort(sc, sel, kept);
    var sorted := Sorted(spec, kept);
    RowsPairwise(sc, t, sorted);
    if sc.star { StarTail(sc, sel, t, sorted, coll); } else { TailRun(sc, sel, t, Rows(sorted), sorted, coll); }
  }

  // ----- reading results -----

  /** A result document read as a row: the output names, a missing field being NULL. */
  function Shown(outputs: seq<Output>, d: Doc): Doc {
    if outputs == [] then map[]
    else
      var n := |outputs| - 1;
      Shown(outputs[..n], d)[outputs[n].name := Read(d, outputs[n].name)]
  }

  function View(sc: Scope, docs: seq<Doc>): (r: seq<Doc>)
    ensures |r| == |docs|
    ensures forall i | 0 <= i < |r| :: r[i] == if sc.star then docs[i] else Shown(sc.outputs, docs[i])
  {
    seq(|docs|, i requires 0 <= i < |docs| => if sc.star then docs[i] else Shown(sc.outputs, docs[i]))
  }

  lemma {:induction false} ShownRow(sc: Scope, outputs: seq<Output>, env: Env, d: Doc)
    requires forall i | 0 <= i < |outputs| :: Read(d, outputs[i].name) == OutputValue(sc, outputs[i].source, env)
    ensures Shown(outputs, d) == ResultRow(sc, outputs, env)
  {
    if outputs != [] { ShownRow(sc, outputs[..|outputs| - 1], env, d); }
  }

  lemma {:induction false} RowReads(sc: Scope, outputs: seq<Output>, env: Env, i: nat)
    requires i < |outputs| && NamesDistinct(outputs)
    ensures Read(ResultRow(sc, outputs, env), outputs[i].name) == OutputValue(sc, outputs[i].source, env)
    decreases |outputs|
  {
    var n := |outputs| - 1;
    if i < n { RowReads(sc, outputs[..n], env, i); }
  }

  /** A result row read as a row is itself. */
  lemma ViewOfAnswer(sc: Scope, envs: seq<Env>)
    requires NamesDistinct(sc.outputs) && (sc.star ==> forall i | 0 <= i < |envs| :: envs[i].Row?)
    ensures View(sc, ResultDocs(sc, envs)) == ResultDocs(sc, envs)
  {
    if !sc.star {
      forall i | 0 <= i < |envs| ensures Shown(sc.outputs, ResultDoc(sc, envs[i])) == ResultDoc(sc, envs[i]) {
        forall j | 0 <= j < |sc.outputs|
          ensures Read(ResultDoc(sc, envs[i]), sc.outputs[j].name) == OutputValue(sc, sc.outputs[j].source, envs[i])
        {
          RowReads(sc, sc.outputs, envs[i], j);
        }
        ShownRow(sc, sc.outputs, envs[i], ResultDoc(sc, envs[i]));
      }
    }
  }

  /** The parts of a find query. */
  lemma FindShape(h: Header, sel: Select, t: Table, mongoMatch: bool)
    requires Assemble(h, sel, t, mongoMatch).Ok? && Assemble(h, sel, t, mongoMatch).value.Find?
    ensures var sc, q := h.scope, Assemble(h, sel, t, mongoMatch).value;
            && !sc.grouped && sel.limit.None? && WhereFilter(sc, sel.filter, mongoMatch).Ok? && OrderList(sc, sel.orderBy).Ok?
            && q.filter == WhereFilter(sc, sel.filter, mongoMatch).value
            && q.sort == SortObject(OrderList(sc, sel.orderBy).value)
            && q.keep == (if sc.star then None else Some(OutputNames(sc.outputs))) && (!sc.star ==> PlainOutputs(sc))
  {
    hide WhereFilter; hide Projection; hide HavingExpr; hide OrderList; hide SortExprs; hide GroupedPipeline; hide PlainPipeline;
    hide PlainOutputs; hide SortObject;
  }

  /** A found document shows the result row. */
  lemma FoundRow(sc: Scope, d: Doc)
    requires PlainOutputs(sc)
    ensures Shown(sc.outputs, Restrict(d, OutputNames(sc.outputs))) == ResultRow(sc, sc.outputs, Row(d))
  {
    var names := OutputNames(sc.outputs);
    forall j | 0 <= j < |sc.outputs|
      ensures Read(Restrict(d, names), sc.outputs[j].name) == OutputValue(sc, sc.outputs[j].source, Row(d))
    {
      assert sc.outputs[j] in sc.outputs;
      assert names[j] in names;
    }
    ShownRow(sc, sc.outputs, Row(d), Restrict(d, names));
  }

  /** Without a LIMIT the answer is every kept row, in order. */
  lemma UnlimitedAnswer(sc: Scope, sel: Select, coll: seq<Doc>)
    requires sel.limit.None? && !sc.grouped
    ensures var envs := Rows(Filtered(sc, sel.filter, coll));
            Answer(sc, sel, coll) == ResultDocs(sc, Pick(envs, SortOrder(OrderKeys(sc, sel.orderBy, envs), Directions(sel.orderBy))))
  {
    hide Filtered; hide SortOrder; hide OrderKeys; hide ResultDocs;
    var envs := Rows(Filtered(sc, sel.filter, coll));
    var sorted := Pick(envs, SortOrder(OrderKeys(sc, sel.orderBy, envs), Directions(sel.orderBy)));
    assert sorted[..|sorted|] == sorted;
  }

  lemma FindAnswer(h: Header, sel: Select, t: Table, mongoMatch: bool, coll: seq<Doc>)
    requires Assemble(h, sel, t, mongoMatch).Ok? && WellScoped(h.scope, sel) && Supported(h.scope, sel, t, mongoMatch, coll)
    requires Assemble(h, sel, t, mongoMatch).value.Find?
    ensures View(h.scope, Execute(Assemble(h, sel, t, mongoMatch).value, coll)) == Answer(h.scope, sel, coll)
  {
    hide Assemble; hide WhereFilter; hide SortObject; hide OrderList; hide Sorted; hide Answer; hide Filtered; hide Matching;
    hide Shown; hide ResultRow; hide SortOrder; hide OrderKeys; hide PlainOutputs; hide TableFits; hide ScalarFields; hide WellScoped;
    var sc, q := h.scope, Assemble(h, sel, t, mongoMatch).value;
    FindShape(h, sel, t, mongoMatch);
    WhereDenotes(sc, sel.filter, mongoMatch, coll);
    PlainSort(sc, sel, Filtered(sc, sel.filter, coll));
    UnlimitedAnswer(sc, sel, coll);
    var sorted := Sorted(q.sort, Filtered(sc, sel.filter, coll));
    if !sc.star {
      forall i | 0 <= i < |sorted|
        ensures Shown(sc.outputs, Restrict(sorted[i], OutputNames(sc.outputs))) == ResultRow(sc, sc.outputs, Row(sorted[i]))
      {
        FoundRow(sc, sorted[i]);
      }
    }
  }

  /**
   * The compiler preserves meaning: whatever native query is emitted, the documents it returns, read as rows, are
   * exactly the SQL rows in the SQL order.
   */
  lemma MeaningPreserved(h: Header, sel: Select, t: Table, mongoMatch: bool, coll: seq<Doc>)
    requires Assemble(h, sel, t, mongoMatch).Ok? && WellScoped(h.scope, sel) && Supported(h.scope, sel, t, mongoMatch, coll)
    ensures View(h.scope, Execute(Assemble(h, sel, t, mongoMatch).value, coll)) == Answer(h.scope, sel, coll)
  {
    hide Assemble; hide Supported; hide Filtered; hide Kept; hide Groups; hide SortOrder; hide OrderKeys; hide Run; hide View;
    hide ResultDocs;
    var sc, q := h.scope, Assemble(h, sel, t, mongoMatch).value;
    if q.Find? {
      FindAnswer(h, sel, t, mongoMatch, coll);
    } else {
      if sc.grouped { GroupedAnswer(h, sel, t, mongoMatch, coll, coll); } else { PlainAnswer(h, sel, t, mongoMatch, coll, coll); }
      var envs := Candidates(sc, sel, coll);
      var sorted := Pick(envs, SortOrder(OrderKeys(sc, sel.orderBy, envs), Directions(sel.orderBy)));
      ViewOfAnswer(sc, sorted[..LimitOf(sel, |sorted|)]);
    }
  }
}
