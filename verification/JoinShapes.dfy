/** Which statements and ON conditions the latest-row join takes, said of their parts. */
module JoinShapes {
  import opened Values
  import opened Sql
  import opened Predicate
  import opened SelectQuery
  import opened Headers
  import opened LatestJoin

  /** What a reader of the CTE can call this entry of its select list; the star stands for every field. */
  predicate SelectsAs(item: Item, name: string) {
    match item.alias
    case Some(alias) => name == alias
    case None => name == if item.expr.Column? then item.expr.name else "*"
  }

  ghost predicate SelectsAll(items: seq<Item>, names: seq<string>) {
    |names| == |items| && forall i | 0 <= i < |items| :: SelectsAs(items[i], names[i])
  }

  /** One CTE that takes the first row of an order, joined by name to a collection that is called differently. */
  ghost predicate JoinsLatest(s: JoinStatement) {
    && !s.recursive && |s.ctes| == 1 && !s.ctes[0].decorated
    && |s.joins| == 1 && s.joins[0].plainInner && s.joins[0].on.Some?
    && |s.outer.from| > 0 && s.outer.from[0].Table?
    && s.joins[0].source.Table? && s.joins[0].source.name == s.ctes[0].name && s.joins[0].source.schema.None? && !s.joins[0].source.decorated
    && s.ctes[0].select.orderBy != [] && s.ctes[0].select.limit.Some? && LitValue(s.ctes[0].select.limit.value) == Num(1.0)
    && NamesOf(s).base != NamesOf(s).row
  }

  lemma {:induction false} OneIff(e: Expr, v: real)
    requires v == 1.0 || v == -1.0
    ensures Literal(e) == Ok(Num(v)) <==> LitValue(e) == Num(v)
  {
    if e.Neg? { OneIff(e.e, -v); }
    if e.NumLit? && e.n == v { assert v.Floor as real == v; }
  }

  lemma AvailableIff(items: seq<Item>, names: seq<string>)
    ensures SelectsAll(items, names) <==> names == AvailableNames(items)
  {
    var all := AvailableNames(items);
    forall i, n | 0 <= i < |items| ensures SelectsAs(items[i], n) <==> n == all[i] {}
    if SelectsAll(items, names) { forall i | 0 <= i < |items| ensures names[i] == all[i] { assert SelectsAs(items[i], names[i]); } }
  }

  /** The join is scoped exactly for these statements, under the statement's own names and what the CTE selects. */
  lemma JoinScopeIff(s: JoinStatement, js: JoinScope)
    ensures JoinScopeOf(s) == Ok(js) <==> JoinsLatest(s) && Sides(js) == NamesOf(s) && SelectsAll(s.ctes[0].select.items, js.available)
  {
    hide Literal; hide LitValue; hide AvailableNames; hide SelectsAll;
    if |s.ctes| == 1 {
      AvailableIff(s.ctes[0].select.items, js.available);
      if s.ctes[0].select.limit.Some? { OneIff(s.ctes[0].select.limit.value, 1.0); }
    }
  }

  // ----- the ON condition -----

  predicate ColumnOf(side: string, e: Expr) { e.Column? && e.table == Some(side) && !e.joinMark && UsableName(e.name) }

  /** The CTE's row has a field of that name, as far as its select list tells. */
  predicate Selected(available: seq<string>, name: string) { "*" in available || name in available }

  /** Equalities between a field of the collection and one the CTE selects, either way round, joined by AND. */
  predicate EquatesKeys(js: JoinScope, e: Expr) {
    match e
    case Paren(x) => EquatesKeys(js, x)
    case And(l, r) => EquatesKeys(js, l) && EquatesKeys(js, r)
    case Compare(op, l, r) =>
      op == Eq && (|| (ColumnOf(js.baseAlias, l) && ColumnOf(js.cteAlias, r) && Selected(js.available, r.name))
                   || (ColumnOf(js.cteAlias, l) && ColumnOf(js.baseAlias, r) && Selected(js.available, l.name)))
    case _ => false
  }

  lemma PairIff(js: JoinScope, l: Expr, r: Expr)
    requires js.baseAlias != js.cteAlias
    ensures KeyPair(js, l, r).Ok?
            <==> || (ColumnOf(js.baseAlias, l) && ColumnOf(js.cteAlias, r) && Selected(js.available, r.name))
                 || (ColumnOf(js.cteAlias, l) && ColumnOf(js.baseAlias, r) && Selected(js.available, l.name))
  {
    hide UsableName; hide GoodName;
    if l.Column? { NameIff(l.name); }
    if r.Column? { NameIff(r.name); }
  }

  lemma {:induction false} OnKeysIff(js: JoinScope, e: Expr)
    requires js.baseAlias != js.cteAlias
    ensures OnKeys(js, e).Ok? <==> EquatesKeys(js, e)
  {
    hide KeyPair; hide ColumnOf; hide Selected;
    match e
    case Paren(x) => OnKeysIff(js, x);
    case And(l, r) => OnKeysIff(js, l); OnKeysIff(js, r);
    case Compare(_, l, r) => PairIff(js, l, r);
    case _ =>
  }

  /** The ON condition equates fields of the collection with fields the CTE selects. */
  ghost predicate EquatesSelected(s: JoinStatement)
    requires JoinsLatest(s)
  {
    exists names ::
      SelectsAll(s.ctes[0].select.items, names) && EquatesKeys(JoinScope(NamesOf(s).base, NamesOf(s).row, names), s.joins[0].on.value)
  }

  /** A statement is taken as a latest-row join exactly when its shape and its ON condition are these. */
  lemma JoinTakenIff(s: JoinStatement)
    ensures JoinScopeOf(s).Ok? && OnKeys(JoinScopeOf(s).value, s.joins[0].on.value).Ok?
            <==> JoinsLatest(s) && EquatesSelected(s)
  {
    hide JoinScopeOf; hide OnKeys; hide EquatesKeys; hide SelectsAll;
    if JoinScopeOf(s).Ok? {
      var js := JoinScopeOf(s).value;
      JoinScopeIff(s, js);
      AvailableIff(s.ctes[0].select.items, js.available);
      forall names ensures SelectsAll(s.ctes[0].select.items, names) <==> names == js.available {
        AvailableIff(s.ctes[0].select.items, names);
      }
      OnKeysIff(js, s.joins[0].on.value);
    }
    if JoinsLatest(s) {
      var names := AvailableNames(s.ctes[0].select.items);
      AvailableIff(s.ctes[0].select.items, names);
      JoinScopeIff(s, JoinScope(NamesOf(s).base, NamesOf(s).row, names));
    }
  }
}
