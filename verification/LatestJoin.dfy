/** The "latest row" join: a CTE picks one row of the collection, and every document with that row's keys is recovered. */
module LatestJoin {
  import opened Values
  import opened Ordering
  import opened Sql
  import opened Mongo
  import opened HavingNames
  import opened Predicate
  import opened Grouping
  import opened OrderSpec
  import opened SelectQuery
  import opened SelectCorrect
  import opened Mentions
  import opened Headers
  import opened Acceptance
  import opened Translator

  /** `decorated`: column list or an explicit MATERIALIZED. */
  datatype Cte = Cte(name: string, decorated: bool, select: Select)

  /** `plainInner`: an INNER JOIN without USING, direction, deferred condition or nesting. */
  datatype Join = Join(plainInner: bool, on: Option<Expr>, source: Source)

  /** `outer` is the statement without its WITH and joins. */
  datatype JoinStatement = JoinStatement(recursive: bool, ctes: seq<Cte>, joins: seq<Join>, outer: Select)

  type KeyPairs = seq<(string, string)>

  const JOIN_FIELD: string := "__omni_join"

  // ----- the ON condition -----

  datatype JoinScope = JoinScope(baseAlias: string, cteAlias: string, available: seq<string>)

  function AvailableNames(items: seq<Item>): (r: seq<string>)
    ensures |r| == |items|
  {
    seq(|items|, i requires 0 <= i < |items| =>
      if items[i].alias.Some? then items[i].alias.value else if items[i].expr.Column? then items[i].expr.name else "*")
  }

  /** One equality between a base column and a CTE column, in either order. */
  function KeyPair(js: JoinScope, l: Expr, r: Expr): Result<(string, string)> {
    var swap := l.Column? && l.table == Some(js.cteAlias);
    var a, b := if swap then r else l, if swap then l else r;
    if !a.Column? || !b.Column? || a.table != Some(js.baseAlias) || b.table != Some(js.cteAlias) || a.joinMark || b.joinMark then Rejected
    else
      var field :- Identifier(a.name);
      var key :- Identifier(b.name);
      if "*" !in js.available && key !in js.available then Rejected else Ok((field, key))
  }

  function OnKeys(js: JoinScope, e: Expr): Result<KeyPairs> {
    match e
    case Paren(x) => OnKeys(js, x)
    case And(l, r) =>
      var p :- OnKeys(js, l);
      var q :- OnKeys(js, r);
      Ok(p + q)
    case Compare(op, l, r) =>
      if op != Eq then Rejected
      else
        var pair :- KeyPair(js, l, r);
        Ok([pair])
    case _ => Rejected
  }

  /** What the statement calls the two sides of the join. */
  datatype Names = Names(base: string, row: string)

  /** A table is called by its alias, or else by its name. */
  function CalledAs(s: Source): string {
    match s
    case Table(_, name, alias, _) => (match alias case Some(a) => a case None => name)
    case OtherSource => ""
  }

  /** The base collection is the outer FROM, the row that of the joined CTE. */
  function NamesOf(s: JoinStatement): Names
    requires |s.outer.from| > 0 && |s.joins| == 1
  {
    Names(CalledAs(s.outer.from[0]), CalledAs(s.joins[0].source))
  }

  /** SQL's ON: a column reads the document of the collection, or the CTE's row, by its qualifier. */
  function OnValue(names: Names, e: Expr, base: Doc, row: Doc): Value {
    if e.Column? then
      if e.table == Some(names.row) then Read(row, e.name)
      else if e.table == Some(names.base) then Read(base, e.name) else Null
    else LitValue(e)
  }

  function OnTruth(names: Names, e: Expr, base: Doc, row: Doc): Truth {
    match e
    case Paren(x) => OnTruth(names, x, base, row)
    case And(l, r) => And3(OnTruth(names, l, base, row), OnTruth(names, r, base, row))
    case Compare(op, l, r) => Compare3(op, OnValue(names, l, base, row), OnValue(names, r, base, row))
    case _ => Unknown
  }

  /** The base rows that join with one of the CTE's rows, once for each such row. */
  function JoinOne(names: Names, on: Expr, d: Doc, rows: seq<Doc>): seq<Doc> {
    if rows == [] then []
    else (if OnTruth(names, on, d, rows[0]) == True then [d] else []) + JoinOne(names, on, d, rows[1..])
  }

  function JoinRows(names: Names, on: Expr, docs: seq<Doc>, rows: seq<Doc>): seq<Doc> {
    if docs == [] then [] else JoinOne(names, on, docs[0], rows) + JoinRows(names, on, docs[1..], rows)
  }

  /** The sides by the names the ON condition is translated with. */
  function Sides(js: JoinScope): Names { Names(js.baseAlias, js.cteAlias) }

  // ----- the stages -----

  function VarName(i: nat): string { "k" + Dec(i) }

  function KeyLets(pairs: KeyPairs): (r: seq<(string, MExpr)>)
    ensures |r| == |pairs| && forall i | 0 <= i < |r| :: r[i] == (VarName(i), IfNull(Field(pairs[i].1), Lit(Null)))
  {
    seq(|pairs|, i requires 0 <= i < |pairs| => (VarName(i), IfNull(Field(pairs[i].1), Lit(Null))))
  }

  function KeyCondition(field: string, i: nat): MExpr {
    AndE([NonNull(Field(field)), Cmp(Neq, Var(VarName(i)), Lit(Null)), Cmp(Eq, Field(field), Var(VarName(i)))])
  }

  function KeyConditions(pairs: KeyPairs): (r: seq<MExpr>)
    ensures |r| == |pairs| && forall i | 0 <= i < |r| :: r[i] == KeyCondition(pairs[i].0, i)
  {
    seq(|pairs|, i requires 0 <= i < |pairs| => KeyCondition(pairs[i].0, i))
  }

  function JoinStages(lets: seq<(string, MExpr)>, conditions: seq<MExpr>): seq<Stage> {
    [Lookup(lets, AndE(conditions), JOIN_FIELD), Unwind(JOIN_FIELD), ReplaceRoot(Field(JOIN_FIELD))]
  }

  /** `{$project: {x: 1}}` keeps a field when it is present. */
  function KeepFields(names: seq<string>): (r: Fields)
    ensures |r| == |names| && forall i | 0 <= i < |r| :: r[i] == (names[i], Field(names[i]))
  {
    seq(|names|, i requires 0 <= i < |names| => (names[i], Field(names[i])))
  }

  /** The outer query as stages over the recovered documents. */
  function TailStages(q: Query): seq<Stage> {
    match q
    case Aggregate(_, pipeline) => pipeline
    case Find(_, filter, keep, sort) =>
      (if filter == All then [] else [Match(filter)]) + SortStages(sort)
      + (match keep case None => [] case Some(names) => [Project(KeepFields(names))])
  }

  function JoinScopeOf(s: JoinStatement): Result<JoinScope> {
    if s.recursive || |s.ctes| != 1 || s.ctes[0].decorated || |s.joins| != 1 || !s.joins[0].plainInner || s.joins[0].on.None?
       || |s.outer.from| == 0 || !s.outer.from[0].Table? || !s.joins[0].source.Table? then Rejected
    else
      var joined, cte, base := s.joins[0].source, s.ctes[0], s.outer.from[0];
      if joined.name != cte.name || joined.schema.Some? || joined.decorated then Rejected
      else if cte.select.limit.None? || Literal(cte.select.limit.value) != Ok(Num(1.0)) || cte.select.orderBy == [] then Rejected
      else
        var baseAlias := if base.alias.Some? then base.alias.value else base.name;
        var cteAlias := if joined.alias.Some? then joined.alias.value else joined.name;
        if baseAlias == cteAlias then Rejected else Ok(JoinScope(baseAlias, cteAlias, AvailableNames(cte.select.items)))
  }

  // ----- building the keys -----

  class JoinKeys {
    const js: JoinScope
    var variables: seq<(string, MExpr)>
    var conditions: seq<MExpr>
    ghost var pairs: KeyPairs

    ghost predicate Valid()
      reads this
    {
      variables == KeyLets(pairs) && conditions == KeyConditions(pairs)
    }

    constructor (js: JoinScope)
      ensures Valid() && pairs == [] && this.js == js
    {
      this.js := js;
      variables, conditions, pairs := [], [], [];
    }

    /** Walks the ON condition and appends one variable and one condition per equality. */
    method Equality(e: Expr) returns (ok: bool)
      requires Valid()
      modifies this
      ensures Valid()
      ensures ok <==> OnKeys(js, e).Ok?
      ensures ok ==> pairs == old(pairs) + OnKeys(js, e).value
      decreases e
    {
      hide Valid; hide KeyPair; hide KeyCondition; hide VarName;
      match e {
        case Paren(x) => ok := Equality(x);
        case And(l, r) =>
          ok := Equality(l);
          if ok { ok := Equality(r); }
        case Compare(op, l, r) =>
          if op != Eq { return false; }
          var pair := KeyPair(js, l, r);
          if pair.Rejected? { return false; }
          AddPair(pair.value);
          ok := true;
        case _ => ok := false;
      }
    }

    /** One equality: the next variable, and a condition on it. */
    method AddPair(pair: (string, string))
      requires Valid()
      modifies this
      ensures Valid() && pairs == old(pairs) + [pair]
    {
      hide KeyCondition; hide VarName;
      var i := |conditions|;
      variables := variables + [(VarName(i), IfNull(Field(pair.1), Lit(Null)))];
      conditions := conditions + [KeyCondition(pair.0, i)];
      pairs := pairs + [pair];
    }
  }

  // ----- the conditions mean the ON clause -----

  lemma VarNamesDistinct(i: nat, j: nat)
    ensures VarName(i) == VarName(j) ==> i == j
  {
    assert VarName(i)[1..] == Dec(i) && VarName(j)[1..] == Dec(j);
    if Dec(i) == Dec(j) { DecInjective(i, j); }
  }

  lemma {:induction false} BoundVars(pairs: KeyPairs, row: Doc, i: nat)
    requires i < |pairs|
    ensures var vars := Bind(KeyLets(pairs), row);
            VarName(i) in vars && vars[VarName(i)] == Read(row, pairs[i].1)
    decreases |pairs|
  {
    var n := |pairs| - 1;
    assert KeyLets(pairs)[..n] == KeyLets(pairs[..n]);
    FieldOrNull(pairs[n].1, row, map[]);
    if i < n {
      VarNamesDistinct(i, n);
      BoundVars(pairs[..n], row, i);
    }
  }

  ghost predicate PairsHold(pairs: KeyPairs, d: Doc, row: Doc) {
    forall i | 0 <= i < |pairs| :: Compare3(Eq, Read(d, pairs[i].0), Read(row, pairs[i].1)) == True
  }

  lemma KeyConditionDenotes(field: string, i: nat, d: Doc, vars: Doc)
    requires VarName(i) in vars
    ensures Truthy(Eval(KeyCondition(field, i), d, vars)) <==> Compare3(Eq, Read(d, field), vars[VarName(i)]) == True
  {
    var v := Var(VarName(i));
    ConjunctionOf3(NonNull(Field(field)), Cmp(Neq, v, Lit(Null)), Cmp(Eq, Field(field), v), d, vars);
    NonNullDenotes(Field(field), d, vars);
    assert Eval(v, d, vars) == Some(vars[VarName(i)]) && Eval(Lit(Null), d, vars) == Some(Null);
    assert Eval(Field(field), d, vars) == if field in d then Some(d[field]) else None;
    assert Truthy(Eval(Cmp(Neq, v, Lit(Null)), d, vars)) <==> !vars[VarName(i)].Null?;
    assert Truthy(Eval(Cmp(Eq, Field(field), v), d, vars)) <==> Eval(Field(field), d, vars) == Some(vars[VarName(i)]);
  }

  lemma {:induction false} AllTrueIff(es: seq<MExpr>, d: Doc, vars: Doc)
    ensures AllTrue(es, d, vars) <==> forall i | 0 <= i < |es| :: Truthy(Eval(es[i], d, vars))
  {
    if es != [] {
      AllTrueIff(es[1..], d, vars);
      assert forall i | 0 < i < |es| :: es[i] == es[1..][i - 1];
      assert forall i | 0 <= i < |es| - 1 :: es[1..][i] == es[i + 1];
    }
  }

  lemma ConditionDenotes(pairs: KeyPairs, d: Doc, row: Doc)
    ensures Truthy(Eval(AndE(KeyConditions(pairs)), d, Bind(KeyLets(pairs), row))) <==> PairsHold(pairs, d, row)
  {
    var es, vars := KeyConditions(pairs), Bind(KeyLets(pairs), row);
    AllTrueIff(es, d, vars);
    forall i | 0 <= i < |pairs|
      ensures Truthy(Eval(es[i], d, vars)) <==> Compare3(Eq, Read(d, pairs[i].0), Read(row, pairs[i].1)) == True
    {
      BoundVars(pairs, row, i);
      KeyConditionDenotes(pairs[i].0, i, d, vars);
    }
  }

  lemma {:induction false} OnKeysDenote(js: JoinScope, e: Expr, d: Doc, row: Doc)
    requires OnKeys(js, e).Ok? && js.baseAlias != js.cteAlias
    ensures PairsHold(OnKeys(js, e).value, d, row) <==> OnTruth(Sides(js), e, d, row) == True
  {
    match e
    case Paren(x) => OnKeysDenote(js, x, d, row);
    case And(l, r) =>
      OnKeysDenote(js, l, d, row);
      OnKeysDenote(js, r, d, row);
      PairsAppend(OnKeys(js, l).value, OnKeys(js, r).value, d, row);
    case Compare(_, l, r) =>
      var pair := KeyPair(js, l, r).value;
      assert OnKeys(js, e).value == [pair];
      assert PairsHold([pair], d, row) <==> Compare3(Eq, Read(d, [pair][0].0), Read(row, [pair][0].1)) == True;
  }

  lemma PairsAppend(p: KeyPairs, q: KeyPairs, d: Doc, row: Doc)
    ensures PairsHold(p + q, d, row) <==> PairsHold(p, d, row) && PairsHold(q, d, row)
  {
    if PairsHold(p + q, d, row) {
      forall i | 0 <= i < |p| ensures Compare3(Eq, Read(d, p[i].0), Read(row, p[i].1)) == True { assert (p + q)[i] == p[i]; }
      forall i | 0 <= i < |q| ensures Compare3(Eq, Read(d, q[i].0), Read(row, q[i].1)) == True {
        assert (p + q)[|p| + i] == q[i];
      }
    }
  }

  // ----- running the join -----

  lemma LookupDenotes(js: JoinScope, on: Expr, d: Doc, row: Doc)
    requires OnKeys(js, on).Ok? && js.baseAlias != js.cteAlias
    ensures var pairs := OnKeys(js, on).value;
            Truthy(Eval(AndE(KeyConditions(pairs)), d, Bind(KeyLets(pairs), row))) <==> OnTruth(Sides(js), on, d, row) == True
  {
    ConditionDenotes(OnKeys(js, on).value, d, row);
    OnKeysDenote(js, on, d, row);
  }

  lemma JoinWithOne(js: JoinScope, on: Expr, d: Doc, row: Doc)
    ensures JoinOne(Sides(js), on, d, [row]) == if OnTruth(Sides(js), on, d, row) == True then [d] else []
  {
    assert [row][1..] == [];
    assert JoinOne(Sides(js), on, d, []) == [];
  }

  lemma ObjectsCons(d: Doc, rest: seq<Doc>)
    ensures Objects([d] + rest) == [Obj(d)] + Objects(rest)
  {
    assert ([d] + rest)[1..] == rest;
  }

  lemma {:induction false} JoinedIsJoin(js: JoinScope, on: Expr, cond: MExpr, vars: Doc, row: Doc, docs: seq<Doc>)
    requires forall d :: Truthy(Eval(cond, d, vars)) <==> OnTruth(Sides(js), on, d, row) == True
    ensures Joined(cond, vars, docs) == Objects(JoinRows(Sides(js), on, docs, [row]))
  {
    if docs != [] {
      JoinedIsJoin(js, on, cond, vars, row, docs[1..]);
      JoinWithOne(js, on, docs[0], row);
      var rest := JoinRows(Sides(js), on, docs[1..], [row]);
      ObjectsCons(docs[0], rest);
      assert [] + rest == rest;
    }
  }

  lemma {:induction false} UnwindRoots(d: Doc, docs: seq<Doc>, coll: seq<Doc>)
    ensures Each(ReplaceRoot(Field(JOIN_FIELD)), Unwound(d, JOIN_FIELD, Objects(docs)), coll) == docs
  {
    if docs != [] {
      UnwindRoots(d, docs[1..], coll);
      var items := Objects(docs);
      var first := d[JOIN_FIELD := items[0]];
      assert items[1..] == Objects(docs[1..]);
      assert Unwound(d, JOIN_FIELD, items) == [first] + Unwound(d, JOIN_FIELD, items[1..]);
      assert Eval(Field(JOIN_FIELD), first, map[]) == Some(Obj(docs[0]));
      assert RootDoc(Field(JOIN_FIELD), first) == docs[0];
      assert ([first] + Unwound(d, JOIN_FIELD, items[1..]))[1..] == Unwound(d, JOIN_FIELD, items[1..]);
    }
  }

  lemma RunThree(a: Stage, b: Stage, c: Stage, docs: seq<Doc>, coll: seq<Doc>)
    ensures Run([a, b, c], docs, coll) == RunStage(c, RunStage(b, RunStage(a, docs, coll), coll), coll)
  {
    RunOne(a, docs, coll);
    RunOne(b, RunStage(a, docs, coll), coll);
    RunOne(c, RunStage(b, RunStage(a, docs, coll), coll), coll);
    assert [a, b, c] == [a] + ([b] + [c]);
    RunAppend([a], [b] + [c], docs, coll);
    RunAppend([b], [c], RunStage(a, docs, coll), coll);
  }

  lemma {:induction false} NoJoin(js: JoinScope, on: Expr, docs: seq<Doc>)
    ensures JoinRows(Sides(js), on, docs, []) == []
  {
    if docs != [] { NoJoin(js, on, docs[1..]); }
  }

  /** `$lookup`, `$unwind`, `$replaceRoot` after at most one CTE row: exactly the inner join's base documents. */
  lemma JoinRun(js: JoinScope, on: Expr, rows: seq<Doc>, coll: seq<Doc>)
    requires OnKeys(js, on).Ok? && js.baseAlias != js.cteAlias && |rows| <= 1
    ensures var pairs := OnKeys(js, on).value;
            Run(JoinStages(KeyLets(pairs), KeyConditions(pairs)), rows, coll) == JoinRows(Sides(js), on, coll, rows)
  {
    hide OnKeys; hide JoinRows; hide KeyLets; hide KeyConditions; hide RunStage;
    var pairs := OnKeys(js, on).value;
    var stages := JoinStages(KeyLets(pairs), KeyConditions(pairs));
    assert stages == [stages[0], stages[1], stages[2]];
    RunThree(stages[0], stages[1], stages[2], rows, coll);
    if rows == [] {
      NoJoin(js, on, coll);
      NothingRun(stages[0], stages[1], stages[2], coll);
    } else {
      assert rows == [rows[0]];
      LookupRun(js, on, rows[0], coll);
      UnwindRun(rows[0], JoinRows(Sides(js), on, coll, [rows[0]]), coll);
    }
  }

  lemma NothingRun(a: Stage, b: Stage, c: Stage, coll: seq<Doc>)
    requires a.Lookup? && b.Unwind? && c.ReplaceRoot?
    ensures RunStage(c, RunStage(b, RunStage(a, [], coll), coll), coll) == []
  {
  }

  /** The lookup collects the base documents that join with the row. */
  lemma LookupRun(js: JoinScope, on: Expr, row: Doc, coll: seq<Doc>)
    requires OnKeys(js, on).Ok? && js.baseAlias != js.cteAlias
    ensures var pairs := OnKeys(js, on).value;
            RunStage(Lookup(KeyLets(pairs), AndE(KeyConditions(pairs)), JOIN_FIELD), [row], coll)
            == [row[JOIN_FIELD := Arr(Objects(JoinRows(Sides(js), on, coll, [row])))]]
  {
    hide OnKeys; hide JoinRows; hide KeyLets; hide KeyConditions; hide RunStage; hide Joined; hide Bind; hide OnTruth; hide Eval;
    var pairs := OnKeys(js, on).value;
    forall d
      ensures Truthy(Eval(AndE(KeyConditions(pairs)), d, Bind(KeyLets(pairs), row))) <==> OnTruth(Sides(js), on, d, row) == True
    {
      LookupDenotes(js, on, d, row);
    }
    JoinedIsJoin(js, on, AndE(KeyConditions(pairs)), Bind(KeyLets(pairs), row), row, coll);
    OneEach(Lookup(KeyLets(pairs), AndE(KeyConditions(pairs)), JOIN_FIELD), row, coll);
  }

  /** Unwinding the collected documents and taking each as the root gives them back. */
  lemma UnwindRun(row: Doc, docs: seq<Doc>, coll: seq<Doc>)
    ensures RunStage(ReplaceRoot(Field(JOIN_FIELD)), RunStage(Unwind(JOIN_FIELD), [row[JOIN_FIELD := Arr(Objects(docs))]], coll), coll)
            == docs
  {
    hide Objects; hide Unwound;
    var looked := row[JOIN_FIELD := Arr(Objects(docs))];
    OneEach(Unwind(JOIN_FIELD), looked, coll);
    UnwindRoots(looked, docs, coll);
  }

  lemma OneEach(s: Stage, d: Doc, coll: seq<Doc>)
    requires s.Lookup? || s.Unwind?
    ensures RunStage(s, [d], coll) ==
            if s.Lookup? then [d[s.name := Arr(Joined(s.cond, Bind(s.lets, d), coll))]]
            else Unwound(d, s.name, if s.name in d && d[s.name].Arr? then d[s.name].items else [])
  {
    assert [d][1..] == [];
    assert Each(s, [], coll) == [];
  }

  lemma {:induction false} JoinRowsFrom(js: JoinScope, on: Expr, docs: seq<Doc>, rows: seq<Doc>)
    ensures forall i | 0 <= i < |JoinRows(Sides(js), on, docs, rows)| :: JoinRows(Sides(js), on, docs, rows)[i] in docs
  {
    if docs != [] {
      JoinOneFrom(js, on, docs[0], rows);
      JoinRowsFrom(js, on, docs[1..], rows);
    }
  }

  lemma {:induction false} JoinOneFrom(js: JoinScope, on: Expr, d: Doc, rows: seq<Doc>)
    ensures forall i | 0 <= i < |JoinOne(Sides(js), on, d, rows)| :: JoinOne(Sides(js), on, d, rows)[i] == d
  {
    if rows != [] { JoinOneFrom(js, on, d, rows[1..]); }
  }

  lemma EligibleSubset(sc: Scope, sel: Select, mongoMatch: bool, docs: seq<Doc>, some: seq<Doc>)
    requires Eligible(sc, sel, mongoMatch, docs) && From(some, docs)
    ensures Eligible(sc, sel, mongoMatch, some)
  {
    if sel.filter.Some? {
      forall i | 0 <= i < |some| ensures ConditionFits(sc, sel.filter.value, mongoMatch, some[i]) { assert some[i] in docs; }
    }
    ScalarFieldsFrom(sc.groups, docs, some);
    if !sc.grouped { ScalarFieldsFrom(OrderFields(sc, sel.orderBy), docs, some); }
    forall a | Mentioned(a, sel) ensures AggFits(a, some) { AggFitsFrom(a, docs, some); }
  }

  // ----- the outer query over the joined documents -----

  lemma {:induction false} KeepIsRestrict(names: seq<string>, d: Doc)
    ensures ProjectDoc(KeepFields(names), d) == Restrict(d, names)
  {
    if names != [] {
      var n := |names| - 1;
      assert KeepFields(names)[..n] == KeepFields(names[..n]);
      KeepIsRestrict(names[..n], d);
      assert names == names[..n] + [names[n]];
      assert Eval(Field(names[n]), d, map[]) == if names[n] in d then Some(d[names[n]]) else None;
    }
  }

  lemma {:induction false} MatchAll(docs: seq<Doc>)
    ensures Matching(All, docs) == docs
  {
    if docs != [] { MatchAll(docs[1..]); }
  }

  /** The stages of a find query do what the find does. */
  lemma FindTailRun(q: Query, docs: seq<Doc>, coll: seq<Doc>)
    requires q.Find?
    ensures Run(TailStages(q), docs, coll) == Execute(q, docs)
  {
    hide Run; hide Sorted; hide Matching; hide SortStages; hide KeepFields; hide Restricted;
    var filter := if q.filter == All then [] else [Match(q.filter)];
    var project := match q.keep case None => [] case Some(names) => [Project(KeepFields(names))];
    assert TailStages(q) == filter + (SortStages(q.sort) + project);
    RunAppend(filter, SortStages(q.sort) + project, docs, coll);
    FilterTailRun(q.filter, docs, coll);
    var kept := Matching(q.filter, docs);
    RunAppend(SortStages(q.sort), project, kept, coll);
    SortStagesRun(q.sort, kept, coll);
    KeepTailRun(q.keep, Sorted(q.sort, kept), coll);
  }

  lemma FilterTailRun(filter: Filter, docs: seq<Doc>, coll: seq<Doc>)
    ensures Run(if filter == All then [] else [Match(filter)], docs, coll) == Matching(filter, docs)
  {
    if filter == All { MatchAll(docs); } else { RunOne(Match(filter), docs, coll); }
  }

  lemma KeepTailRun(keep: Option<seq<string>>, docs: seq<Doc>, coll: seq<Doc>)
    ensures Run(match keep case None => [] case Some(names) => [Project(KeepFields(names))], docs, coll) == Restricted(keep, docs)
  {
    if keep.Some? {
      var project := Project(KeepFields(keep.value));
      RunOne(project, docs, coll);
      EachMaps(project, docs, coll);
      forall i | 0 <= i < |docs| ensures ProjectDoc(KeepFields(keep.value), docs[i]) == Restrict(docs[i], keep.value) {
        KeepIsRestrict(keep.value, docs[i]);
      }
    }
  }

  lemma TailAnswer(h: Header, sel: Select, t: Table, mongoMatch: bool, docs: seq<Doc>, coll: seq<Doc>)
    requires Assemble(h, sel, t, mongoMatch).Ok? && WellScoped(h.scope, sel) && Supported(h.scope, sel, t, mongoMatch, docs)
    ensures View(h.scope, Run(TailStages(Assemble(h, sel, t, mongoMatch).value), docs, coll)) == Answer(h.scope, sel, docs)
  {
    var q := Assemble(h, sel, t, mongoMatch).value;
    MeaningPreserved(h, sel, t, mongoMatch, docs);
    if q.Find? {
      FindTailRun(q, docs, coll);
    } else if h.scope.grouped {
      GroupedAnswer(h, sel, t, mongoMatch, docs, coll);
      GroupedAnswer(h, sel, t, mongoMatch, docs, docs);
    } else {
      PlainAnswer(h, sel, t, mongoMatch, docs, coll);
      PlainAnswer(h, sel, t, mongoMatch, docs, docs);
    }
  }

  /** The CTE is an aggregate query that returns its SQL rows themselves, at most one. */
  lemma CteAnswer(h: Header, sel: Select, t: Table, mongoMatch: bool, coll: seq<Doc>)
    requires Assemble(h, sel, t, mongoMatch).Ok? && WellScoped(h.scope, sel) && Supported(h.scope, sel, t, mongoMatch, coll)
    requires sel.limit.Some? && Literal(sel.limit.value) == Ok(Num(1.0))
    ensures Assemble(h, sel, t, mongoMatch).value.Aggregate?
    ensures Run(Assemble(h, sel, t, mongoMatch).value.pipeline, coll, coll) == Answer(h.scope, sel, coll)
    ensures |Answer(h.scope, sel, coll)| <= 1
  {
    if h.scope.grouped { GroupedAnswer(h, sel, t, mongoMatch, coll, coll); } else { PlainAnswer(h, sel, t, mongoMatch, coll, coll); }
    LimitDenotes(sel, |Candidates(h.scope, sel, coll)|);
  }

  // ----- the statement -----

  /** The rows SQL returns: the outer SELECT over the base rows that join with the CTE's row (base columns only). */
  function JoinAnswer(inner: Scope, outer: Scope, s: JoinStatement, coll: seq<Doc>): seq<Doc>
    requires |s.ctes| == 1 && |s.joins| == 1 && s.joins[0].on.Some? && |s.outer.from| > 0
  {
    Answer(outer, s.outer, JoinRows(NamesOf(s), s.joins[0].on.value, coll, Answer(inner, s.ctes[0].select, coll)))
  }

  /** The ON condition is translated with the statement's own names, which differ. */
  lemma ScopeNames(s: JoinStatement, js: JoinScope)
    requires JoinScopeOf(s) == Ok(js)
    ensures |s.ctes| == 1 && |s.joins| == 1 && s.joins[0].on.Some? && |s.outer.from| > 0
    ensures Sides(js) == NamesOf(s) && js.baseAlias != js.cteAlias
  {
  }

  lemma JoinMeaning(js: JoinScope, s: JoinStatement, hi: Header, ti: Table, ho: Header, to: Table, mongoMatch: bool, coll: seq<Doc>)
    requires JoinScopeOf(s) == Ok(js) && OnKeys(js, s.joins[0].on.value).Ok?
    requires Assemble(hi, s.ctes[0].select, ti, mongoMatch).Ok? && WellScoped(hi.scope, s.ctes[0].select)
    requires Assemble(ho, s.outer, to, mongoMatch).Ok? && WellScoped(ho.scope, s.outer)
    requires Supported(hi.scope, s.ctes[0].select, ti, mongoMatch, coll)
    requires Supported(ho.scope, s.outer, to, mongoMatch, JoinRows(Sides(js), s.joins[0].on.value, coll, Answer(hi.scope, s.ctes[0].select, coll)))
    ensures Assemble(hi, s.ctes[0].select, ti, mongoMatch).value.Aggregate?
    ensures var pairs := OnKeys(js, s.joins[0].on.value).value;
            var pipeline := Assemble(hi, s.ctes[0].select, ti, mongoMatch).value.pipeline
                            + JoinStages(KeyLets(pairs), KeyConditions(pairs))
                            + TailStages(Assemble(ho, s.outer, to, mongoMatch).value);
            View(ho.scope, Run(pipeline, coll, coll)) == JoinAnswer(hi.scope, ho.scope, s, coll)
  {
    ScopeNames(s, js);
    CteAnswer(hi, s.ctes[0].select, ti, mongoMatch, coll);
    var on := s.joins[0].on.value;
    var pairs := OnKeys(js, on).value;
    var inner := Assemble(hi, s.ctes[0].select, ti, mongoMatch).value.pipeline;
    var join := JoinStages(KeyLets(pairs), KeyConditions(pairs));
    var tail := TailStages(Assemble(ho, s.outer, to, mongoMatch).value);
    var rows := Answer(hi.scope, s.ctes[0].select, coll);
    RunAppend(inner + join, tail, coll, coll);
    RunAppend(inner, join, coll, coll);
    JoinRun(js, on, rows, coll);
    TailAnswer(ho, s.outer, to, mongoMatch, JoinRows(Sides(js), on, coll, rows), coll);
  }

  lemma LimitedIsAggregate(h: Header, sel: Select, t: Table, mongoMatch: bool)
    requires Assemble(h, sel, t, mongoMatch).Ok? && sel.limit.Some?
    ensures Assemble(h, sel, t, mongoMatch).value.Aggregate?
  {
  }

  lemma JoinMeaningEligible(js: JoinScope, s: JoinStatement, hi: Header, ti: Table, ho: Header, to: Table, mongoMatch: bool, coll: seq<Doc>)
    requires JoinScopeOf(s) == Ok(js) && OnKeys(js, s.joins[0].on.value).Ok?
    requires Assemble(hi, s.ctes[0].select, ti, mongoMatch).Ok? && Assemble(ho, s.outer, to, mongoMatch).Ok?
    requires HeaderMatches(hi.scope, s.ctes[0].select) && HeaderMatches(ho.scope, s.outer)
    requires forall i | 0 <= i < |ti| :: Mentioned(ti[i], s.ctes[0].select)
    requires forall i | 0 <= i < |to| :: Mentioned(to[i], s.outer)
    requires Eligible(hi.scope, s.ctes[0].select, mongoMatch, coll) && Eligible(ho.scope, s.outer, mongoMatch, coll)
    ensures Assemble(hi, s.ctes[0].select, ti, mongoMatch).value.Aggregate?
    ensures var pairs := OnKeys(js, s.joins[0].on.value).value;
            var pipeline := Assemble(hi, s.ctes[0].select, ti, mongoMatch).value.pipeline
                            + JoinStages(KeyLets(pairs), KeyConditions(pairs))
                            + TailStages(Assemble(ho, s.outer, to, mongoMatch).value);
            View(ho.scope, Run(pipeline, coll, coll)) == JoinAnswer(hi.scope, ho.scope, s, coll)
  {
    var rows := Answer(hi.scope, s.ctes[0].select, coll);
    var joined := JoinRows(Sides(js), s.joins[0].on.value, coll, rows);
    JoinRowsFrom(js, s.joins[0].on.value, coll, rows);
    EligibleSubset(ho.scope, s.outer, mongoMatch, coll, joined);
    EligibleSupported(hi.scope, s.ctes[0].select, ti, mongoMatch, coll);
    EligibleSupported(ho.scope, s.outer, to, mongoMatch, joined);
    JoinMeaning(js, s, hi, ti, ho, to, mongoMatch, coll);
  }

  /** On every eligible collection the query returns the join's SQL answer. */
  ghost predicate ReturnsJoin(q: Query, inner: Scope, outer: Scope, s: JoinStatement, mongoMatch: bool)
    requires |s.ctes| == 1 && |s.joins| == 1 && s.joins[0].on.Some? && |s.outer.from| > 0
  {
    forall coll | Eligible(inner, s.ctes[0].select, mongoMatch, coll) && Eligible(outer, s.outer, mongoMatch, coll) ::
      View(outer, Execute(q, coll)) == JoinAnswer(inner, outer, s, coll)
  }

  ghost predicate HeaderMatches(sc: Scope, sel: Select) {
    WellScoped(sc, sel) && |sc.outputs| == |sel.items| && forall i | 0 <= i < |sel.items| :: sc.outputs[i].source == sel.items[i].expr
  }

  method JoinPipeline(js: JoinScope, on: Expr, inner: Query, outer: Query) returns (r: Result<Query>)
    requires inner.Aggregate?
    ensures r.Ok? <==> OnKeys(js, on).Ok?
    ensures r.Ok? ==>
      var pairs := OnKeys(js, on).value;
      r.value == Aggregate(inner.target, inner.pipeline + JoinStages(KeyLets(pairs), KeyConditions(pairs)) + TailStages(outer))
  {
    var keys := new JoinKeys(js);
    var ok := keys.Equality(on);
    if !ok { return Rejected; }
    assert keys.pairs == OnKeys(js, on).value;
    r := Ok(Aggregate(inner.target, inner.pipeline + JoinStages(keys.variables, keys.conditions) + TailStages(outer)));
  }

  lemma AssembledTarget(h: Header, sel: Select, t: Table, mongoMatch: bool)
    requires Assemble(h, sel, t, mongoMatch).Ok?
    ensures Assemble(h, sel, t, mongoMatch).value.target == h.target
  {
  }

  /** The CTE's SELECT and the outer one can both be translated, and read the same collection. */
  ghost predicate SidesTranslatable(s: JoinStatement, defaultDatabase: Option<string>, mongoMatch: bool)
    requires |s.ctes| == 1
  {
    exists hi, ho :: Heads(s.ctes[0].select, defaultDatabase, hi) && Accepts(hi.scope, s.ctes[0].select, mongoMatch)
                     && Heads(s.outer, defaultDatabase, ho) && Accepts(ho.scope, s.outer, mongoMatch) && hi.target == ho.target
  }

  lemma Translated(sel: Select, defaultDatabase: Option<string>, mongoMatch: bool)
    requires IsTranslatable(sel, defaultDatabase, mongoMatch)
    ensures HeaderOf(sel, defaultDatabase).Ok?
    ensures var h := HeaderOf(sel, defaultDatabase).value; Heads(sel, defaultDatabase, h) && Accepts(h.scope, sel, mongoMatch)
  {
    hide HeaderOf; hide Heads; hide Accepts;
    var h :| Heads(sel, defaultDatabase, h) && Accepts(h.scope, sel, mongoMatch);
    HeaderIff(sel, defaultDatabase, h);
  }

  lemma SidesIff(s: JoinStatement, defaultDatabase: Option<string>, mongoMatch: bool)
    requires |s.ctes| == 1
    ensures SidesTranslatable(s, defaultDatabase, mongoMatch)
            <==> && IsTranslatable(s.ctes[0].select, defaultDatabase, mongoMatch) && IsTranslatable(s.outer, defaultDatabase, mongoMatch)
                 && HeaderOf(s.ctes[0].select, defaultDatabase).Ok? && HeaderOf(s.outer, defaultDatabase).Ok?
                 && HeaderOf(s.ctes[0].select, defaultDatabase).value.target == HeaderOf(s.outer, defaultDatabase).value.target
  {
    hide HeaderOf; hide Heads; hide Accepts;
    if hi, ho :| Heads(s.ctes[0].select, defaultDatabase, hi) && Accepts(hi.scope, s.ctes[0].select, mongoMatch)
                 && Heads(s.outer, defaultDatabase, ho) && Accepts(ho.scope, s.outer, mongoMatch) && hi.target == ho.target {
      HeaderIff(s.ctes[0].select, defaultDatabase, hi);
      HeaderIff(s.outer, defaultDatabase, ho);
    }
    if IsTranslatable(s.ctes[0].select, defaultDatabase, mongoMatch) { Translated(s.ctes[0].select, defaultDatabase, mongoMatch); }
    if IsTranslatable(s.outer, defaultDatabase, mongoMatch) { Translated(s.outer, defaultDatabase, mongoMatch); }
  }

  /**
   * Translate `WITH latest AS (... ORDER BY ... LIMIT 1) SELECT ... FROM base JOIN latest ON ...`: on every eligible
   * collection the pipeline returns the outer SELECT's answer over the rows that share the latest row's keys.
   */
  method TranslateLatestJoin(s: JoinStatement, defaultDatabase: Option<string>, mongoMatch: bool) returns (r: Result<Query>)
    ensures r.Ok? ==> r.value.Aggregate? && JoinScopeOf(s).Ok?
    ensures r.Ok? ==> HeaderOf(s.ctes[0].select, defaultDatabase).Ok? && HeaderOf(s.outer, defaultDatabase).Ok?
    ensures r.Ok? ==>
      var hi, ho := HeaderOf(s.ctes[0].select, defaultDatabase).value, HeaderOf(s.outer, defaultDatabase).value;
      hi.target == ho.target == r.value.target && ReturnsJoin(r.value, hi.scope, ho.scope, s, mongoMatch)
    ensures r.Ok? <==> JoinScopeOf(s).Ok? && OnKeys(JoinScopeOf(s).value, s.joins[0].on.value).Ok?
                       && SidesTranslatable(s, defaultDatabase, mongoMatch)
  {
    hide HeaderOf; hide Assemble; hide SidesTranslatable; hide OnKeys; hide ReturnsJoin; hide ReturnsAnswer; hide ReturnsInTurn;
    hide IsTranslatable;
    var jsr := JoinScopeOf(s);
    if jsr.Rejected? { return Rejected; }
    var js := jsr.value;
    SidesIff(s, defaultDatabase, mongoMatch);
    var inner, ti := TranslateSelect(s.ctes[0].select, defaultDatabase, mongoMatch);
    if inner.Rejected? { return Rejected; }
    var outer, to := TranslateSelect(s.outer, defaultDatabase, mongoMatch);
    if outer.Rejected? { return Rejected; }
    ghost var hi := HeaderOf(s.ctes[0].select, defaultDatabase).value;
    ghost var ho := HeaderOf(s.outer, defaultDatabase).value;
    AssembledTarget(hi, s.ctes[0].select, ti, mongoMatch);
    AssembledTarget(ho, s.outer, to, mongoMatch);
    if inner.value.target != outer.value.target { return Rejected; }
    LimitedIsAggregate(hi, s.ctes[0].select, ti, mongoMatch);
    r := JoinPipeline(js, s.joins[0].on.value, inner.value, outer.value);
    if r.Rejected? { return; }
    JoinReturns(js, s, defaultDatabase, hi, ti, ho, to, mongoMatch, r.value);
  }

  lemma JoinReturns(js: JoinScope, s: JoinStatement, defaultDatabase: Option<string>, hi: Header, ti: Table, ho: Header, to: Table,
                    mongoMatch: bool, q: Query)
    requires JoinScopeOf(s) == Ok(js) && OnKeys(js, s.joins[0].on.value).Ok?
    requires HeaderOf(s.ctes[0].select, defaultDatabase) == Ok(hi) && HeaderOf(s.outer, defaultDatabase) == Ok(ho)
    requires Assemble(hi, s.ctes[0].select, ti, mongoMatch).Ok? && Assemble(ho, s.outer, to, mongoMatch).Ok?
    requires forall i | 0 <= i < |ti| :: Mentioned(ti[i], s.ctes[0].select)
    requires forall i | 0 <= i < |to| :: Mentioned(to[i], s.outer)
    requires Assemble(hi, s.ctes[0].select, ti, mongoMatch).value.Aggregate? && q.Aggregate?
    requires var pairs := OnKeys(js, s.joins[0].on.value).value;
             q.pipeline == Assemble(hi, s.ctes[0].select, ti, mongoMatch).value.pipeline
                           + JoinStages(KeyLets(pairs), KeyConditions(pairs))
                           + TailStages(Assemble(ho, s.outer, to, mongoMatch).value)
    ensures ReturnsJoin(q, hi.scope, ho.scope, s, mongoMatch)
  {
    HeaderScoped(s.ctes[0].select, defaultDatabase);
    HeaderScoped(s.outer, defaultDatabase);
    forall coll | Eligible(hi.scope, s.ctes[0].select, mongoMatch, coll) && Eligible(ho.scope, s.outer, mongoMatch, coll)
      ensures View(ho.scope, Execute(q, coll)) == JoinAnswer(hi.scope, ho.scope, s, coll)
    {
      JoinMeaningEligible(js, s, hi, ti, ho, to, mongoMatch, coll);
    }
  }
}
