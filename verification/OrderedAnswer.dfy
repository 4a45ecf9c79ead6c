/**
 * What ORDER BY means for the rows a reader gets: a name of the select list orders by the values shown under it, any other name by
 * that field of the document, or by the grouping column or aggregate it is.
 */
module OrderedAnswer {
  import opened Values
  import opened Ordering
  import opened Partition
  import opened Sql
  import opened Mongo
  import opened Predicate
  import opened Grouping
  import opened OrderSpec
  import opened SelectQuery
  import opened SelectCorrect
  import opened Mentions

  /** An unqualified name that some column of the result has. */
  predicate NamesOutput(sc: Scope, e: Expr) { e.Column? && e.table.None? && exists i | 0 <= i < |sc.outputs| :: sc.outputs[i].name == e.name }

  /** What a row or group stands at for one ORDER BY term; `row` is what the result shows of it. */
  function Standing(sc: Scope, e: Expr, env: Env, row: Doc): Value {
    if NamesOutput(sc, e) then Read(row, e.name)
    else match env
      case Row(d) => if e.Column? then Read(d, e.name) else Null
      case Group(key, rows) => GroupTerm(sc, e, key, rows)
  }

  function Standings(sc: Scope, orderBy: seq<Ordered>, env: Env): (r: Key)
    ensures |r| == |orderBy| && forall k | 0 <= k < |r| :: r[k] == Standing(sc, orderBy[k].expr, env, ResultDoc(sc, env))
  {
    seq(|orderBy|, k requires 0 <= k < |orderBy| => Standing(sc, orderBy[k].expr, env, ResultDoc(sc, env)))
  }

  ghost predicate SameBefore(a: Key, b: Key, k: nat)
    requires k <= |a| == |b|
  {
    forall m | 0 <= m < k :: a[m] == b[m]
  }

  /**
   * The row at `p` comes before the row at `q`: on the first term they differ in, it has the smaller value, or the larger one for
   * a descending term; if they differ in none, it came first in the collection.
   */
  ghost predicate InTurn(orderBy: seq<Ordered>, a: Key, b: Key, p: nat, q: nat)
    requires |a| == |b| == |orderBy|
  {
    && (forall k | 0 <= k < |orderBy| && SameBefore(a, b, k) :: if orderBy[k].desc then !Less(a[k], b[k]) else !Less(b[k], a[k]))
    && (a == b ==> p < q)
  }

  /** `order` lists the candidates in turn, every one once; the answer shows the first of them. */
  ghost predicate AnswersInTurn(sc: Scope, sel: Select, docs: seq<Doc>, order: seq<nat>) {
    var envs := Candidates(sc, sel, docs);
    && |order| == |envs| && InRange(order, |envs|)
    && Answer(sc, sel, docs) == ResultDocs(sc, Pick(envs, order))[..LimitOf(sel, |envs|)]
    && forall i, j | 0 <= i < j < |order| ::
         InTurn(sel.orderBy, Standings(sc, sel.orderBy, envs[order[i]]), Standings(sc, sel.orderBy, envs[order[j]]), order[i], order[j])
  }

  // ----- comparing keys -----

  lemma {:induction false} KeyInTurn(orderBy: seq<Ordered>, a: Key, b: Key, p: nat, q: nat)
    requires |a| == |b| == |orderBy| && ScalarKey(a) && ScalarKey(b)
    requires KeyLess(a, b, Directions(orderBy)) || (a == b && p < q)
    ensures InTurn(orderBy, a, b, p, q)
  {
    if a != [] {
      Trichotomy(a[0], b[0]);
      if a[0] == b[0] {
        assert a == [a[0]] + a[1..] && b == [b[0]] + b[1..];
        KeyInTurn(orderBy[1..], a[1..], b[1..], p, q);
        forall k | 0 < k < |orderBy| && SameBefore(a, b, k)
          ensures if orderBy[k].desc then !Less(a[k], b[k]) else !Less(b[k], a[k])
        {
          assert SameBefore(a[1..], b[1..], k - 1);
          assert orderBy[1..][k - 1] == orderBy[k];
        }
      } else {
        forall k | 0 < k < |orderBy| ensures !SameBefore(a, b, k) {}
      }
    }
  }

  // ----- the terms -----

  lemma {:induction false} FindsOutput(outputs: seq<Output>, name: string)
    ensures match FindOutput(outputs, name)
            case Some(source) => exists i :: 0 <= i < |outputs| && outputs[i].name == name && outputs[i].source == source
            case None => forall i | 0 <= i < |outputs| :: outputs[i].name != name
  {
    if outputs != [] && outputs[0].name != name {
      FindsOutput(outputs[1..], name);
      if FindOutput(outputs[1..], name).Some? {
        var i :| 0 <= i < |outputs[1..]| && outputs[1..][i].name == name && outputs[1..][i].source == FindOutput(outputs, name).value;
        assert outputs[i + 1].name == name;
      }
    }
  }

  /** A term is worth what its row shows, unless the whole document is shown and the term names the star. */
  lemma TermStands(sc: Scope, e: Expr, env: Env)
    requires NamesDistinct(sc.outputs) && (sc.star && env.Row? ==> !NamesOutput(sc, e))
    ensures OrderTerm(sc, e, env) == Standing(sc, e, env, ResultDoc(sc, env))
  {
    hide GroupTerm; hide ResultRow; hide FindOutput; hide NamesDistinct;
    if e.Column? && e.table.None? {
      FindsOutput(sc.outputs, e.name);
      if FindOutput(sc.outputs, e.name).Some? {
        var i :| 0 <= i < |sc.outputs| && sc.outputs[i].name == e.name && sc.outputs[i].source == FindOutput(sc.outputs, e.name).value;
        RowReads(sc, sc.outputs, env, i);
      }
    }
  }

  lemma {:induction false} OrderKeyAt(sc: Scope, orderBy: seq<Ordered>, env: Env, k: nat)
    requires k < |orderBy|
    ensures OrderKey(sc, orderBy, env)[k] == OrderTerm(sc, orderBy[k].expr, env)
  {
    hide OrderTerm;
    if k > 0 { OrderKeyAt(sc, orderBy[1..], env, k - 1); }
  }

  /** The star cannot be named in an accepted ORDER BY. */
  lemma StarNotNamed(sc: Scope, orderBy: seq<Ordered>, k: nat)
    requires OrderList(sc, orderBy).Ok? && k < |orderBy|
    requires |sc.outputs| == 1 && sc.outputs[0].source.Star?
    ensures !NamesOutput(sc, orderBy[k].expr)
  {
    OrderListAt(sc, orderBy, k);
  }

  ghost predicate TermsStand(sc: Scope, orderBy: seq<Ordered>, envs: seq<Env>) {
    forall i, k | 0 <= i < |envs| && 0 <= k < |orderBy| :: sc.star && envs[i].Row? ==> !NamesOutput(sc, orderBy[k].expr)
  }

  lemma KeysStand(sc: Scope, orderBy: seq<Ordered>, env: Env)
    requires NamesDistinct(sc.outputs) && TermsStand(sc, orderBy, [env])
    ensures OrderKey(sc, orderBy, env) == Standings(sc, orderBy, env)
  {
    hide OrderKey; hide OrderTerm; hide Standing; hide NamesDistinct; hide ResultDoc; hide NamesOutput;
    forall k | 0 <= k < |orderBy| ensures OrderKey(sc, orderBy, env)[k] == Standings(sc, orderBy, env)[k] {
      OrderKeyAt(sc, orderBy, env, k);
      assert [env][0] == env;
      TermStands(sc, orderBy[k].expr, env);
    }
  }

  // ----- the keys are scalars -----

  lemma {:induction false} KeptFrom(sc: Scope, cond: Option<Expr>, envs: seq<Env>, i: nat)
    requires i < |Kept(sc, cond, envs)|
    ensures Kept(sc, cond, envs)[i] in envs
  {
    hide SqlTruth;
    var kept := cond.None? || SqlTruth(sc, cond.value, envs[0]) == True;
    if !kept { KeptFrom(sc, cond, envs[1..], i); } else if i > 0 { KeptFrom(sc, cond, envs[1..], i - 1); }
  }

  /** A group of rows of the collection, under one of their keys. */
  ghost predicate GroupFrom(sc: Scope, env: Env, docs: seq<Doc>) {
    env.Group? && ScalarKey(env.key) && From(env.rows, docs)
  }

  lemma GroupsFrom(groups: seq<string>, docs: seq<Doc>, sc: Scope, i: nat)
    requires ScalarFields(groups, docs) && i < |Groups(groups, docs)|
    ensures GroupFrom(sc, Groups(groups, docs)[i], docs)
  {
    if groups != [] {
      var keys := KeysOf(groups, docs);
      var ks := Distinct(keys);
      assert ks[i] in keys;
      var j :| 0 <= j < |keys| && keys[j] == ks[i];
      forall k | 0 <= k < |groups| ensures Scalar(Read(docs[j], groups[k])) { assert ScalarField(groups[k], docs); }
      KeyScalar(groups, docs[j]);
      MembersFrom(docs, keys, ks[i]);
    }
  }

  lemma FromTwice(a: seq<Doc>, b: seq<Doc>, c: seq<Doc>)
    requires From(a, b) && From(b, c)
    ensures From(a, c)
  {
    forall i | 0 <= i < |a| ensures a[i] in c { var j :| 0 <= j < |b| && b[j] == a[i]; assert b[j] in c; }
  }

  lemma CandidateGroup(sc: Scope, sel: Select, docs: seq<Doc>, i: nat)
    requires sc.grouped && ScalarFields(sc.groups, docs) && i < |Candidates(sc, sel, docs)|
    ensures GroupFrom(sc, Candidates(sc, sel, docs)[i], docs)
  {
    hide Kept; hide Filtered; hide Groups; hide ScalarFields; hide From; hide ScalarKey;
    var kept := Filtered(sc, sel.filter, docs);
    FilteredFrom(sc, sel.filter, docs);
    ScalarFieldsFrom(sc.groups, docs, kept);
    var all, env := Groups(sc.groups, kept), Candidates(sc, sel, docs)[i];
    KeptFrom(sc, sel.having, all, i);
    var j :| 0 <= j < |all| && all[j] == env;
    GroupsFrom(sc.groups, kept, sc, j);
    FromTwice(env.rows, kept, docs);
  }

  lemma GroupTermScalar(sc: Scope, sel: Select, e: Expr, env: Env, docs: seq<Doc>)
    requires GroupFrom(sc, env, docs) && AggregatesFit(sel, docs) && Within(e, sel)
    ensures Scalar(GroupTerm(sc, e, env.key, env.rows))
  {
    hide AggValue; hide Mentioned;
    if e.AggCall? {
      assert OccursIn(AggOf(e), e);
      AggFitsFrom(AggOf(e), docs, env.rows);
      AggScalar(AggOf(e), env.rows);
    }
  }

  lemma {:induction false} OrderFieldsHave(sc: Scope, orderBy: seq<Ordered>, k: nat)
    requires k < |orderBy| && Resolve(sc, orderBy[k].expr).Column?
    ensures Resolve(sc, orderBy[k].expr).name in OrderFields(sc, orderBy)
  {
    hide Resolve;
    if k > 0 { OrderFieldsHave(sc, orderBy[1..], k - 1); }
  }

  lemma RowTermScalar(sc: Scope, sel: Select, docs: seq<Doc>, d: Doc, k: nat)
    requires k < |sel.orderBy| && ScalarFields(OrderFields(sc, sel.orderBy), docs) && d in docs
    ensures Scalar(OrderTerm(sc, sel.orderBy[k].expr, Row(d)))
  {
    hide Resolve; hide OrderFields;
    var x := Resolve(sc, sel.orderBy[k].expr);
    if x.Column? {
      OrderFieldsHave(sc, sel.orderBy, k);
      var m :| 0 <= m < |OrderFields(sc, sel.orderBy)| && OrderFields(sc, sel.orderBy)[m] == x.name;
      assert ScalarField(x.name, docs);
    }
  }

  ghost predicate OutputsWithin(sc: Scope, sel: Select) { forall i | 0 <= i < |sc.outputs| :: Within(sc.outputs[i].source, sel) }

  lemma CandidateScalar(sc: Scope, sel: Select, docs: seq<Doc>, i: nat)
    requires OutputsWithin(sc, sel) && AggregatesFit(sel, docs) && ScalarFields(sc.groups, docs)
    requires !sc.grouped ==> ScalarFields(OrderFields(sc, sel.orderBy), docs)
    requires i < |Candidates(sc, sel, docs)|
    ensures ScalarKey(OrderKey(sc, sel.orderBy, Candidates(sc, sel, docs)[i]))
  {
    hide OrderKey; hide Candidates; hide AggregatesFit; hide ScalarFields; hide OrderFields; hide Resolve; hide Within; hide GroupTerm;
    hide GroupFrom;
    var env := Candidates(sc, sel, docs)[i];
    forall k | 0 <= k < |sel.orderBy| ensures Scalar(OrderKey(sc, sel.orderBy, env)[k]) {
      OrderKeyAt(sc, sel.orderBy, env, k);
      if sc.grouped {
        CandidateGroup(sc, sel, docs, i);
        GroupFromIs(sc, env, docs);
        TermWithin(sc, sel, k);
        GroupTermScalar(sc, sel, Resolve(sc, sel.orderBy[k].expr), env, docs);
      } else {
        CandidateRow(sc, sel, docs, i);
        RowTermScalar(sc, sel, docs, env.doc, k);
      }
    }
  }

  lemma GroupFromIs(sc: Scope, env: Env, docs: seq<Doc>)
    requires GroupFrom(sc, env, docs)
    ensures env.Group?
  {
  }

  lemma CandidateRow(sc: Scope, sel: Select, docs: seq<Doc>, i: nat)
    requires !sc.grouped && i < |Candidates(sc, sel, docs)|
    ensures Candidates(sc, sel, docs)[i].Row? && Candidates(sc, sel, docs)[i].doc in docs
  {
    hide Filtered;
    FilteredFrom(sc, sel.filter, docs);
  }

  // ----- the answer -----

  lemma PicksCut(sc: Scope, envs: seq<Env>, order: seq<nat>, n: nat)
    requires InRange(order, |envs|) && n <= |order|
    ensures ResultDocs(sc, Pick(envs, order)[..n]) == ResultDocs(sc, Pick(envs, order))[..n]
  {
    hide ResultDoc;
  }

  lemma SortedInTurn(sc: Scope, sel: Select, envs: seq<Env>, order: seq<nat>, i: nat, j: nat)
    requires i < j < |order| && NamesDistinct(sc.outputs) && TermsStand(sc, sel.orderBy, envs)
    requires Keyed(OrderKeys(sc, sel.orderBy, envs), Directions(sel.orderBy)) && InRange(order, |envs|)
    requires SortedOrder(order, OrderKeys(sc, sel.orderBy, envs), Directions(sel.orderBy))
    ensures InTurn(sel.orderBy, Standings(sc, sel.orderBy, envs[order[i]]), Standings(sc, sel.orderBy, envs[order[j]]), order[i], order[j])
  {
    hide OrderKey; hide Standings; hide NamesDistinct; hide NamesOutput; hide ScalarKey; hide InTurn; hide KeyLess;
    var keys, p, q := OrderKeys(sc, sel.orderBy, envs), order[i], order[j];
    assert Before(keys, Directions(sel.orderBy), p, q);
    KeyInTurn(sel.orderBy, keys[p], keys[q], p, q);
    KeysStand(sc, sel.orderBy, envs[p]);
    KeysStand(sc, sel.orderBy, envs[q]);
  }

  lemma NamesStand(sel: Select, defaultDatabase: Option<string>, t: Table, mongoMatch: bool, docs: seq<Doc>)
    requires HeaderOf(sel, defaultDatabase).Ok? && Assemble(HeaderOf(sel, defaultDatabase).value, sel, t, mongoMatch).Ok?
    ensures var sc := HeaderOf(sel, defaultDatabase).value.scope;
            NamesDistinct(sc.outputs) && OutputsWithin(sc, sel) && TermsStand(sc, sel.orderBy, Candidates(sc, sel, docs))
  {
    hide WhereFilter; hide Projection; hide HavingExpr; hide OrderList; hide SortExprs; hide GroupedPipeline; hide PlainPipeline;
    hide PlainOutputs; hide SortObject; hide Candidates; hide OutputsOf; hide ColumnNames; hide NamesOutput; hide NamesDistinct;
    hide Mentioned;
    HeaderScoped(sel, defaultDatabase);
    var sc := HeaderOf(sel, defaultDatabase).value.scope;
    forall i | 0 <= i < |sc.outputs| ensures Within(sc.outputs[i].source, sel) { ItemWithin(sel, i); }
    if sc.star {
      forall k | 0 <= k < |sel.orderBy| ensures !NamesOutput(sc, sel.orderBy[k].expr) { StarNotNamed(sc, sel.orderBy, k); }
    }
  }

  lemma ItemWithin(sel: Select, i: nat)
    requires i < |sel.items|
    ensures Within(sel.items[i].expr, sel)
  {
  }

  /** For every accepted SELECT and eligible collection: the answer's rows are the candidates in turn, cut at the limit. */
  lemma AnswerIsOrdered(sel: Select, defaultDatabase: Option<string>, t: Table, mongoMatch: bool, docs: seq<Doc>) returns (order: seq<nat>)
    requires HeaderOf(sel, defaultDatabase).Ok? && Assemble(HeaderOf(sel, defaultDatabase).value, sel, t, mongoMatch).Ok?
    requires Eligible(HeaderOf(sel, defaultDatabase).value.scope, sel, mongoMatch, docs)
    ensures AnswersInTurn(HeaderOf(sel, defaultDatabase).value.scope, sel, docs, order)
  {
    hide HeaderOf; hide Assemble; hide Candidates; hide OrderKey; hide Standings; hide InTurn; hide ResultDocs; hide SortOrder;
    hide ScalarKey; hide TermsStand; hide OutputsWithin; hide NamesDistinct; hide SortedOrder; hide AggregatesFit; hide WhereFits;
    hide ScalarFields; hide OrderFaithful;
    var sc := HeaderOf(sel, defaultDatabase).value.scope;
    NamesStand(sel, defaultDatabase, t, mongoMatch, docs);
    var envs := Candidates(sc, sel, docs);
    var keys, desc := OrderKeys(sc, sel.orderBy, envs), Directions(sel.orderBy);
    forall i | 0 <= i < |keys| ensures ScalarKey(keys[i]) { CandidateScalar(sc, sel, docs, i); }
    order := SortOrder(keys, desc);
    SortOrderIsStableSort(keys, desc);
    forall i, j | 0 <= i < j < |order|
      ensures InTurn(sel.orderBy, Standings(sc, sel.orderBy, envs[order[i]]), Standings(sc, sel.orderBy, envs[order[j]]), order[i], order[j])
    {
      SortedInTurn(sc, sel, envs, order, i, j);
    }
    PicksCut(sc, envs, order, LimitOf(sel, |envs|));
  }

  // ----- the rows a query returns -----

  /** The first `k + 1` terms all name columns of the result. */
  ghost predicate NamedTo(sc: Scope, orderBy: seq<Ordered>, k: nat)
    requires k < |orderBy|
  {
    forall m | 0 <= m <= k :: NamesOutput(sc, orderBy[m].expr)
  }

  function ShownAt(e: Expr, row: Doc): Value { if e.Column? then Read(row, e.name) else Null }

  ghost predicate ShownAlike(orderBy: seq<Ordered>, a: Doc, b: Doc, k: nat)
    requires k < |orderBy|
  {
    forall m | 0 <= m < k :: ShownAt(orderBy[m].expr, a) == ShownAt(orderBy[m].expr, b)
  }

  /** Row `a` may come before row `b`, by what they show under the names they are ordered by. */
  ghost predicate RowsInTurn(sc: Scope, orderBy: seq<Ordered>, a: Doc, b: Doc) {
    forall k | 0 <= k < |orderBy| && NamedTo(sc, orderBy, k) && ShownAlike(orderBy, a, b, k) ::
      var x, y := ShownAt(orderBy[k].expr, a), ShownAt(orderBy[k].expr, b);
      if orderBy[k].desc then !Less(x, y) else !Less(y, x)
  }

  lemma StandingsShown(sc: Scope, orderBy: seq<Ordered>, x: Env, y: Env, p: nat, q: nat)
    requires InTurn(orderBy, Standings(sc, orderBy, x), Standings(sc, orderBy, y), p, q)
    ensures RowsInTurn(sc, orderBy, ResultDoc(sc, x), ResultDoc(sc, y))
  {
    hide NamesOutput; hide ResultDoc;
    var a, b := ResultDoc(sc, x), ResultDoc(sc, y);
    forall k | 0 <= k < |orderBy| && NamesOutput(sc, orderBy[k].expr)
      ensures ShownAt(orderBy[k].expr, a) == Standings(sc, orderBy, x)[k] && ShownAt(orderBy[k].expr, b) == Standings(sc, orderBy, y)[k]
    {
      NamesAreColumns(sc, orderBy[k].expr);
    }
    forall k | 0 <= k < |orderBy| && NamedTo(sc, orderBy, k) && ShownAlike(orderBy, a, b, k)
      ensures SameBefore(Standings(sc, orderBy, x), Standings(sc, orderBy, y), k) && NamesOutput(sc, orderBy[k].expr)
    {
    }
  }

  lemma NamesAreColumns(sc: Scope, e: Expr)
    requires NamesOutput(sc, e)
    ensures e.Column?
  {
  }

  /**
   * The documents the emitted query returns are ordered by what they show: two of them that agree on the first ORDER BY names show
   * the next name's values in its direction.
   */
  lemma ReturnedInOrder(sel: Select, defaultDatabase: Option<string>, t: Table, mongoMatch: bool, docs: seq<Doc>)
    requires HeaderOf(sel, defaultDatabase).Ok? && Assemble(HeaderOf(sel, defaultDatabase).value, sel, t, mongoMatch).Ok?
    requires Eligible(HeaderOf(sel, defaultDatabase).value.scope, sel, mongoMatch, docs) && forall i | 0 <= i < |t| :: Mentioned(t[i], sel)
    ensures var h := HeaderOf(sel, defaultDatabase).value;
            var out := View(h.scope, Execute(Assemble(h, sel, t, mongoMatch).value, docs));
            forall i, j | 0 <= i < j < |out| :: RowsInTurn(h.scope, sel.orderBy, out[i], out[j])
  {
    hide HeaderOf; hide Assemble; hide Eligible; hide Candidates; hide Standings; hide InTurn; hide RowsInTurn; hide View; hide Execute;
    hide ResultDoc; hide WellScoped; hide Mentioned;
    var h := HeaderOf(sel, defaultDatabase).value;
    HeaderScoped(sel, defaultDatabase);
    forall i | 0 <= i < |h.scope.outputs| ensures Within(h.scope.outputs[i].source, sel) { ItemWithin(sel, i); }
    EligibleSupported(h.scope, sel, t, mongoMatch, docs);
    MeaningPreserved(h, sel, t, mongoMatch, docs);
    var order := AnswerIsOrdered(sel, defaultDatabase, t, mongoMatch, docs);
    var envs, out := Candidates(h.scope, sel, docs), Answer(h.scope, sel, docs);
    forall i, j | 0 <= i < j < |out| ensures RowsInTurn(h.scope, sel.orderBy, out[i], out[j]) {
      StandingsShown(h.scope, sel.orderBy, envs[order[i]], envs[order[j]], order[i], order[j]);
    }
  }

  // ----- HAVING -----

  /** In HAVING an unqualified name that is no grouping column but heads a column of the result means what the group's row shows there. */
  lemma HavingNameShown(sc: Scope, e: Expr, key: Key, rows: seq<Doc>)
    requires NamesDistinct(sc.outputs) && NamesOutput(sc, e) && e.name !in sc.groups
    ensures SqlValue(sc, e, Group(key, rows)) == Read(ResultDoc(sc, Group(key, rows)), e.name)
  {
    hide GroupTerm; hide ResultRow; hide FindOutput; hide NamesDistinct;
    FindsOutput(sc.outputs, e.name);
    var i :| 0 <= i < |sc.outputs| && sc.outputs[i].name == e.name && Some(sc.outputs[i].source) == FindOutput(sc.outputs, e.name);
    RowReads(sc, sc.outputs, Group(key, rows), i);
  }

  /** A grouping column's name means that column, whatever the select list calls so. */
  lemma HavingColumn(sc: Scope, e: Expr, key: Key, rows: seq<Doc>, i: nat)
    requires e.Column? && i < |sc.groups| == |key| && sc.groups[i] == e.name
    requires forall m | 0 <= m < i :: sc.groups[m] != e.name
    ensures SqlValue(sc, e, Group(key, rows)) == key[i]
  {
    assert IndexOf(sc.groups, e.name) == Some(i);
  }
}
