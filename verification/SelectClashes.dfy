/** The two SELECTs that the translation gets wrong, each with a collection on which the answers differ. */
module SelectClashes {
  import opened Values
  import opened Ordering
  import opened Partition
  import opened Sql
  import opened Mongo
  import opened HavingNames
  import opened Predicate
  import opened Grouping
  import opened SelectQuery
  import opened SelectCorrect
  import opened Mentions
  import opened Translator

  const COUNT_ROWS: Expr := AggCall(Count, None, true, false)
  const COUNT_STAR_COLUMN: Expr := AggCall(Count, Some(Column(None, "*", false)), false, false)
  const COLUMN_X: Expr := Column(None, "x", false)
  const SOURCE: Source := Table(Some("db"), "c", None, false)

  lemma AnswerUnsorted(sc: Scope, sel: Select, docs: seq<Doc>)
    requires sel.orderBy == [] && sel.limit.None?
    ensures Answer(sc, sel, docs) == ResultDocs(sc, Candidates(sc, sel, docs))
  {
    var envs := Candidates(sc, sel, docs);
    NoOrder(OrderKeys(sc, [], envs), |envs|);
    PickAll(envs);
    assert envs[..|envs|] == envs;
  }

  lemma TwoOutputs(sc: Scope, a: Item, b: Item)
    requires OutputOf(sc, a).Ok? && OutputOf(sc, b).Ok?
    ensures OutputsOf(sc, [a, b]) == Ok([OutputOf(sc, a).value, OutputOf(sc, b).value])
  {
    hide OutputOf;
    var x, y := OutputOf(sc, a).value, OutputOf(sc, b).value;
    assert [a, b][1..] == [b] && [b][1..] == [] && [a, b][0] == a;
    assert OutputsOf(sc, []) == Ok([]);
    assert [y] + [] == [y] && [x] + [y] == [x, y];
    assert OutputsOf(sc, [b]) == Ok([y]);
  }

  const BASE: Scope := Scope("c", [], false, [], false)

  /** The header of a grouped SELECT with two named outputs. */
  lemma GroupedHeader(sel: Select, a: Item, b: Item, groups: seq<string>)
    requires sel.items == [a, b] && sel.from == [SOURCE] && !sel.otherClauses && !sel.groupAllOrTotals
    requires OutputOf(BASE, a).Ok? && OutputOf(BASE, b).Ok? && ColumnNames(BASE, sel.groupBy) == Ok(groups)
    requires var x, y := OutputOf(BASE, a).value, OutputOf(BASE, b).value;
             && x.name != y.name && (x.agg.Some? || x.source.Column?) && y.agg.Some? && !x.source.Star? && !y.source.Star?
    ensures HeaderOf(sel, None) ==
            Ok(Header(Target("db", "c"), Scope("c", [OutputOf(BASE, a).value, OutputOf(BASE, b).value], false, groups, true)))
  {
    hide OutputOf; hide ColumnNames; hide OutputsOf;
    TwoOutputs(BASE, a, b);
    var outputs := [OutputOf(BASE, a).value, OutputOf(BASE, b).value];
    assert outputs[1] in outputs;
    assert forall o | o in outputs :: o == outputs[0] || o == outputs[1];
    assert NamesDistinct(outputs);
  }

  /** The projection entries of two outputs. */
  lemma TwoFields(sc: Scope, t: Table, a: Output, b: Output)
    requires OutputExpr(sc, t, a).Ok? && OutputExpr(sc, t, b).Ok?
    ensures Projection(sc, t, [a, b]) == Ok([(a.name, OutputExpr(sc, t, a).value), (b.name, OutputExpr(sc, t, b).value)])
  {
    var first, second := (a.name, OutputExpr(sc, t, a).value), (b.name, OutputExpr(sc, t, b).value);
    assert [a, b][..1] == [a] && [a][..0] == [];
    assert Projection(sc, t, []) == Ok([]);
    assert [] + [first] == [first] && [first] + [second] == [first, second];
    assert Projection(sc, t, [a]) == Ok([first]);
  }

  // ----- COUNT(*) beside a count of a column named `*` -----

  /** `SELECT COUNT(*) AS n, COUNT("*") AS m FROM db.c` */
  const STAR_SELECT: Select :=
    Select([Item(COUNT_ROWS, Some("n"), false), Item(COUNT_STAR_COLUMN, Some("m"), false)], [SOURCE], None, [], false, None, [],
           None, false)

  const STAR_SCOPE: Scope :=
    Scope("c", [Output(COUNT_ROWS, Some(Agg(Count, None)), "n"), Output(COUNT_STAR_COLUMN, Some(Agg(Count, Some("*"))), "m")],
          false, [], true)

  lemma StarHeader()
    ensures HeaderOf(STAR_SELECT, None) == Ok(Header(Target("db", "c"), STAR_SCOPE))
  {
    var items := STAR_SELECT.items;
    assert OutputOf(BASE, items[0]) == Ok(STAR_SCOPE.outputs[0]);
    assert OutputOf(BASE, items[1]) == Ok(STAR_SCOPE.outputs[1]);
    assert items == [items[0], items[1]] && STAR_SCOPE.outputs == [STAR_SCOPE.outputs[0], STAR_SCOPE.outputs[1]];
    GroupedHeader(STAR_SELECT, items[0], items[1], []);
  }

  lemma StarAnswer()
    ensures Answer(STAR_SCOPE, STAR_SELECT, [map[]]) == [map["n" := Num(1.0), "m" := Num(0.0)]]
  {
    var docs: seq<Doc> := [map[]];
    AnswerUnsorted(STAR_SCOPE, STAR_SELECT, docs);
    WhereDenotes(STAR_SCOPE, None, false, docs);
    KeptAll(STAR_SCOPE, Groups([], docs));
    assert Candidates(STAR_SCOPE, STAR_SELECT, docs) == [Group([], docs)];
    assert Present("*", docs) == Present("*", []);
    var outputs := STAR_SCOPE.outputs;
    assert outputs[..1] == [outputs[0]] && outputs[..1][..0] == [];
    assert ResultRow(STAR_SCOPE, outputs[..1], Group([], docs)) == map["n" := Num(1.0)];
  }

  /** A document projected to the same expression twice reads the same under both names. */
  lemma TwinFields(e: MExpr, d: Doc)
    ensures Read(ProjectDoc([("n", e), ("m", e)], d), "n") == Read(ProjectDoc([("n", e), ("m", e)], d), "m")
  {
    var fields: Fields := [("n", e), ("m", e)];
    assert fields[..1] == [("n", e)] && fields[..1][..0] == [];
    assert ProjectDoc(fields[..1][..0], d) == map[];
    assert ProjectDoc(fields[..1], d) == match Eval(e, d, map[]) case Some(v) => map["n" := v] case None => map[];
  }

  /** A global aggregate projects its one document. */
  lemma GlobalRun(t: Table, fields: Fields, docs: seq<Doc>)
    ensures Run(GlobalStages(t) + [Project(fields)], docs, docs) == [ProjectDoc(fields, GlobalDoc(t, docs))]
  {
    hide GlobalStages; hide GlobalDoc; hide ProjectDoc;
    RunAppend(GlobalStages(t), [Project(fields)], docs, docs);
    GlobalStagesRun(t, docs, docs);
    RunOne(Project(fields), [GlobalDoc(t, docs)], docs);
    EachMaps(Project(fields), [GlobalDoc(t, docs)], docs);
  }

  /** Both outputs are projected from the slot of the signature they share. */
  lemma StarFields(t: Table)
    requires Projection(STAR_SCOPE, t, STAR_SCOPE.outputs).Ok?
    ensures exists e :: Projection(STAR_SCOPE, t, STAR_SCOPE.outputs) == Ok([("n", e), ("m", e)])
  {
    var outputs := STAR_SCOPE.outputs;
    assert outputs == [outputs[0], outputs[1]] && outputs[..1] == [outputs[0]];
    var x, y := OutputExpr(STAR_SCOPE, t, outputs[0]), OutputExpr(STAR_SCOPE, t, outputs[1]);
    assert y.Ok? && x == y;
    TwoFields(STAR_SCOPE, t, outputs[0], outputs[1]);
    assert Projection(STAR_SCOPE, t, outputs) == Ok([("n", x.value), ("m", x.value)]);
  }

  lemma StarPipeline(t: Table, mongoMatch: bool)
    requires Assemble(Header(Target("db", "c"), STAR_SCOPE), STAR_SELECT, t, mongoMatch).Ok?
    ensures Projection(STAR_SCOPE, t, STAR_SCOPE.outputs).Ok?
    ensures Assemble(Header(Target("db", "c"), STAR_SCOPE), STAR_SELECT, t, mongoMatch).value ==
            Aggregate(Target("db", "c"), GlobalStages(t) + [Project(Projection(STAR_SCOPE, t, STAR_SCOPE.outputs).value)])
  {
    hide GlobalStages; hide Projection; hide Pred; hide GroupIds; hide TableAccs;
    var h, fields := Header(Target("db", "c"), STAR_SCOPE), Projection(STAR_SCOPE, t, STAR_SCOPE.outputs).value;
    assert GroupedPipeline(STAR_SCOPE, STAR_SELECT, t, All, fields, None, [], None) == GlobalStages(t) + [Project(fields)];
  }

  lemma StarRun(t: Table, mongoMatch: bool)
    requires Assemble(Header(Target("db", "c"), STAR_SCOPE), STAR_SELECT, t, mongoMatch).Ok?
    ensures var out := Execute(Assemble(Header(Target("db", "c"), STAR_SCOPE), STAR_SELECT, t, mongoMatch).value, [map[]]);
            |out| == 1 && Read(out[0], "n") == Read(out[0], "m")
  {
    hide Assemble; hide Projection; hide GlobalStages; hide GlobalDoc; hide ProjectDoc; hide Run;
    StarPipeline(t, mongoMatch);
    StarFields(t);
    var e :| Projection(STAR_SCOPE, t, STAR_SCOPE.outputs) == Ok([("n", e), ("m", e)]);
    GlobalRun(t, [("n", e), ("m", e)], [map[]]);
    TwinFields(e, GlobalDoc(t, [map[]]));
  }

  lemma StarAssembles(mongoMatch: bool)
    ensures Assemble(Header(Target("db", "c"), STAR_SCOPE), STAR_SELECT, [Agg(Count, None)], mongoMatch).Ok?
  {
    var t, outputs := [Agg(Count, None)], STAR_SCOPE.outputs;
    assert outputs == [outputs[0], outputs[1]];
    assert SlotOf(t, "count:*") == Some(0);
    TwoFields(STAR_SCOPE, t, outputs[0], outputs[1]);
  }

  /** Whatever the table, the two outputs read one slot, so the row that comes back has the same value in both. */
  lemma StarClashDiffers(t: Table, mongoMatch: bool)
    ensures HeaderOf(STAR_SELECT, None) == Ok(Header(Target("db", "c"), STAR_SCOPE)) && !Unclashed(STAR_SELECT)
    ensures Answer(STAR_SCOPE, STAR_SELECT, [map[]]) == [map["n" := Num(1.0), "m" := Num(0.0)]]
    ensures var h := Header(Target("db", "c"), STAR_SCOPE);
            && (t == [Agg(Count, None)] ==> Assemble(h, STAR_SELECT, t, mongoMatch).Ok?)
            && (Assemble(h, STAR_SELECT, t, mongoMatch).Ok? ==>
                  View(STAR_SCOPE, Execute(Assemble(h, STAR_SELECT, t, mongoMatch).value, [map[]]))
                  != Answer(STAR_SCOPE, STAR_SELECT, [map[]]))
  {
    hide Assemble; hide Answer; hide HeaderOf; hide Execute; hide Shown;
    StarHeader();
    StarAnswer();
    StarAssembles(mongoMatch);
    assert OccursIn(Agg(Count, None), STAR_SELECT.items[0].expr) && OccursIn(Agg(Count, Some("*")), STAR_SELECT.items[1].expr);
    var a := Assemble(Header(Target("db", "c"), STAR_SCOPE), STAR_SELECT, t, mongoMatch);
    if a.Ok? {
      StarRun(t, mongoMatch);
      var out := Execute(a.value, [map[]]);
      TwinShown(out[0], Read(out[0], "n"));
      assert View(STAR_SCOPE, out)[0]["n"] == View(STAR_SCOPE, out)[0]["m"];
    }
  }

  lemma TwinShown(d: Doc, v: Value)
    requires Read(d, "n") == v && Read(d, "m") == v
    ensures Shown(STAR_SCOPE.outputs, d) == map["n" := v, "m" := v]
  {
    var outputs := STAR_SCOPE.outputs;
    assert outputs[..1] == [outputs[0]] && outputs[..1][..0] == [];
    assert Shown(outputs[..1], d) == map["n" := v];
  }

  // ----- an output named like a grouping column -----

  /** `SELECT x AS y, COUNT(*) AS x FROM db.c GROUP BY x HAVING x > 1` */
  const NAME_SELECT: Select :=
    Select([Item(COLUMN_X, Some("y"), false), Item(COUNT_ROWS, Some("x"), false)], [SOURCE], None, [COLUMN_X], false,
           Some(Compare(Gt, COLUMN_X, NumLit(1.0))), [], None, false)

  const NAME_SCOPE: Scope :=
    Scope("c", [Output(COLUMN_X, None, "y"), Output(COUNT_ROWS, Some(Agg(Count, None)), "x")], false, ["x"], true)

  const FIVE: Doc := map["x" := Num(5.0)]

  lemma NameHeader()
    ensures HeaderOf(NAME_SELECT, None) == Ok(Header(Target("db", "c"), NAME_SCOPE))
  {
    var items := NAME_SELECT.items;
    assert OutputOf(BASE, items[0]) == Ok(NAME_SCOPE.outputs[0]);
    assert OutputOf(BASE, items[1]) == Ok(NAME_SCOPE.outputs[1]);
    assert items == [items[0], items[1]] && NAME_SCOPE.outputs == [NAME_SCOPE.outputs[0], NAME_SCOPE.outputs[1]];
    assert [COLUMN_X][1..] == [] && ["x"] + [] == ["x"] && ColumnNames(BASE, []) == Ok([]);
    assert ColumnNames(BASE, NAME_SELECT.groupBy) == Ok(["x"]);
    GroupedHeader(NAME_SELECT, items[0], items[1], ["x"]);
  }

  lemma OneFiveGroup()
    ensures Groups(["x"], [FIVE]) == [Group([Num(5.0)], [FIVE])]
  {
    var keys := KeysOf(["x"], [FIVE]);
    assert ["x"][1..] == [] && KeyOf([], FIVE) == [] && KeyOf(["x"], FIVE) == [Num(5.0)];
    assert keys == [[Num(5.0)]] && keys[..0] == [] && keys[1..] == [] && [FIVE][1..] == [];
    assert Distinct(keys[..0]) == [] && Distinct(keys) == [[Num(5.0)]];
    assert Members([FIVE], keys, [Num(5.0)]) == [FIVE];
  }

  lemma NameResolved()
    ensures Resolve(NAME_SCOPE, COLUMN_X) == COUNT_ROWS && !NamesAgree(NAME_SCOPE, NAME_SELECT.having.value)
  {
    var outputs := NAME_SCOPE.outputs;
    assert outputs[1..][0] == outputs[1];
    assert FindOutput(outputs, "x") == FindOutput(outputs[1..], "x");
  }

  /** SQL: the grouping column is 5, so the group stays. */
  lemma NameAnswer()
    ensures Answer(NAME_SCOPE, NAME_SELECT, [FIVE]) == [map["y" := Num(5.0), "x" := Num(1.0)]]
  {
    AnswerUnsorted(NAME_SCOPE, NAME_SELECT, [FIVE]);
    WhereDenotes(NAME_SCOPE, None, false, [FIVE]);
    OneFiveGroup();
    var env := Group([Num(5.0)], [FIVE]);
    assert IndexOf(["x"], "x") == Some(0);
    assert SqlValue(NAME_SCOPE, COLUMN_X, env) == Num(5.0);
    assert SqlTruth(NAME_SCOPE, NAME_SELECT.having.value, env) == True;
    assert [env][1..] == [] && [env] + [] == [env];
    assert Kept(NAME_SCOPE, NAME_SELECT.having, [env]) == [env] + Kept(NAME_SCOPE, NAME_SELECT.having, []);
    var outputs := NAME_SCOPE.outputs;
    assert outputs[..1] == [outputs[0]] && outputs[..1][..0] == [];
    assert ResultRow(NAME_SCOPE, outputs[..1], env) == map["y" := Num(5.0)];
    assert ResultRow(NAME_SCOPE, outputs, env) == map["y" := Num(5.0), "x" := Num(1.0)];
  }

  lemma NameGrouped(t: Table)
    requires forall i | 0 <= i < |t| :: t[i] == Agg(Count, None)
    ensures var out := Run(GroupStages(NAME_SCOPE, t), [FIVE], [FIVE]);
            |out| == 1 && Denotes(NAME_SCOPE, t, true, Group([Num(5.0)], [FIVE]), out[0])
  {
    hide Denotes; hide GroupDocs; hide Groups; hide TableAccs; hide GroupIds; hide Run;
    OneFiveGroup();
    GroupStagePresents(NAME_SCOPE, t, [FIVE]);
    RunOne(GroupStages(NAME_SCOPE, t)[0], [FIVE], [FIVE]);
  }

  lemma NameDropped(t: Table, d: Doc)
    requires Denotes(NAME_SCOPE, t, true, Group([Num(5.0)], [FIVE]), d) && HavingExpr(NAME_SCOPE, t, NAME_SELECT.having).Ok?
    ensures Matching(ExprF(HavingExpr(NAME_SCOPE, t, NAME_SELECT.having).value.value), [d]) == []
  {
    hide GroupRef; hide Presents; hide IsGroup; hide TableFits; hide NonNull;
    NameResolved();
    assert Fits(t, NAME_SCOPE.outputs[1].source);
    GroupRefDenotes(NAME_SCOPE, t, COUNT_ROWS, [Num(5.0)], [FIVE], d);
    var a, b := GroupRef(NAME_SCOPE, t, COUNT_ROWS).value, Lit(Num(1.0));
    assert Eval(b, d, map[]) == Some(Num(1.0));
    ComparedDenotes(Gt, false, a, b, d, Num(1.0), Num(1.0));
    assert [d][1..] == [];
  }

  /** The translation: the count is 1, so HAVING drops the group. */
  lemma NameHaving(t: Table)
    requires forall i | 0 <= i < |t| :: t[i] == Agg(Count, None)
    requires HavingExpr(NAME_SCOPE, t, NAME_SELECT.having).Ok?
    ensures Run(GroupStages(NAME_SCOPE, t) + HavingStages(HavingExpr(NAME_SCOPE, t, NAME_SELECT.having).value), [FIVE], [FIVE])
            == []
  {
    hide GroupStages; hide HavingExpr; hide Run; hide Denotes; hide Matching;
    var p := HavingExpr(NAME_SCOPE, t, NAME_SELECT.having).value;
    var out := Run(GroupStages(NAME_SCOPE, t), [FIVE], [FIVE]);
    RunAppend(GroupStages(NAME_SCOPE, t), HavingStages(p), [FIVE], [FIVE]);
    NameGrouped(t);
    assert out == [out[0]];
    NameDropped(t, out[0]);
    HavingGiven(t);
    RunOne(Match(ExprF(p.value)), out, [FIVE]);
  }

  lemma HavingGiven(t: Table)
    requires HavingExpr(NAME_SCOPE, t, NAME_SELECT.having).Ok?
    ensures HavingExpr(NAME_SCOPE, t, NAME_SELECT.having).value.Some?
  {
    hide Pred;
  }

  lemma NameRun(t: Table, mongoMatch: bool)
    requires forall i | 0 <= i < |t| :: t[i] == Agg(Count, None)
    requires Assemble(Header(Target("db", "c"), NAME_SCOPE), NAME_SELECT, t, mongoMatch).Ok?
    ensures Execute(Assemble(Header(Target("db", "c"), NAME_SCOPE), NAME_SELECT, t, mongoMatch).value, [FIVE]) == []
  {
    hide Assemble; hide GroupStages; hide HavingExpr; hide Projection; hide Run;
    GroupedShape(Header(Target("db", "c"), NAME_SCOPE), NAME_SELECT, t, mongoMatch);
    var group := GroupStages(NAME_SCOPE, t) + HavingStages(HavingExpr(NAME_SCOPE, t, NAME_SELECT.having).value);
    var project := Project(Projection(NAME_SCOPE, t, NAME_SCOPE.outputs).value);
    assert SortExprs(NAME_SCOPE, t, NAME_SELECT.orderBy).value == [];
    RunFour([], group, [], [project], [FIVE], [FIVE]);
    assert LimitStages(None) + [project] == [project];
    NothingRuns([FIVE], [FIVE]);
    NothingRuns([], [FIVE]);
    NameHaving(t);
    RunOne(project, [], [FIVE]);
  }

  lemma NothingRuns(docs: seq<Doc>, coll: seq<Doc>)
    ensures Run([], docs, coll) == docs
  {
  }

  lemma NameAssembles(mongoMatch: bool)
    ensures Assemble(Header(Target("db", "c"), NAME_SCOPE), NAME_SELECT, [Agg(Count, None)], mongoMatch).Ok?
  {
    var t, outputs := [Agg(Count, None)], NAME_SCOPE.outputs;
    assert outputs == [outputs[0], outputs[1]];
    assert SlotOf(t, "count:*") == Some(0) && IndexOf(["x"], "x") == Some(0);
    TwoFields(NAME_SCOPE, t, outputs[0], outputs[1]);
    NameResolved();
    assert Pred(NAME_SCOPE, t, NAME_SELECT.having.value, true, false).Ok?;
  }

  lemma NameMentions(a: Agg)
    requires Mentioned(a, NAME_SELECT)
    ensures a == Agg(Count, None)
  {
    var items := NAME_SELECT.items;
    assert OccursIn(a, items[1].expr) <==> a == Agg(Count, None);
    assert !OccursIn(a, items[0].expr) && !OccursIn(a, NAME_SELECT.having.value);
    assert |items| == 2 && NAME_SELECT.orderBy == [];
  }

  /** SQL keeps the group whose column `x` is 5; the translation compares the count, which is 1, and returns nothing. */
  lemma HavingNameDiffers(t: Table, mongoMatch: bool)
    requires forall i | 0 <= i < |t| :: Mentioned(t[i], NAME_SELECT)
    ensures HeaderOf(NAME_SELECT, None) == Ok(Header(Target("db", "c"), NAME_SCOPE))
    ensures !NamesAgree(NAME_SCOPE, NAME_SELECT.having.value)
    ensures Answer(NAME_SCOPE, NAME_SELECT, [FIVE]) == [map["y" := Num(5.0), "x" := Num(1.0)]]
    ensures var h := Header(Target("db", "c"), NAME_SCOPE);
            && (t == [Agg(Count, None)] ==> Assemble(h, NAME_SELECT, t, mongoMatch).Ok?)
            && (Assemble(h, NAME_SELECT, t, mongoMatch).Ok? ==>
                  Execute(Assemble(h, NAME_SELECT, t, mongoMatch).value, [FIVE]) == [])
  {
    hide Assemble; hide Answer; hide HeaderOf; hide Execute; hide Mentioned;
    NameHeader();
    NameAnswer();
    NameResolved();
    NameAssembles(mongoMatch);
    forall i | 0 <= i < |t| ensures t[i] == Agg(Count, None) { NameMentions(t[i]); }
    if Assemble(Header(Target("db", "c"), NAME_SCOPE), NAME_SELECT, t, mongoMatch).Ok? { NameRun(t, mongoMatch); }
  }
}
