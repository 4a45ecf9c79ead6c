/** The aggregates a SELECT mentions, and what must hold of documents for its translation to return the SQL answer. */
module Mentions {
  import opened Values
  import opened Ordering
  import opened Sql
  import opened Mongo
  import opened HavingNames
  import opened Predicate
  import opened Grouping
  import opened OrderSpec
  import opened SelectQuery
  import opened SelectCorrect

  predicate OccursIn(a: Agg, e: Expr) {
    match e
    case AggCall(_, _, _, _) => AggOf(e) == a
    case Paren(x) => OccursIn(a, x)
    case Not(x) => OccursIn(a, x)
    case And(l, r) => OccursIn(a, l) || OccursIn(a, r)
    case Or(l, r) => OccursIn(a, l) || OccursIn(a, r)
    case IsNull(x, _) => OccursIn(a, x)
    case InList(x, _, _, _) => OccursIn(a, x)
    case Compare(_, l, r) => OccursIn(a, l) || OccursIn(a, r)
    case _ => false
  }

  ghost predicate Mentioned(a: Agg, sel: Select) {
    || (exists i | 0 <= i < |sel.items| :: OccursIn(a, sel.items[i].expr))
    || (exists i | 0 <= i < |sel.orderBy| :: OccursIn(a, sel.orderBy[i].expr))
    || (sel.having.Some? && OccursIn(a, sel.having.value))
  }

  ghost predicate Within(e: Expr, sel: Select) { forall a | OccursIn(a, e) :: Mentioned(a, sel) }

  /** The columns under SUM and AVG are numeric, those under MIN and MAX scalar. */
  ghost predicate AggregatesFit(sel: Select, docs: seq<Doc>) { forall a | Mentioned(a, sel) :: AggFits(a, docs) }

  lemma {:induction false} OccurrenceSound(a: Agg, e: Expr)
    requires OccursIn(a, e)
    ensures a.field.None? ==> a.kind == Count
  {
    match e
    case Paren(x) => OccurrenceSound(a, x);
    case Not(x) => OccurrenceSound(a, x);
    case And(l, r) => if OccursIn(a, l) { OccurrenceSound(a, l); } else { OccurrenceSound(a, r); }
    case Or(l, r) => if OccursIn(a, l) { OccurrenceSound(a, l); } else { OccurrenceSound(a, r); }
    case IsNull(x, _) => OccurrenceSound(a, x);
    case InList(x, _, _, _) => OccurrenceSound(a, x);
    case Compare(_, l, r) => if OccursIn(a, l) { OccurrenceSound(a, l); } else { OccurrenceSound(a, r); }
    case _ =>
  }

  lemma MentionedSound(a: Agg, sel: Select)
    requires Mentioned(a, sel)
    ensures a.field.None? ==> a.kind == Count
  {
    if i :| 0 <= i < |sel.items| && OccursIn(a, sel.items[i].expr) { OccurrenceSound(a, sel.items[i].expr); }
    else if i :| 0 <= i < |sel.orderBy| && OccursIn(a, sel.orderBy[i].expr) { OccurrenceSound(a, sel.orderBy[i].expr); }
    else { OccurrenceSound(a, sel.having.value); }
  }

  /** The SELECT does not count both its rows and a column literally named `*`. */
  ghost predicate Unclashed(sel: Select) { !(Mentioned(Agg(Count, None), sel) && Mentioned(Agg(Count, Some("*")), sel)) }

  /** That is all that can go wrong with signatures: no two different aggregates of the SELECT share one. */
  lemma UnclashedIff(sel: Select)
    ensures Unclashed(sel) <==>
            forall a, b | Mentioned(a, sel) && Mentioned(b, sel) && Signature(a) == Signature(b) :: a == b
  {
    forall a, b | Unclashed(sel) && Mentioned(a, sel) && Mentioned(b, sel) && Signature(a) == Signature(b) ensures a == b {
      MentionedSound(a, sel);
      MentionedSound(b, sel);
      SharedSlotIff(a, b);
    }
    assert Signature(Agg(Count, None)) == Signature(Agg(Count, Some("*")));
  }

  /** What a caller can check before the call: documents that fit, columns that fit their aggregates, and none of the clashes. */
  ghost predicate Eligible(sc: Scope, sel: Select, mongoMatch: bool, docs: seq<Doc>) {
    && DocumentsFit(sc, sel, mongoMatch, docs) && AggregatesFit(sel, docs)
    && Unclashed(sel) && (sel.having.Some? ==> NamesAgree(sc, sel.having.value)) && OrderFaithful(sc, sel)
  }

  /** On flat documents only the columns under SUM and AVG remain to be looked at. */
  lemma FlatEligible(sc: Scope, sel: Select, mongoMatch: bool, docs: seq<Doc>)
    requires AllFlat(docs) && Unclashed(sel) && (sel.having.Some? ==> NamesAgree(sc, sel.having.value)) && OrderFaithful(sc, sel)
    requires forall a | Mentioned(a, sel) && (a.kind == AggKind.Sum || a.kind == Avg) && a.field.Some? :: NumericField(a.field.value, docs)
    ensures Eligible(sc, sel, mongoMatch, docs)
  {
    FlatFits(sc, sel, mongoMatch, docs);
    forall a | Mentioned(a, sel) ensures AggFits(a, docs) {
      if a.field.Some? { FlatFields([a.field.value], docs); assert ScalarField([a.field.value][0], docs); }
    }
  }

  lemma {:induction false} WithinFits(t: Table, e: Expr, sel: Select)
    requires Unclashed(sel) && Within(e, sel) && forall i | 0 <= i < |t| :: Mentioned(t[i], sel)
    ensures Fits(t, e)
  {
    UnclashedIff(sel);
    WithinParts(e, sel);
    match e
    case AggCall(_, _, _, _) => assert OccursIn(AggOf(e), e);
    case Paren(x) => WithinFits(t, x, sel);
    case Not(x) => WithinFits(t, x, sel);
    case And(l, r) => WithinFits(t, l, sel); WithinFits(t, r, sel);
    case Or(l, r) => WithinFits(t, l, sel); WithinFits(t, r, sel);
    case IsNull(x, _) => WithinFits(t, x, sel);
    case InList(x, _, _, _) => WithinFits(t, x, sel);
    case Compare(_, l, r) => WithinFits(t, l, sel); WithinFits(t, r, sel);
    case _ =>
  }

  lemma EligibleSupported(sc: Scope, sel: Select, t: Table, mongoMatch: bool, docs: seq<Doc>)
    requires Eligible(sc, sel, mongoMatch, docs)
    requires forall i | 0 <= i < |t| :: Mentioned(t[i], sel)
    requires |sc.outputs| == |sel.items| && forall i | 0 <= i < |sel.items| :: sc.outputs[i].source == sel.items[i].expr
    ensures Supported(sc, sel, t, mongoMatch, docs)
  {
    forall i | 0 <= i < |t| ensures t[i].field.None? ==> t[i].kind == Count { MentionedSound(t[i], sel); }
    forall i | 0 <= i < |sc.outputs| ensures Fits(t, sc.outputs[i].source) { WithinFits(t, sel.items[i].expr, sel); }
    forall i | 0 <= i < |sel.orderBy| ensures Fits(t, sel.orderBy[i].expr) { WithinFits(t, sel.orderBy[i].expr, sel); }
    if sel.having.Some? { WithinFits(t, sel.having.value, sel); }
  }

  lemma WithinParts(e: Expr, sel: Select)
    requires Within(e, sel)
    ensures e.Paren? || e.Not? || e.IsNull? || e.InList? ==> Within(e.e, sel)
    ensures e.And? || e.Or? || e.Compare? ==> Within(e.l, sel) && Within(e.r, sel)
  {
    if e.Paren? || e.Not? || e.IsNull? || e.InList? {
      forall a | OccursIn(a, e.e) ensures Mentioned(a, sel) { assert OccursIn(a, e); }
    }
    if e.And? || e.Or? || e.Compare? {
      forall a | OccursIn(a, e.l) || OccursIn(a, e.r) ensures Mentioned(a, sel) { assert OccursIn(a, e); }
    }
  }

  lemma TermWithin(sc: Scope, sel: Select, i: nat)
    requires i < |sel.orderBy| && forall i | 0 <= i < |sc.outputs| :: Within(sc.outputs[i].source, sel)
    ensures Within(Resolve(sc, sel.orderBy[i].expr), sel)
  {
    hide Resolve;
    assert Within(sel.orderBy[i].expr, sel);
    WithinResolved(sc, sel.orderBy[i].expr, sel);
  }

  lemma WithinResolved(sc: Scope, e: Expr, sel: Select)
    requires Within(e, sel) && forall i | 0 <= i < |sc.outputs| :: Within(sc.outputs[i].source, sel)
    ensures Within(Resolve(sc, e), sel)
  {
    if e.Column? && e.table.None? { FoundWithin(sc.outputs, e.name, sel); }
  }

  lemma {:induction false} FoundWithin(outputs: seq<Output>, name: string, sel: Select)
    requires forall i | 0 <= i < |outputs| :: Within(outputs[i].source, sel)
    ensures FindOutput(outputs, name).Some? ==> Within(FindOutput(outputs, name).value, sel)
  {
    if outputs != [] { FoundWithin(outputs[1..], name, sel); }
  }
}
