/** Translating names, literals, values and search conditions, and why three-valued logic survives it. */
module Predicate {
  import opened Values
  import opened Ordering
  import opened Sql
  import opened HavingNames
  import opened Mongo

  // ----- names and literals -----

  /** Every dot-separated part is non-empty and does not start with '$'. */
  predicate PartsOk(s: string) { s != [] && s[0] != '.' && s[0] != '$' && PartTailOk(s[1..]) }

  predicate PartTailOk(s: string) { s == [] || (if s[0] == '.' then PartsOk(s[1..]) else PartTailOk(s[1..])) }

  predicate GoodName(name: string) { PartsOk(name) && '\0' !in name }

  function Identifier(name: string): Result<string> { if GoodName(name) then Ok(name) else Rejected }

  const MAX_SAFE_INTEGER: real := 9007199254740991.0

  function Literal(e: Expr): Result<Value> {
    match e
    case NullLit => Ok(Null)
    case BoolLit(b) => Ok(Bool(b))
    case StrLit(s) => Ok(Str(s))
    case NumLit(n) =>
      if n.Floor as real == n && (n > MAX_SAFE_INTEGER || n < -MAX_SAFE_INTEGER) then Rejected else Ok(Num(n))
    case Neg(x) =>
      var v :- Literal(x);
      if v.Num? then Ok(Num(-v.n)) else Rejected
    case _ => Rejected
  }

  function Literals(es: seq<Expr>): (r: Result<seq<Value>>)
    ensures r.Ok? ==> |r.value| == |es|
  {
    if es == [] then Ok([])
    else
      var v :- Literal(es[0]);
      var vs :- Literals(es[1..]);
      Ok([v] + vs)
  }

  function ColumnName(sc: Scope, e: Expr): Result<string> {
    if !e.Column? || e.joinMark then Rejected
    else if e.table.Some? && e.table.value != sc.qualifier then Rejected
    else Identifier(e.name)
  }

  /** Ok(None) when the node is not a set function. */
  function Aggregation(sc: Scope, e: Expr): Result<Option<Agg>> {
    if !e.AggCall? then Ok(None)
    else if e.modified then Rejected
    else if e.kind == Count && e.star then Ok(Some(Agg(Count, None)))
    else if e.arg.None? then Rejected
    else
      var field :- ColumnName(sc, e.arg.value);
      Ok(Some(Agg(e.kind, Some(field))))
  }

  // ----- accumulator slots -----

  function KindName(k: AggKind): string {
    match k case Count => "count" case Sum => "sum" case Avg => "avg" case Min => "min" case Max => "max"
  }

  function FieldOrStar(a: Agg): string { match a.field case None => "*" case Some(f) => f }

  /** The key under which equal aggregates share a slot. */
  function Signature(a: Agg): string { KindName(a.kind) + ":" + FieldOrStar(a) }

  function Slot(i: nat): string { "a" + Dec(i) }
  function CountSlot(i: nat): string { "a" + Dec(i) + "n" }
  function GroupKeyName(i: nat): string { "g" + Dec(i) }

  type Table = seq<Agg>

  function SlotOf(t: Table, signature: string): (r: Option<nat>)
    ensures r.Some? ==> r.value < |t| && Signature(t[r.value]) == signature
    ensures r.Some? ==> forall i | 0 <= i < r.value :: Signature(t[i]) != signature
    ensures r.None? ==> forall i | 0 <= i < |t| :: Signature(t[i]) != signature
  {
    if t == [] then None
    else if Signature(t[0]) == signature then Some(0)
    else match SlotOf(t[1..], signature)
      case None => None
      case Some(i) => Some(i + 1)
  }

  function NonNull(e: MExpr): MExpr { Cmp(Neq, IfNull(e, Lit(Null)), Lit(Null)) }

  /** SUM of no value is null in SQL but 0 for `$sum`, so a second slot counts the values. */
  function Reference(kind: AggKind, i: nat): MExpr {
    if kind == Sum then Cond(Cmp(Gt, Field(CountSlot(i)), Lit(Num(0.0))), Field(Slot(i)), Lit(Null)) else Field(Slot(i))
  }

  /** A grouping column or a set function, read from a group document whose slots are those of table `t`. */
  function GroupRef(sc: Scope, t: Table, e: Expr): Result<MExpr> {
    var agg :- Aggregation(sc, e);
    if agg.Some? then
      match SlotOf(t, Signature(agg.value))
      case Some(i) => Ok(Reference(agg.value.kind, i))
      case None => Rejected
    else
      var field :- ColumnName(sc, e);
      match IndexOf(sc.groups, field)
      case Some(i) => Ok(IdField(GroupKeyName(i)))
      case None => Rejected
  }

  // ----- values and search conditions -----

  function ValueExpr(sc: Scope, t: Table, e: Expr, afterGroup: bool): Result<MExpr> {
    if e.Column? || e.AggCall? then
      if afterGroup then GroupRef(sc, t, Resolve(sc, e))
      else
        var field :- ColumnName(sc, e);
        Ok(Field(field))
    else
      var v :- Literal(e);
      Ok(Lit(v))
  }

  function Inverse(op: CmpOp): CmpOp {
    match op case Eq => Neq case Neq => Eq case Gt => Lte case Gte => Lt case Lt => Gte case Lte => Gt
  }

  function WithoutNulls(vs: seq<Value>): seq<Value> {
    if vs == [] then [] else (if vs[0].Null? then [] else [vs[0]]) + WithoutNulls(vs[1..])
  }

  function Pred(sc: Scope, t: Table, e: Expr, afterGroup: bool, negated: bool): Result<MExpr> {
    match e
    case Paren(x) => Pred(sc, t, x, afterGroup, negated)
    case Not(x) => Pred(sc, t, x, afterGroup, !negated)
    case And(l, r) =>
      var a :- Pred(sc, t, l, afterGroup, negated);
      var b :- Pred(sc, t, r, afterGroup, negated);
      Ok(if negated then OrE([a, b]) else AndE([a, b]))
    case Or(l, r) =>
      var a :- Pred(sc, t, l, afterGroup, negated);
      var b :- Pred(sc, t, r, afterGroup, negated);
      Ok(if negated then AndE([a, b]) else OrE([a, b]))
    case IsNull(x, neg) =>
      var v :- ValueExpr(sc, t, x, afterGroup);
      Ok(Cmp(if neg != negated then Neq else Eq, IfNull(v, Lit(Null)), Lit(Null)))
    case InList(x, list, neg, subquery) =>
      if subquery || list == [] then Rejected
      else
        var vs :- Literals(list);
        var invert := neg != negated;
        if invert && Null in vs then Ok(Lit(Bool(false)))
        else
          var ref :- ValueExpr(sc, t, x, afterGroup);
          var membership := InLit(ref, WithoutNulls(vs));
          Ok(AndE([NonNull(ref), if invert then NotE(membership) else membership]))
    case Compare(op, l, r) =>
      var a :- ValueExpr(sc, t, l, afterGroup);
      var b :- ValueExpr(sc, t, r, afterGroup);
      Ok(AndE([NonNull(a), NonNull(b), Cmp(if negated then Inverse(op) else op, a, b)]))
    case _ => Rejected
  }

  // ----- meaning -----

  function OrNull(v: Option<Value>): Value { match v case None => Null case Some(x) => x }

  /** SUM and AVG are defined on numeric columns only (SQL-92 6.5), MIN and MAX on scalars. */
  ghost predicate AggFits(a: Agg, docs: seq<Doc>) {
    a.field.Some? ==>
      && (a.kind == AggKind.Sum || a.kind == Avg ==> NumericField(a.field.value, docs))
      && (a.kind == Min || a.kind == Max ==> ScalarField(a.field.value, docs))
  }

  ghost predicate TableFits(t: Table, docs: seq<Doc>) { forall i | 0 <= i < |t| :: AggFits(t[i], docs) }

  lemma AggFitsFrom(a: Agg, docs: seq<Doc>, some: seq<Doc>)
    requires AggFits(a, docs) && From(some, docs)
    ensures AggFits(a, some)
  {
    if a.field.Some? {
      forall i | 0 <= i < |some| ensures exists j :: 0 <= j < |docs| && docs[j] == some[i] { assert some[i] in docs; }
    }
  }

  lemma TableFitsFrom(t: Table, docs: seq<Doc>, some: seq<Doc>)
    requires TableFits(t, docs) && From(some, docs)
    ensures TableFits(t, some)
  {
    forall i | 0 <= i < |t| ensures AggFits(t[i], some) { AggFitsFrom(t[i], docs, some); }
  }

  /** The count of a column literally named `*`, which gets the signature of COUNT(*). */
  predicate StarNamed(a: Agg) { a == Agg(Count, Some("*")) }

  /** A slot with the aggregate's signature holds that very aggregate. */
  predicate Owns(t: Table, a: Agg) { forall i | 0 <= i < |t| && Signature(t[i]) == Signature(a) :: t[i] == a }

  /** No aggregate of `e` shares a slot with another one. */
  predicate Fits(t: Table, e: Expr) {
    match e
    case AggCall(_, _, _, _) => Owns(t, AggOf(e))
    case Paren(x) => Fits(t, x)
    case Not(x) => Fits(t, x)
    case And(l, r) => Fits(t, l) && Fits(t, r)
    case Or(l, r) => Fits(t, l) && Fits(t, r)
    case IsNull(x, _) => Fits(t, x)
    case InList(x, _, _, _) => Fits(t, x)
    case Compare(_, l, r) => Fits(t, l) && Fits(t, r)
    case _ => true
  }

  ghost predicate FitsOutputs(t: Table, sc: Scope) { forall i | 0 <= i < |sc.outputs| :: Fits(t, sc.outputs[i].source) }

  ghost predicate SoundTable(t: Table) {
    forall i | 0 <= i < |t| :: t[i].field.None? ==> t[i].kind == Count
  }

  lemma SignatureInjective(a: Agg, b: Agg)
    requires Signature(a) == Signature(b)
    ensures a.kind == b.kind && FieldOrStar(a) == FieldOrStar(b)
  {
    var s, t := Signature(a), Signature(b);
    var m, n := |KindName(a.kind)|, |KindName(b.kind)|;
    assert s[m] == ':' && t[n] == ':';
    assert forall i | 0 <= i < m :: s[i] == KindName(a.kind)[i];
    assert forall i | 0 <= i < n :: t[i] == KindName(b.kind)[i];
    assert m == n;
    assert s[0] == t[0] && s[1] == t[1] && s[2] == t[2];
    assert s[m + 1..] == FieldOrStar(a) && t[n + 1..] == FieldOrStar(b);
  }

  /** Two aggregates share a slot exactly when they are the same, or one is COUNT(*) and the other counts a column named `*`. */
  lemma SharedSlotIff(a: Agg, b: Agg)
    requires a.field.None? ==> a.kind == Count
    requires b.field.None? ==> b.kind == Count
    ensures Signature(a) == Signature(b) <==>
            (a == b || (StarNamed(a) && b.field.None?) || (StarNamed(b) && a.field.None?))
  {
    if Signature(a) == Signature(b) { SignatureInjective(a, b); }
  }

  /** A HAVING name that is also a grouping column reads that column's value. */
  lemma NameDenotes(sc: Scope, t: Table, e: Expr, key: Key, rows: seq<Doc>)
    requires IsGroup(sc, key, rows) && TableFits(t, rows) && e.Column? && e.name in sc.groups
    requires NamesAgree(sc, e) && Fits(t, Resolve(sc, e)) && GroupRef(sc, t, Resolve(sc, e)).Ok?
    ensures GroupTerm(sc, Resolve(sc, e), key, rows) == SqlValue(sc, e, Group(key, rows))
  {
    var source := Resolve(sc, e);
    if source.AggCall? && source.kind == Avg {
      var i := SlotOf(t, Signature(AggOf(source))).value;
      assert t[i] == AggOf(source);
    }
    SameSourceValue(sc, e.name, source, key, rows);
  }

  /** Document `d` presents the group (key, rows): its `_id` fields and every slot of the table. */
  ghost predicate Presents(sc: Scope, t: Table, d: Doc, key: Key, rows: seq<Doc>) {
    && |key| == |sc.groups|
    && (forall i | 0 <= i < |key| :: Eval(IdField(GroupKeyName(i)), d, map[]) == Some(key[i]))
    && (forall i | 0 <= i < |t| :: Eval(Reference(t[i].kind, i), d, map[]) == Some(AggValue(t[i], rows)))
  }

  /** What the database document `d` has to do with the SQL row or group `env`. */
  ghost predicate Denotes(sc: Scope, t: Table, afterGroup: bool, env: Env, d: Doc) {
    match env
    case Row(x) => !afterGroup && x == d
    case Group(key, rows) =>
      && afterGroup && Presents(sc, t, d, key, rows) && SoundTable(t) && FitsOutputs(t, sc)
      && IsGroup(sc, key, rows) && TableFits(t, rows) && ScalarKey(key)
  }

  lemma {:induction false} PresentScalar(f: string, rows: seq<Doc>)
    requires ScalarField(f, rows)
    ensures forall i | 0 <= i < |Present(f, rows)| :: Scalar(Present(f, rows)[i])
  {
    if rows != [] {
      assert Scalar(Read(rows[0], f));
      PresentScalar(f, rows[1..]);
    }
  }

  lemma {:induction false} ExtremesScalar(vs: seq<Value>)
    requires forall i | 0 <= i < |vs| :: Scalar(vs[i])
    ensures Scalar(Least(vs)) && Scalar(Greatest(vs))
  {
    if vs != [] { ExtremesScalar(vs[1..]); }
  }

  lemma AggScalar(a: Agg, rows: seq<Doc>)
    requires AggFits(a, rows)
    ensures Scalar(AggValue(a, rows))
  {
    if a.field.Some? && (a.kind == Min || a.kind == Max) {
      PresentScalar(a.field.value, rows);
      ExtremesScalar(Present(a.field.value, rows));
    }
  }

  /** A group term reads the group's own value from the document. */
  lemma GroupRefDenotes(sc: Scope, t: Table, e: Expr, key: Key, rows: seq<Doc>, d: Doc)
    requires Presents(sc, t, d, key, rows) && SoundTable(t) && Fits(t, e) && TableFits(t, rows) && ScalarKey(key)
    requires GroupRef(sc, t, e).Ok?
    ensures Eval(GroupRef(sc, t, e).value, d, map[]) == Some(GroupTerm(sc, e, key, rows))
    ensures Scalar(GroupTerm(sc, e, key, rows))
  {
    if e.AggCall? {
      var a := Aggregation(sc, e).value.value;
      var i := SlotOf(t, Signature(a)).value;
      assert a == AggOf(e);
      assert t[i] == a;
      AggScalar(a, rows);
    }
  }

  lemma {:induction false} FindOutputFits(t: Table, outputs: seq<Output>, name: string)
    requires forall i | 0 <= i < |outputs| :: Fits(t, outputs[i].source)
    ensures FindOutput(outputs, name).Some? ==> Fits(t, FindOutput(outputs, name).value)
  {
    if outputs != [] { FindOutputFits(t, outputs[1..], name); }
  }

  lemma {:induction false} LiteralDenotes(e: Expr)
    requires Literal(e).Ok?
    ensures Literal(e).value == LitValue(e) && Scalar(LitValue(e))
  {
    if e.Neg? { LiteralDenotes(e.e); }
  }

  lemma {:induction false} LiteralsDenote(es: seq<Expr>)
    requires Literals(es).Ok?
    ensures Literals(es).value == LitValues(es)
  {
    if es != [] { LiteralDenotes(es[0]); LiteralsDenote(es[1..]); }
  }

  lemma ValueDenotes(sc: Scope, t: Table, e: Expr, afterGroup: bool, env: Env, d: Doc)
    requires Denotes(sc, t, afterGroup, env, d) && (afterGroup ==> Fits(t, e) && NamesAgree(sc, e))
    requires ValueExpr(sc, t, e, afterGroup).Ok?
    ensures OrNull(Eval(ValueExpr(sc, t, e, afterGroup).value, d, map[])) == SqlValue(sc, e, env)
    ensures env.Group? ==> Scalar(SqlValue(sc, e, env))
  {
    if e.Column? || e.AggCall? {
      if env.Group? {
        if e.Column? { FindOutputFits(t, sc.outputs, e.name); }
        GroupRefDenotes(sc, t, Resolve(sc, e), env.key, env.rows, d);
        if e.Column? && e.name in sc.groups { NameDenotes(sc, t, e, env.key, env.rows); }
      }
    } else {
      LiteralDenotes(e);
    }
  }

  lemma {:induction false} InDenotes(v: Value, ws: seq<Value>)
    requires !v.Null?
    ensures In3(v, ws) == True <==> v in WithoutNulls(ws)
    ensures In3(v, ws) == False <==> v !in WithoutNulls(ws) && Null !in ws
  {
    if ws != [] {
      assert ws == [ws[0]] + ws[1..];
      InDenotes(v, ws[1..]);
    }
  }

  lemma {:induction false} InOfNull(ws: seq<Value>)
    requires ws != []
    ensures In3(Null, ws) == Unknown
  {
    if |ws| > 1 { InOfNull(ws[1..]); }
  }

  /** On operands that are not two arrays or two objects `$gt` and the others agree with SQL's comparisons, and the inverse operator with their negation. */
  lemma ComparisonDenotes(op: CmpOp, a: Value, b: Value)
    requires op == Eq || op == Neq || Comparable(a, b)
    ensures CmpHolds(op, Some(a), Some(b)) == Holds(op, a, b)
    ensures CmpHolds(Inverse(op), Some(a), Some(b)) == !Holds(op, a, b)
  {
    if Comparable(a, b) { Trichotomy(a, b); }
  }

  lemma ConsTrue(a: MExpr, es: seq<MExpr>, d: Doc, vars: Doc)
    ensures AllTrue([a] + es, d, vars) <==> Truthy(Eval(a, d, vars)) && AllTrue(es, d, vars)
    ensures AnyTrue([a] + es, d, vars) <==> Truthy(Eval(a, d, vars)) || AnyTrue(es, d, vars)
  {
    assert ([a] + es)[1..] == es;
  }

  lemma PairOf(a: MExpr, b: MExpr, d: Doc, vars: Doc)
    ensures Truthy(Eval(AndE([a, b]), d, vars)) <==> Truthy(Eval(a, d, vars)) && Truthy(Eval(b, d, vars))
    ensures Truthy(Eval(OrE([a, b]), d, vars)) <==> Truthy(Eval(a, d, vars)) || Truthy(Eval(b, d, vars))
  {
    ConsTrue(b, [], d, vars);
    ConsTrue(a, [b], d, vars);
    assert [a] + [b] == [a, b] && [b] + [] == [b];
  }

  lemma ConjunctionOf3(a: MExpr, b: MExpr, c: MExpr, d: Doc, vars: Doc)
    ensures Truthy(Eval(AndE([a, b, c]), d, vars)) <==>
            Truthy(Eval(a, d, vars)) && Truthy(Eval(b, d, vars)) && Truthy(Eval(c, d, vars))
  {
    PairOf(b, c, d, vars);
    ConsTrue(a, [b, c], d, vars);
    assert [a] + [b, c] == [a, b, c];
  }

  lemma NonNullDenotes(e: MExpr, d: Doc, vars: Doc)
    ensures Truthy(Eval(NonNull(e), d, vars)) <==> !OrNull(Eval(e, d, vars)).Null?
  {
  }

  lemma MembershipDenotes(ref: MExpr, ws: seq<Value>, invert: bool, d: Doc, v: Value)
    requires OrNull(Eval(ref, d, map[])) == v
    requires ws != [] && !(invert && Null in ws)
    ensures Truthy(Eval(AndE([NonNull(ref), if invert then NotE(InLit(ref, WithoutNulls(ws))) else InLit(ref, WithoutNulls(ws))]), d, map[]))
            <==> In3(v, ws) == if invert then False else True
  {
    var membership := InLit(ref, WithoutNulls(ws));
    PairOf(NonNull(ref), if invert then NotE(membership) else membership, d, map[]);
    NonNullDenotes(ref, d, map[]);
    if v.Null? { InOfNull(ws); } else { InDenotes(v, ws); }
  }

  lemma InListDenotes(sc: Scope, t: Table, e: Expr, afterGroup: bool, negated: bool, env: Env, d: Doc)
    requires Denotes(sc, t, afterGroup, env, d) && (afterGroup ==> Fits(t, e) && NamesAgree(sc, e)) && e.InList?
    requires Pred(sc, t, e, afterGroup, negated).Ok?
    ensures Truthy(Eval(Pred(sc, t, e, afterGroup, negated).value, d, map[])) <==>
            SqlTruth(sc, e, env) == if negated then False else True
  {
    LiteralsDenote(e.list);
    var v, ws, invert := SqlValue(sc, e.e, env), LitValues(e.list), e.neg != negated;
    if invert && Null in ws {
      if v.Null? { InOfNull(ws); } else { InDenotes(v, ws); }
    } else {
      ValueDenotes(sc, t, e.e, afterGroup, env, d);
      MembershipDenotes(ValueExpr(sc, t, e.e, afterGroup).value, ws, invert, d, v);
    }
  }

  lemma ComparedDenotes(op: CmpOp, negated: bool, a: MExpr, b: MExpr, d: Doc, v: Value, w: Value)
    requires OrNull(Eval(a, d, map[])) == v && OrNull(Eval(b, d, map[])) == w
    requires op == Eq || op == Neq || Comparable(v, w)
    ensures Truthy(Eval(AndE([NonNull(a), NonNull(b), Cmp(if negated then Inverse(op) else op, a, b)]), d, map[]))
            <==> Compare3(op, v, w) == if negated then False else True
  {
    ConjunctionOf3(NonNull(a), NonNull(b), Cmp(if negated then Inverse(op) else op, a, b), d, map[]);
    NonNullDenotes(a, d, map[]);
    NonNullDenotes(b, d, map[]);
    ComparisonDenotes(op, v, w);
  }

  lemma IsNullDenotes(sc: Scope, t: Table, e: Expr, afterGroup: bool, negated: bool, env: Env, d: Doc)
    requires Denotes(sc, t, afterGroup, env, d) && (afterGroup ==> Fits(t, e) && NamesAgree(sc, e)) && e.IsNull?
    requires Pred(sc, t, e, afterGroup, negated).Ok?
    ensures Truthy(Eval(Pred(sc, t, e, afterGroup, negated).value, d, map[])) <==>
            SqlTruth(sc, e, env) == if negated then False else True
  {
    hide ValueExpr; hide Denotes; hide SqlValue;
    ValueDenotes(sc, t, e.e, afterGroup, env, d);
  }

  /** No order comparison of `e` has two arrays or two objects as its operands. */
  predicate Comparables(sc: Scope, e: Expr, env: Env) {
    match e
    case Paren(x) => Comparables(sc, x, env)
    case Not(x) => Comparables(sc, x, env)
    case And(l, r) => Comparables(sc, l, env) && Comparables(sc, r, env)
    case Or(l, r) => Comparables(sc, l, env) && Comparables(sc, r, env)
    case Compare(op, l, r) => op == Eq || op == Neq || Comparable(SqlValue(sc, l, env), SqlValue(sc, r, env))
    case _ => true
  }

  lemma CompareDenotes(sc: Scope, t: Table, e: Expr, afterGroup: bool, negated: bool, env: Env, d: Doc)
    requires Denotes(sc, t, afterGroup, env, d) && (afterGroup ==> Fits(t, e) && NamesAgree(sc, e)) && e.Compare?
    requires !afterGroup ==> Comparables(sc, e, env)
    requires Pred(sc, t, e, afterGroup, negated).Ok?
    ensures Truthy(Eval(Pred(sc, t, e, afterGroup, negated).value, d, map[])) <==>
            SqlTruth(sc, e, env) == if negated then False else True
  {
    ValueDenotes(sc, t, e.l, afterGroup, env, d);
    ValueDenotes(sc, t, e.r, afterGroup, env, d);
    ComparedDenotes(e.op, negated, ValueExpr(sc, t, e.l, afterGroup).value, ValueExpr(sc, t, e.r, afterGroup).value, d,
                    SqlValue(sc, e.l, env), SqlValue(sc, e.r, env));
  }

  /**
   * Negation is pushed to the leaves through three-valued logic: compiled plain, a condition holds exactly of the
   * rows on which SQL says TRUE; compiled negated, exactly of those on which SQL says FALSE. Unknown satisfies neither.
   */
  lemma {:induction false} PredDenotes(sc: Scope, t: Table, e: Expr, afterGroup: bool, negated: bool, env: Env, d: Doc)
    requires Denotes(sc, t, afterGroup, env, d)
    requires if afterGroup then Fits(t, e) && NamesAgree(sc, e) else Comparables(sc, e, env)
    requires Pred(sc, t, e, afterGroup, negated).Ok?
    ensures Truthy(Eval(Pred(sc, t, e, afterGroup, negated).value, d, map[])) <==>
            SqlTruth(sc, e, env) == if negated then False else True
  {
    hide ValueExpr; hide SqlValue; hide Literals; hide LitValues; hide WithoutNulls; hide NonNull; hide Inverse; hide Denotes;
    hide Comparable; hide In3; hide Compare3; hide ListContains3; hide Resolve;
    match e
    case Paren(x) => PredDenotes(sc, t, x, afterGroup, negated, env, d);
    case Not(x) => PredDenotes(sc, t, x, afterGroup, !negated, env, d);
    case And(l, r) =>
      PredDenotes(sc, t, l, afterGroup, negated, env, d);
      PredDenotes(sc, t, r, afterGroup, negated, env, d);
      PairOf(Pred(sc, t, l, afterGroup, negated).value, Pred(sc, t, r, afterGroup, negated).value, d, map[]);
    case Or(l, r) =>
      PredDenotes(sc, t, l, afterGroup, negated, env, d);
      PredDenotes(sc, t, r, afterGroup, negated, env, d);
      PairOf(Pred(sc, t, l, afterGroup, negated).value, Pred(sc, t, r, afterGroup, negated).value, d, map[]);
    case IsNull(_, _) => IsNullDenotes(sc, t, e, afterGroup, negated, env, d);
    case InList(_, _, _, _) => InListDenotes(sc, t, e, afterGroup, negated, env, d);
    case Compare(_, _, _) => CompareDenotes(sc, t, e, afterGroup, negated, env, d);
    case _ =>
  }
}
