/** Names in HAVING: the translator asks the outputs first, SQL the grouping columns, and when the two agree. */
module HavingNames {
  import opened Values
  import opened Ordering
  import opened Sql

  /** A group as grouping makes them: its rows have its key, and only the group of everything can be without rows. */
  ghost predicate IsGroup(sc: Scope, key: Key, rows: seq<Doc>) {
    && |key| == |sc.groups| && (sc.groups != [] ==> rows != [])
    && forall i | 0 <= i < |rows| :: KeyOf(sc.groups, rows[i]) == key
  }

  /** In every group `source` is worth the grouping column `name`: it is that column or its MIN, MAX or AVG. */
  predicate SameSource(name: string, source: Expr) {
    || (source.Column? && source.name == name)
    || (source.AggCall? && AggOf(source).field == Some(name) && (source.kind == Min || source.kind == Max || source.kind == Avg))
  }

  /** Each name of a HAVING condition that is a grouping column and also an output name has a source worth the column. */
  predicate NamesAgree(sc: Scope, e: Expr) {
    match e
    case Column(_, name, _) => name in sc.groups ==> SameSource(name, Resolve(sc, e))
    case Paren(x) => NamesAgree(sc, x)
    case Not(x) => NamesAgree(sc, x)
    case And(l, r) => NamesAgree(sc, l) && NamesAgree(sc, r)
    case Or(l, r) => NamesAgree(sc, l) && NamesAgree(sc, r)
    case IsNull(x, _) => NamesAgree(sc, x)
    case InList(x, _, _, _) => NamesAgree(sc, x)
    case Compare(_, l, r) => NamesAgree(sc, l) && NamesAgree(sc, r)
    case _ => true
  }

  lemma {:induction false} KeyAt(groups: seq<string>, d: Doc, i: nat)
    requires i < |groups|
    ensures KeyOf(groups, d)[i] == Read(d, groups[i])
  {
    if i > 0 { KeyAt(groups[1..], d, i - 1); }
  }

  ghost predicate AllAre(vs: seq<Value>, v: Value) { forall i | 0 <= i < |vs| :: vs[i] == v }

  lemma {:induction false} PresentConstant(f: string, rows: seq<Doc>, v: Value)
    requires forall i | 0 <= i < |rows| :: Read(rows[i], f) == v
    ensures AllAre(Present(f, rows), v) && |Present(f, rows)| == if v.Null? then 0 else |rows|
  {
    if rows != [] { PresentConstant(f, rows[1..], v); }
  }

  lemma {:induction false} ExtremesConstant(vs: seq<Value>, v: Value)
    requires vs != [] && AllAre(vs, v)
    ensures Least(vs) == v && Greatest(vs) == v
  {
    if |vs| > 1 { ExtremesConstant(vs[1..], v); }
  }

  lemma {:induction false} TotalConstant(vs: seq<Value>, x: real)
    requires AllAre(vs, Num(x))
    ensures Total(vs) == |vs| as real * x
  {
    if vs != [] {
      TotalConstant(vs[1..], x);
      assert |vs[1..]| as real == |vs| as real - 1.0;
    }
  }

  lemma Quotient(p: real, n: real, x: real)
    requires n != 0.0 && p == n * x
    ensures p / n == x
  {
  }

  lemma MeanConstant(vs: seq<Value>, x: real)
    requires vs != [] && AllAre(vs, Num(x))
    ensures Total(vs) / |vs| as real == x
  {
    TotalConstant(vs, x);
    Quotient(Total(vs), |vs| as real, x);
  }

  ghost predicate NumericField(f: string, docs: seq<Doc>) {
    forall i | 0 <= i < |docs| :: Read(docs[i], f).Null? || Read(docs[i], f).Num?
  }

  /** On a group the sources of `SameSource` are worth the group's own key value. */
  lemma SameSourceValue(sc: Scope, name: string, source: Expr, key: Key, rows: seq<Doc>)
    requires IsGroup(sc, key, rows) && name in sc.groups && SameSource(name, source)
    requires source.AggCall? && source.kind == Avg ==> NumericField(name, rows)
    ensures GroupTerm(sc, source, key, rows) == key[IndexOf(sc.groups, name).value]
  {
    if source.AggCall? {
      var i := IndexOf(sc.groups, name).value;
      forall j | 0 <= j < |rows| ensures Read(rows[j], name) == key[i] {
        KeyAt(sc.groups, rows[j], i);
        assert KeyOf(sc.groups, rows[j]) == key;
      }
      var vs := Present(name, rows);
      PresentConstant(name, rows, key[i]);
      if !key[i].Null? {
        ExtremesConstant(vs, key[i]);
        if source.kind == Avg {
          assert Read(rows[0], name) == key[i];
          MeanConstant(vs, key[i].n);
        }
      }
    }
  }

  /** SUM and AVG apply to numbers only. */
  ghost predicate Numeric(source: Expr, rows: seq<Doc>) {
    source.AggCall? && (source.kind == AggKind.Sum || source.kind == Avg) && AggOf(source).field.Some? ==>
      NumericField(AggOf(source).field.value, rows)
  }

  /** The translator's reading of a HAVING name has SQL's value in every group exactly when the sources agree. */
  lemma HavingNameIff(sc: Scope, e: Expr)
    requires e.Column? && e.name in sc.groups
    ensures (forall key, rows | IsGroup(sc, key, rows) && Numeric(Resolve(sc, e), rows) ::
               GroupTerm(sc, Resolve(sc, e), key, rows) == SqlValue(sc, e, Group(key, rows)))
            <==> SameSource(e.name, Resolve(sc, e))
  {
    var source := Resolve(sc, e);
    if SameSource(e.name, source) {
      forall key, rows | IsGroup(sc, key, rows) && Numeric(source, rows)
        ensures GroupTerm(sc, source, key, rows) == SqlValue(sc, e, Group(key, rows))
      {
        SameSourceValue(sc, e.name, source, key, rows);
      }
    } else {
      var key, rows := OtherSourceDiffers(sc, e.name, source);
      assert GroupTerm(sc, source, key, rows) != SqlValue(sc, e, Group(key, rows));
    }
  }

  /** A group whose rows hold 7 in the column and nothing else: no other source is worth 7 in it. */
  lemma OtherSourceDiffers(sc: Scope, name: string, source: Expr) returns (key: Key, rows: seq<Doc>)
    requires name in sc.groups && !SameSource(name, source)
    ensures IsGroup(sc, key, rows) && Numeric(source, rows)
    ensures GroupTerm(sc, source, key, rows) != key[IndexOf(sc.groups, name).value]
  {
    var d: Doc := map[name := Num(7.0)];
    rows := if source.AggCall? && source.kind == AggKind.Sum then [d, d] else [d];
    key := KeyOf(sc.groups, d);
    KeyAt(sc.groups, d, IndexOf(sc.groups, name).value);
    if source.Column? {
      if IndexOf(sc.groups, source.name).Some? { KeyAt(sc.groups, d, IndexOf(sc.groups, source.name).value); }
    } else if source.AggCall? && AggOf(source).field.Some? {
      SevensPresent(AggOf(source).field.value, name, d);
    }
  }

  lemma SevensPresent(f: string, name: string, d: Doc)
    requires d == map[name := Num(7.0)]
    ensures Present(f, [d]) == if f == name then [Num(7.0)] else []
    ensures Present(f, [d, d]) == if f == name then [Num(7.0), Num(7.0)] else []
    ensures Total([Num(7.0), Num(7.0)]) == 14.0
  {
    assert [d, d][1..] == [d] && [d][1..] == [];
    assert Present(f, [d]) == (if Read(d, f).Null? then [] else [Read(d, f)]) + Present(f, []);
    assert [Num(7.0), Num(7.0)][1..] == [Num(7.0)] && [Num(7.0)][1..] == [];
  }
}
