/** The `$group` stage: accumulator slots, defaults for empty input, and the groups they present. */
module Grouping {
  import opened Values
  import opened Ordering
  import opened Partition
  import opened Sql
  import opened Mongo
  import opened HavingNames
  import opened Predicate

  function OneOrZero(field: string): MExpr { Cond(NonNull(Field(field)), Lit(Num(1.0)), Lit(Num(0.0))) }

  /** The accumulators of slot `i`: one, and for SUM a second that counts the values. */
  function SlotAccs(a: Agg, i: nat): Accs {
    match a.field
    case None => [(Slot(i), SumA(Lit(Num(1.0))))]
    case Some(f) =>
      var value := IfNull(Field(f), Lit(Null));
      match a.kind
      case Count => [(Slot(i), SumA(OneOrZero(f)))]
      case Sum => [(Slot(i), SumA(value)), (CountSlot(i), SumA(OneOrZero(f)))]
      case Avg => [(Slot(i), AvgA(value))]
      case Min => [(Slot(i), MinA(value))]
      case Max => [(Slot(i), MaxA(value))]
  }

  function TableAccs(t: Table): Accs {
    if t == [] then [] else TableAccs(t[..|t| - 1]) + SlotAccs(t[|t| - 1], |t| - 1)
  }

  /** The document that stands for a group of no rows. */
  function SlotDefaults(a: Agg, i: nat, d: Doc): Doc {
    var e := d[Slot(i) := if a.kind == Count then Num(0.0) else Null];
    if a.kind == Sum then e[CountSlot(i) := Num(0.0)] else e
  }

  function Defaults(t: Table): Doc {
    if t == [] then map["_id" := Null] else SlotDefaults(t[|t| - 1], |t| - 1, Defaults(t[..|t| - 1]))
  }

  function GroupIds(groups: seq<string>, k: nat): (r: Ids)
    ensures |r| == |groups|
  {
    if groups == [] then []
    else [(GroupKeyName(k), IfNull(Field(groups[0]), Lit(Null)))] + GroupIds(groups[1..], k + 1)
  }

  // ----- slot names never collide -----

  lemma SlotsDistinct(i: nat, j: nat)
    ensures Slot(i) == Slot(j) ==> i == j
    ensures CountSlot(i) == CountSlot(j) ==> i == j
    ensures Slot(i) != CountSlot(j)
    ensures GroupKeyName(i) == GroupKeyName(j) ==> i == j
    ensures Slot(i) != "_id" && CountSlot(i) != "_id"
  {
    assert Slot(i)[1..] == Dec(i) && Slot(j)[1..] == Dec(j);
    assert CountSlot(i)[1..|CountSlot(i)| - 1] == Dec(i) && CountSlot(j)[1..|CountSlot(j)| - 1] == Dec(j);
    assert GroupKeyName(i)[1..] == Dec(i) && GroupKeyName(j)[1..] == Dec(j);
    if Dec(i) == Dec(j) { DecInjective(i, j); }
    var s, n := Slot(i), CountSlot(j);
    assert s[|s| - 1] == Dec(i)[|Dec(i)| - 1] && n[|n| - 1] == 'n';
    assert s[|s| - 1] in Dec(i);
    assert 'n' !in DIGITS;
    assert s[0] == 'a' && CountSlot(i)[0] == 'a' && "_id"[0] == '_';
  }

  // ----- what each accumulator computes -----

  lemma FieldOrNull(f: string, d: Doc, vars: Doc)
    ensures Eval(IfNull(Field(f), Lit(Null)), d, vars) == Some(Read(d, f))
  {
    assert Eval(Field(f), d, vars) == if f in d then Some(d[f]) else None;
    assert Eval(Lit(Null), d, vars) == Some(Null);
  }

  lemma OneOrZeroValue(f: string, d: Doc)
    ensures Eval(OneOrZero(f), d, map[]) == Some(Num(if Read(d, f).Null? then 0.0 else 1.0))
  {
    NonNullDenotes(Field(f), d, map[]);
    assert OrNull(Eval(Field(f), d, map[])) == Read(d, f);
    assert Eval(Lit(Num(1.0)), d, map[]) == Some(Num(1.0)) && Eval(Lit(Num(0.0)), d, map[]) == Some(Num(0.0));
  }

  lemma {:induction false} OperandsOfField(f: string, rows: seq<Doc>)
    ensures Operands(IfNull(Field(f), Lit(Null)), rows) == Present(f, rows)
  {
    if rows != [] {
      FieldOrNull(f, rows[0], map[]);
      OperandsOfField(f, rows[1..]);
    }
  }

  lemma {:induction false} CountsPresent(f: string, rows: seq<Doc>)
    ensures Numbers(Operands(OneOrZero(f), rows)) == Operands(OneOrZero(f), rows)
    ensures Total(Operands(OneOrZero(f), rows)) == |Present(f, rows)| as real
  {
    if rows != [] {
      CountsPresent(f, rows[1..]);
      OneOrZeroValue(f, rows[0]);
      var one := Num(if Read(rows[0], f).Null? then 0.0 else 1.0);
      var rest := Operands(OneOrZero(f), rows[1..]);
      assert Operands(OneOrZero(f), rows) == [one] + rest;
      assert ([one] + rest)[1..] == rest;
    }
  }

  lemma {:induction false} CountsRows(rows: seq<Doc>)
    ensures Numbers(Operands(Lit(Num(1.0)), rows)) == Operands(Lit(Num(1.0)), rows)
    ensures Total(Operands(Lit(Num(1.0)), rows)) == |rows| as real
  {
    if rows != [] {
      CountsRows(rows[1..]);
      var rest := Operands(Lit(Num(1.0)), rows[1..]);
      assert Operands(Lit(Num(1.0)), rows) == [Num(1.0)] + rest;
      assert ([Num(1.0)] + rest)[1..] == rest;
    }
  }

  lemma {:induction false} NumbersOfNumeric(f: string, rows: seq<Doc>)
    requires NumericField(f, rows)
    ensures Numbers(Present(f, rows)) == Present(f, rows)
  {
    if rows != [] {
      assert NumericField(f, rows[1..]);
      NumbersOfNumeric(f, rows[1..]);
      assert Read(rows[0], f).Null? || Read(rows[0], f).Num?;
    }
  }

  /** The value the main accumulator of a slot leaves, and for SUM the number of values. */
  function MainAcc(a: Agg): Acc { SlotAccs(a, 0)[0].1 }

  lemma MainAccValue(a: Agg, rows: seq<Doc>)
    requires a.field.None? ==> a.kind == Count
    requires AggFits(a, rows)
    ensures a.kind != AggKind.Sum ==> Accumulate(MainAcc(a), rows) == AggValue(a, rows)
    ensures a.kind == AggKind.Sum ==> Accumulate(MainAcc(a), rows) == Num(Total(Present(a.field.value, rows)))
  {
    match a.field
    case None => CountsRows(rows);
    case Some(f) =>
      OperandsOfField(f, rows);
      CountsPresent(f, rows);
      if a.kind == AggKind.Sum || a.kind == Avg { NumbersOfNumeric(f, rows); }
  }

  // ----- reading the slots -----

  lemma {:induction false} WithAccsAppend(base: Doc, p: Accs, q: Accs, rows: seq<Doc>)
    ensures WithAccs(base, p + q, rows) == WithAccs(WithAccs(base, p, rows), q, rows)
    decreases |q|
  {
    if q == [] {
      assert p + q == p;
    } else {
      var n := |q| - 1;
      assert (p + q)[..|p + q| - 1] == p + q[..n];
      WithAccsAppend(base, p, q[..n], rows);
    }
  }

  /** The slots of the last table entry are written last and nothing else changes. */
  lemma LastSlot(base: Doc, t: Table, rows: seq<Doc>)
    requires t != []
    ensures var n, a := |t| - 1, t[|t| - 1];
            var before := WithAccs(base, TableAccs(t[..n]), rows);
            var main := before[Slot(n) := Accumulate(MainAcc(a), rows)];
            WithAccs(base, TableAccs(t), rows) ==
              if a.kind == AggKind.Sum && a.field.Some?
              then main[CountSlot(n) := Accumulate(SumA(OneOrZero(a.field.value)), rows)] else main
  {
    hide Accumulate; hide Slot; hide CountSlot; hide OneOrZero;
    var n, a := |t| - 1, t[|t| - 1];
    var before := WithAccs(base, TableAccs(t[..n]), rows);
    WithAccsAppend(base, TableAccs(t[..n]), SlotAccs(a, n), rows);
    var accs := SlotAccs(a, n);
    assert accs[0] == (Slot(n), MainAcc(a));
    if |accs| == 1 {
      assert accs[..0] == [];
      assert WithAccs(before, accs[..0], rows) == before;
    } else {
      assert accs[..1] == [accs[0]] && accs[..1][..0] == [];
      assert WithAccs(before, accs[..1][..0], rows) == before;
      assert WithAccs(before, accs[..1], rows) == before[Slot(n) := Accumulate(MainAcc(a), rows)];
    }
  }

  /** Slot `i` of a document holds what the aggregate denotes over `rows`. */
  ghost predicate SlotHolds(a: Agg, i: nat, d: Doc, rows: seq<Doc>) {
    Eval(Reference(a.kind, i), d, map[]) == Some(AggValue(a, rows))
  }

  lemma ReferenceValue(kind: AggKind, i: nat, d: Doc)
    ensures var main := if Slot(i) in d then Some(d[Slot(i)]) else None;
            var count := if CountSlot(i) in d then Some(d[CountSlot(i)]) else None;
            Eval(Reference(kind, i), d, map[]) ==
              if kind != AggKind.Sum then main else if Bson(count, Some(Num(0.0))) > 0 then main else Some(Null)
  {
    var gt := Cmp(Gt, Field(CountSlot(i)), Lit(Num(0.0)));
    assert Eval(Lit(Num(0.0)), d, map[]) == Some(Num(0.0)) && Eval(Lit(Null), d, map[]) == Some(Null);
    assert Eval(Field(CountSlot(i)), d, map[]) == if CountSlot(i) in d then Some(d[CountSlot(i)]) else None;
    assert Eval(Field(Slot(i)), d, map[]) == if Slot(i) in d then Some(d[Slot(i)]) else None;
    assert Truthy(Eval(gt, d, map[])) <==> CmpHolds(Gt, Eval(Field(CountSlot(i)), d, map[]), Some(Num(0.0)));
  }

  lemma SlotKept(a: Agg, i: nat, d: Doc, e: Doc, rows: seq<Doc>)
    requires SlotHolds(a, i, d, rows)
    requires Slot(i) in d <==> Slot(i) in e
    requires Slot(i) in d ==> d[Slot(i)] == e[Slot(i)]
    requires CountSlot(i) in d <==> CountSlot(i) in e
    requires CountSlot(i) in d ==> d[CountSlot(i)] == e[CountSlot(i)]
    ensures SlotHolds(a, i, e, rows)
  {
    ReferenceValue(a.kind, i, d);
    ReferenceValue(a.kind, i, e);
  }

  lemma NewSlotHolds(a: Agg, i: nat, d: Doc, rows: seq<Doc>)
    requires a.field.None? ==> a.kind == Count
    requires AggFits(a, rows)
    requires Slot(i) in d && d[Slot(i)] == Accumulate(MainAcc(a), rows)
    requires a.kind == AggKind.Sum ==> CountSlot(i) in d && d[CountSlot(i)] == Accumulate(SumA(OneOrZero(a.field.value)), rows)
    ensures SlotHolds(a, i, d, rows)
  {
    MainAccValue(a, rows);
    ReferenceValue(a.kind, i, d);
    if a.kind == AggKind.Sum { CountsPresent(a.field.value, rows); }
  }

  lemma EarlierSlotKept(base: Doc, t: Table, rows: seq<Doc>, i: nat)
    requires i < |t| - 1
    requires SlotHolds(t[i], i, WithAccs(base, TableAccs(t[..|t| - 1]), rows), rows)
    ensures SlotHolds(t[i], i, WithAccs(base, TableAccs(t), rows), rows)
  {
    var n := |t| - 1;
    var before, after := WithAccs(base, TableAccs(t[..n]), rows), WithAccs(base, TableAccs(t), rows);
    LastSlot(base, t, rows);
    SlotsDistinct(i, n);
    SlotsDistinct(n, i);
    SlotKept(t[i], i, before, after, rows);
  }

  lemma LastSlotHolds(base: Doc, t: Table, rows: seq<Doc>)
    requires t != [] && SoundTable(t) && TableFits(t, rows)
    ensures SlotHolds(t[|t| - 1], |t| - 1, WithAccs(base, TableAccs(t), rows), rows)
  {
    var n := |t| - 1;
    LastSlot(base, t, rows);
    SlotsDistinct(n, n);
    NewSlotHolds(t[n], n, WithAccs(base, TableAccs(t), rows), rows);
  }

  lemma {:induction false} SlotsHold(base: Doc, t: Table, rows: seq<Doc>, i: nat)
    requires SoundTable(t) && TableFits(t, rows) && i < |t|
    ensures SlotHolds(t[i], i, WithAccs(base, TableAccs(t), rows), rows)
    decreases |t|
  {
    if i < |t| - 1 {
      SlotsHold(base, t[..|t| - 1], rows, i);
      EarlierSlotKept(base, t, rows, i);
    } else {
      LastSlotHolds(base, t, rows);
    }
  }

  lemma {:induction false} IdKept(base: Doc, t: Table, rows: seq<Doc>)
    requires "_id" in base
    ensures var d := WithAccs(base, TableAccs(t), rows); "_id" in d && d["_id"] == base["_id"]
    decreases |t|
  {
    if t != [] {
      LastSlot(base, t, rows);
      SlotsDistinct(|t| - 1, |t| - 1);
      IdKept(base, t[..|t| - 1], rows);
    }
  }

  lemma DefaultSlotHolds(a: Agg, i: nat, d: Doc)
    requires a.field.None? ==> a.kind == Count
    ensures SlotHolds(a, i, SlotDefaults(a, i, d), [])
  {
    SlotsDistinct(i, i);
    ReferenceValue(a.kind, i, SlotDefaults(a, i, d));
  }

  /** The `$literal` defaults present the group of no rows. */
  lemma {:induction false} DefaultsHold(t: Table, i: nat)
    requires SoundTable(t) && i < |t|
    ensures SlotHolds(t[i], i, Defaults(t), [])
    decreases |t|
  {
    var n := |t| - 1;
    if i < n {
      SlotsDistinct(i, n);
      SlotsDistinct(n, i);
      assert forall j | 0 <= j < n :: t[..n][j] == t[j];
      DefaultsHold(t[..n], i);
      SlotKept(t[i], i, Defaults(t[..n]), Defaults(t), []);
    } else {
      DefaultSlotHolds(t[n], n, Defaults(t[..n]));
    }
  }

  // ----- keys -----

  lemma {:induction false} IdKeyDenotes(groups: seq<string>, k: nat, d: Doc)
    ensures IdKey(GroupIds(groups, k), d) == KeyOf(groups, d)
  {
    if groups != [] {
      FieldOrNull(groups[0], d, map[]);
      IdKeyDenotes(groups[1..], k + 1, d);
      assert GroupIds(groups, k)[1..] == GroupIds(groups[1..], k + 1);
    }
  }

  lemma {:induction false} GroupIdName(groups: seq<string>, k: nat, i: nat)
    requires i < |groups|
    ensures GroupIds(groups, k)[i].0 == GroupKeyName(k + i)
  {
    if i > 0 { GroupIdName(groups[1..], k + 1, i - 1); }
  }

  lemma {:induction false} IdObjectHolds(ids: Ids, key: Key, i: nat)
    requires |key| == |ids| && i < |ids|
    requires forall a, b | 0 <= a < b < |ids| :: ids[a].0 != ids[b].0
    ensures ids[i].0 in IdObject(ids, key) && IdObject(ids, key)[ids[i].0] == key[i]
    decreases |ids|
  {
    var n := |ids| - 1;
    if i < n { IdObjectHolds(ids[..n], key[..n], i); }
  }

  lemma {:induction false} KeyScalar(groups: seq<string>, d: Doc)
    requires forall i | 0 <= i < |groups| :: Scalar(Read(d, groups[i]))
    ensures ScalarKey(KeyOf(groups, d))
  {
    if groups != [] {
      assert forall i | 0 <= i < |groups[1..]| :: groups[1..][i] == groups[i + 1];
      KeyScalar(groups[1..], d);
    }
  }

  lemma {:induction false} MembersFrom(rows: seq<Doc>, keys: seq<Key>, k: Key)
    requires |rows| == |keys|
    ensures From(Members(rows, keys, k), rows)
  {
    if rows != [] { MembersFrom(rows[1..], keys[1..], k); }
  }

  /** The rows of a group have its key. */
  lemma {:induction false} MembersKeyed(groups: seq<string>, rows: seq<Doc>, k: Key)
    ensures forall i | 0 <= i < |Members(rows, KeysOf(groups, rows), k)| ::
              KeyOf(groups, Members(rows, KeysOf(groups, rows), k)[i]) == k
  {
    if rows != [] {
      MembersKeyed(groups, rows[1..], k);
      assert KeysOf(groups, rows)[1..] == KeysOf(groups, rows[1..]);
    }
  }

  // ----- the group documents present the groups -----

  /** Document by document, `docs` are the database's view of `envs`. */
  ghost predicate Pairwise(sc: Scope, t: Table, afterGroup: bool, envs: seq<Env>, docs: seq<Doc>) {
    |envs| == |docs| && forall i | 0 <= i < |envs| :: Denotes(sc, t, afterGroup, envs[i], docs[i])
  }

  lemma IdReads(d: Doc, m: Doc, name: string)
    requires "_id" in d && d["_id"] == Obj(m) && name in m
    ensures Eval(IdField(name), d, map[]) == Some(m[name])
  {
  }

  lemma GroupKeysRead(groups: seq<string>, t: Table, key: Key, rows: seq<Doc>, i: nat)
    requires |key| == |groups| && i < |key|
    ensures Eval(IdField(GroupKeyName(i)), GroupDoc(GroupIds(groups, 0), TableAccs(t), key, rows), map[]) == Some(key[i])
  {
    hide WithAccs; hide IdObject; hide Slot; hide TableAccs;
    var ids := GroupIds(groups, 0);
    IdKept(map["_id" := Obj(IdObject(ids, key))], t, rows);
    forall a, b | 0 <= a < b < |ids| ensures ids[a].0 != ids[b].0 {
      GroupIdName(groups, 0, a);
      GroupIdName(groups, 0, b);
      SlotsDistinct(a, b);
    }
    GroupIdName(groups, 0, i);
    IdObjectHolds(ids, key, i);
    IdReads(GroupDoc(ids, TableAccs(t), key, rows), IdObject(ids, key), GroupKeyName(i));
  }

  lemma GroupDocPresents(sc: Scope, t: Table, key: Key, rows: seq<Doc>)
    requires SoundTable(t) && TableFits(t, rows)
    requires |key| == |sc.groups|
    ensures Presents(sc, t, GroupDoc(GroupIds(sc.groups, 0), TableAccs(t), key, rows), key, rows)
  {
    var ids := GroupIds(sc.groups, 0);
    var base: Doc := map["_id" := if ids == [] then Null else Obj(IdObject(ids, key))];
    var d := GroupDoc(ids, TableAccs(t), key, rows);
    forall i | 0 <= i < |key| ensures Eval(IdField(GroupKeyName(i)), d, map[]) == Some(key[i]) {
      GroupKeysRead(sc.groups, t, key, rows, i);
    }
    forall i | 0 <= i < |t| ensures Eval(Reference(t[i].kind, i), d, map[]) == Some(AggValue(t[i], rows)) {
      SlotsHold(base, t, rows, i);
      assert SlotHolds(t[i], i, d, rows);
    }
  }

  /** GROUP BY with keys: `$group` yields one document per SQL group, in the same order. */
  lemma GroupStagePresents(sc: Scope, t: Table, docs: seq<Doc>)
    requires SoundTable(t) && TableFits(t, docs) && ScalarFields(sc.groups, docs) && FitsOutputs(t, sc)
    requires sc.groups != []
    ensures Pairwise(sc, t, true, Groups(sc.groups, docs), GroupDocs(GroupIds(sc.groups, 0), TableAccs(t), docs))
  {
    var ids := GroupIds(sc.groups, 0);
    var keys := KeysOf(sc.groups, docs);
    forall i | 0 <= i < |docs| ensures IdKeys(ids, docs)[i] == keys[i] { IdKeyDenotes(sc.groups, 0, docs[i]); }
    assert IdKeys(ids, docs) == keys;
    var ks := Distinct(keys);
    var envs := Groups(sc.groups, docs);
    var out := GroupDocs(ids, TableAccs(t), docs);
    assert |envs| == |ks| && |out| == |ks|;
    forall i | 0 <= i < |ks| ensures Denotes(sc, t, true, envs[i], out[i]) {
      assert ks[i] in keys;
      var j :| 0 <= j < |keys| && keys[j] == ks[i];
      forall k | 0 <= k < |sc.groups| ensures Scalar(Read(docs[j], sc.groups[k])) { assert ScalarField(sc.groups[k], docs); }
      KeyScalar(sc.groups, docs[j]);
      MembersFrom(docs, keys, ks[i]);
      TableFitsFrom(t, docs, Members(docs, keys, ks[i]));
      MembersKeyed(sc.groups, docs, ks[i]);
      GroupDocPresents(sc, t, ks[i], Members(docs, keys, ks[i]));
      assert envs[i] == Group(ks[i], Members(docs, keys, ks[i]));
      assert out[i] == GroupDoc(ids, TableAccs(t), ks[i], Members(docs, keys, ks[i]));
    }
  }

  // ----- one row from empty input -----

  lemma {:induction false} OneKey(keys: seq<Key>)
    requires forall i | 0 <= i < |keys| :: keys[i] == []
    ensures Distinct(keys) == if keys == [] then [] else [[]]
  {
    if keys != [] { OneKey(keys[..|keys| - 1]); }
  }

  lemma {:induction false} OneGroup(rows: seq<Doc>, keys: seq<Key>)
    requires |rows| == |keys| && forall i | 0 <= i < |keys| :: keys[i] == []
    ensures Members(rows, keys, []) == rows
  {
    if rows != [] {
      OneGroup(rows[1..], keys[1..]);
      assert rows == [rows[0]] + rows[1..];
    }
  }

  /** The two stages that simulate a global aggregate: `$facet` around `$group`, then its first row or the defaults. */
  function GlobalStages(t: Table): seq<Stage> {
    [Facet("rows", [GroupS([], TableAccs(t))]), ReplaceRoot(IfNull(First(Field("rows")), Lit(Obj(Defaults(t)))))]
  }

  function GlobalDoc(t: Table, docs: seq<Doc>): Doc {
    if docs == [] then Defaults(t) else GroupDoc([], TableAccs(t), [], docs)
  }

  lemma RunOne(s: Stage, docs: seq<Doc>, coll: seq<Doc>)
    ensures Run([s], docs, coll) == RunStage(s, docs, coll)
  {
    assert [s][1..] == [];
  }

  lemma FirstOrDefault(out: seq<Doc>, defaults: Doc)
    ensures var facet: Doc := map["rows" := Arr(Objects(out))];
            RootDoc(IfNull(First(Field("rows")), Lit(Obj(defaults))), facet) == if out == [] then defaults else out[0]
  {
    var facet: Doc := map["rows" := Arr(Objects(out))];
    assert Eval(Field("rows"), facet, map[]) == Some(Arr(Objects(out)));
    assert Eval(Lit(Obj(defaults)), facet, map[]) == Some(Obj(defaults));
    if out != [] { assert Objects(out)[0] == Obj(out[0]); }
    assert Eval(First(Field("rows")), facet, map[]) == if out == [] then None else Some(Obj(out[0]));
  }

  lemma GroupOfAll(accs: Accs, docs: seq<Doc>)
    ensures GroupDocs([], accs, docs) == if docs == [] then [] else [GroupDoc([], accs, [], docs)]
  {
    hide Distinct; hide Members; hide GroupDoc;
    OneKey(IdKeys([], docs));
    OneGroup(docs, IdKeys([], docs));
  }

  lemma GlobalStagesRun(t: Table, docs: seq<Doc>, coll: seq<Doc>)
    ensures Run(GlobalStages(t), docs, coll) == [GlobalDoc(t, docs)]
  {
    var group := GroupS([], TableAccs(t));
    var out := GroupDocs([], TableAccs(t), docs);
    GroupOfAll(TableAccs(t), docs);
    RunOne(group, docs, coll);
    var facet: Doc := map["rows" := Arr(Objects(out))];
    var stages := GlobalStages(t);
    assert RunStage(stages[0], docs, coll) == [facet];
    FirstOrDefault(out, Defaults(t));
    ReplaceOne(stages[1].root, facet, coll);
    RunOne(stages[1], [facet], coll);
    assert stages == [stages[0], stages[1]] && stages[1..] == [stages[1]];
  }

  lemma ReplaceOne(root: MExpr, d: Doc, coll: seq<Doc>)
    ensures RunStage(ReplaceRoot(root), [d], coll) == [RootDoc(root, d)]
  {
    var s := ReplaceRoot(root);
    assert [d][1..] == [];
    assert Each(s, [d], coll) == [RootDoc(root, d)] + Each(s, [], coll);
  }

  /** A global aggregate has exactly one group, and the default document presents it when there are no rows. */
  lemma GlobalStagesPresent(sc: Scope, t: Table, docs: seq<Doc>, coll: seq<Doc>)
    requires SoundTable(t) && TableFits(t, docs) && ScalarFields(sc.groups, docs) && FitsOutputs(t, sc)
    requires sc.groups == []
    ensures Pairwise(sc, t, true, Groups(sc.groups, docs), Run(GlobalStages(t), docs, coll))
  {
    GlobalStagesRun(t, docs, coll);
    if docs == [] {
      forall i | 0 <= i < |t| ensures Eval(Reference(t[i].kind, i), Defaults(t), map[]) == Some(AggValue(t[i], [])) {
        DefaultsHold(t, i);
        assert SlotHolds(t[i], i, Defaults(t), []);
      }
      assert Presents(sc, t, Defaults(t), [], []);
    } else {
      GroupDocPresents(sc, t, [], docs);
    }
  }
}
