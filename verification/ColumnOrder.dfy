/**
 * The columns of an aggregate query come in the order of the projection object, which starts with `_id: 0` and, like the sort
 * object, lists names that look like array indices first.
 */
module ColumnOrder {
  import opened Values
  import opened Mongo
  import opened OrderSpec

  /** The entry `_id: 0` stands marked; assigning an output clears the mark. */
  function ProjectionObject(names: seq<string>): SortSpec {
    if names == [] then [("_id", true)]
    else SetEntry(ProjectionObject(names[..|names| - 1]), names[|names| - 1], false)
  }

  /** The columns that are not excluded. */
  function Kept(spec: SortSpec): seq<string> {
    if spec == [] then [] else (if spec[0].1 then [] else [spec[0].0]) + Kept(spec[1..])
  }

  function ResultColumns(names: seq<string>): seq<string> { Kept(ProjectionObject(names)) }

  /** In the object `a` stands before `b`: indices ascend and come before all else, `_id` before the other names. */
  predicate InPlace(a: string, b: string) { (IsIndex(b) ==> Precedes(a, b)) && (b == "_id" ==> IsIndex(a)) }

  /** Names like array indices come first and ascend, and only they come before `_id`. */
  predicate AllInPlace(names: seq<string>) { forall i, j | 0 <= i < j < |names| :: InPlace(names[i], names[j]) }

  ghost predicate Distinct(names: seq<string>) { forall i, j | 0 <= i < j < |names| :: names[i] != names[j] }

  // ----- the object's shape -----

  /** Only `_id` may be excluded. */
  ghost predicate OnlyIdMarked(spec: SortSpec) { forall i | 0 <= i < |spec| && spec[i].1 :: spec[i].0 == "_id" }

  /** Nothing but indices stands before `_id`. */
  ghost predicate IdLeads(spec: SortSpec) { forall i, j | 0 <= i < j < |spec| && spec[j].0 == "_id" :: IsIndex(spec[i].0) }

  lemma IdIsNoIndex()
    ensures !IsIndex("_id")
  {
    assert "_id"[0] == '_';
  }

  lemma {:induction false} SetOnlyId(spec: SortSpec, k: string)
    requires OnlyIdMarked(spec)
    ensures OnlyIdMarked(SetEntry(spec, k, false))
  {
    hide Precedes;
    if spec != [] {
      assert forall i | 0 <= i < |spec| - 1 :: spec[1..][i] == spec[i + 1];
      SetOnlyId(spec[1..], k);
    }
  }

  /** `_id` occurs, with nothing but indices before it. */
  ghost predicate LedById(spec: SortSpec) {
    spec != [] && (spec[0].0 == "_id" || (IsIndex(spec[0].0) && LedById(spec[1..])))
  }

  lemma {:induction false} SetLedById(spec: SortSpec, k: string)
    requires LedById(spec)
    ensures LedById(SetEntry(spec, k, false))
  {
    IdIsNoIndex();
    var r := SetEntry(spec, k, false);
    if spec[0].0 == k {
      assert r[1..] == spec[1..];
    } else if Precedes(k, spec[0].0) {
      assert r[1..] == spec;
    } else if spec[0].0 != "_id" {
      SetLedById(spec[1..], k);
      assert r[1..] == SetEntry(spec[1..], k, false);
    }
  }

  lemma {:induction false} LedIdLeads(spec: SortSpec)
    requires Enumerated(spec) && LedById(spec)
    ensures IdLeads(spec)
  {
    if spec[0].0 != "_id" {
      LedIdLeads(spec[1..]);
      forall i, j | 0 <= i < j < |spec| && spec[j].0 == "_id" ensures IsIndex(spec[i].0) {
        if i > 0 { assert spec[1..][i - 1] == spec[i] && spec[1..][j - 1] == spec[j]; }
      }
    } else {
      forall j | 0 < j < |spec| ensures spec[j].0 != "_id" { assert spec[1..][j - 1] == spec[j]; }
    }
  }

  lemma {:induction false} ObjectShape(names: seq<string>)
    ensures var spec := ProjectionObject(names); Enumerated(spec) && LedById(spec) && OnlyIdMarked(spec)
    decreases |names|
  {
    if names != [] {
      var n := |names| - 1;
      ObjectShape(names[..n]);
      var before := ProjectionObject(names[..n]);
      SetEntryCorrect(before, names[n], false);
      SetLedById(before, names[n]);
      SetOnlyId(before, names[n]);
    }
  }

  // ----- the columns kept -----

  lemma {:induction false} KeptFrom(spec: SortSpec, c: string)
    requires c in Kept(spec)
    ensures exists i :: 0 <= i < |spec| && !spec[i].1 && spec[i].0 == c
  {
    if spec[0].1 || spec[0].0 != c {
      KeptFrom(spec[1..], c);
      var i :| 0 <= i < |spec[1..]| && !spec[1..][i].1 && spec[1..][i].0 == c;
      assert spec[i + 1] == spec[1..][i];
    }
  }

  /** Entries in place leave columns in place. */
  lemma {:induction false} KeptInPlace(spec: SortSpec)
    requires IndicesFirst(spec) && IdLeads(spec)
    ensures AllInPlace(Kept(spec))
  {
    hide IsIndex; hide Precedes;
    if spec != [] {
      assert forall i | 0 <= i < |spec| - 1 :: spec[1..][i] == spec[i + 1];
      KeptInPlace(spec[1..]);
      var rest := Kept(spec[1..]);
      forall j | 0 <= j < |rest| ensures InPlace(spec[0].0, rest[j]) {
        KeptFrom(spec[1..], rest[j]);
        var i :| 0 <= i < |spec[1..]| && !spec[1..][i].1 && spec[1..][i].0 == rest[j];
        assert spec[i + 1].0 == rest[j];
      }
    }
  }

  /** A name that belongs behind all kept columns is put behind them. */
  lemma {:induction false} KeptSet(spec: SortSpec, k: string)
    requires Enumerated(spec) && OnlyIdMarked(spec)
    requires forall i | 0 <= i < |spec| && !spec[i].1 :: spec[i].0 != k && InPlace(spec[i].0, k)
    ensures Kept(SetEntry(spec, k, false)) == Kept(spec) + [k]
  {
    IdIsNoIndex();
    if spec == [] { return; }
    var r, rest := SetEntry(spec, k, false), spec[1..];
    assert forall i | 0 <= i < |rest| :: rest[i] == spec[i + 1];
    if spec[0].0 == k || Precedes(k, spec[0].0) {
      PrecedesOrder(k, spec[0].0, k);
      forall i | 0 <= i < |rest| ensures rest[i].1 {
        PrecedesOrder(k, rest[i].0, k);
        PrecedesOrder(spec[0].0, rest[i].0, k);
      }
      NothingKept(rest);
      if spec[0].0 == k {
        assert r == [(k, false)] + rest && r[1..] == rest;
      } else {
        assert r[1..] == spec;
      }
    } else {
      KeptSet(rest, k);
      assert r[1..] == SetEntry(rest, k, false);
    }
  }

  lemma {:induction false} NothingKept(spec: SortSpec)
    requires forall i | 0 <= i < |spec| :: spec[i].1
    ensures Kept(spec) == []
  {
    if spec != [] { NothingKept(spec[1..]); }
  }

  lemma {:induction false} InPlaceKept(names: seq<string>)
    requires Distinct(names) && AllInPlace(names)
    ensures ResultColumns(names) == names
    decreases |names|
  {
    hide IsIndex; hide Precedes; hide SetEntry;
    if names == [] {
      assert [("_id", true)][1..] == [];
      return;
    }
    var n := |names| - 1;
    InPlaceKept(names[..n]);
    ObjectShape(names[..n]);
    var before := ProjectionObject(names[..n]);
    forall i | 0 <= i < |before| && !before[i].1 ensures before[i].0 != names[n] && InPlace(before[i].0, names[n]) {
      KeptHolds(before, i);
      var j :| 0 <= j < n && names[j] == before[i].0;
      assert InPlace(names[j], names[n]);
    }
    KeptSet(before, names[n]);
    assert names == names[..n] + [names[n]];
  }

  lemma {:induction false} KeptHolds(spec: SortSpec, i: nat)
    requires i < |spec| && !spec[i].1
    ensures spec[i].0 in Kept(spec)
  {
    if i > 0 { KeptHolds(spec[1..], i - 1); }
  }

  /** The columns come in the order of the select list exactly when the names are in place. */
  lemma ColumnOrderIff(names: seq<string>)
    requires Distinct(names)
    ensures ResultColumns(names) == names <==> AllInPlace(names)
  {
    hide IsIndex; hide Precedes; hide SetEntry; hide ProjectionObject;
    if AllInPlace(names) { InPlaceKept(names); }
    ObjectShape(names);
    EnumeratedIndices(ProjectionObject(names));
    LedIdLeads(ProjectionObject(names));
    KeptInPlace(ProjectionObject(names));
  }

  /** In whatever order, the columns are the selected ones, each once. */
  lemma {:induction false} ColumnsComplete(names: seq<string>, c: string)
    ensures c in ResultColumns(names) <==> c in names
    ensures Distinct(ResultColumns(names))
  {
    ObjectShape(names);
    EnumeratedIndices(ProjectionObject(names));
    KeptDistinct(ProjectionObject(names));
    EntryOf(names, c);
    KeptEntry(ProjectionObject(names), c);
  }

  lemma {:induction false} EntryOf(names: seq<string>, c: string)
    ensures Entry(ProjectionObject(names), c) == if c in names then Some(false) else if c == "_id" then Some(true) else None
    decreases |names|
  {
    if names == [] {
      assert [("_id", true)][1..] == [];
      return;
    }
    var n := |names| - 1;
    EntryOf(names[..n], c);
    ObjectShape(names[..n]);
    SetEntryCorrect(ProjectionObject(names[..n]), names[n], false);
    assert names == names[..n] + [names[n]];
  }

  lemma {:induction false} KeptEntry(spec: SortSpec, c: string)
    requires Unique(spec)
    ensures c in Kept(spec) <==> Entry(spec, c) == Some(false)
  {
    if spec != [] {
      assert forall i | 0 <= i < |spec| - 1 :: spec[1..][i] == spec[i + 1];
      KeptEntry(spec[1..], c);
      if c in Kept(spec[1..]) {
        KeptFrom(spec[1..], c);
        var i :| 0 <= i < |spec[1..]| && !spec[1..][i].1 && spec[1..][i].0 == c;
        assert spec[i + 1].0 == c;
      }
    }
  }

  lemma {:induction false} KeptDistinct(spec: SortSpec)
    requires Unique(spec)
    ensures Distinct(Kept(spec))
  {
    if spec != [] {
      assert forall i | 0 <= i < |spec| - 1 :: spec[1..][i] == spec[i + 1];
      KeptDistinct(spec[1..]);
      var rest := Kept(spec[1..]);
      forall j | 0 <= j < |rest| ensures rest[j] != spec[0].0 {
        KeptFrom(spec[1..], rest[j]);
        var i :| 0 <= i < |spec[1..]| && !spec[1..][i].1 && spec[1..][i].0 == rest[j];
        assert spec[i + 1].0 == rest[j];
      }
    }
  }

  /** The projection object filled output by output, and the columns it keeps. */
  method FillProjection(names: seq<string>) returns (columns: seq<string>)
    ensures columns == ResultColumns(names)
  {
    var projection: SortSpec := [("_id", true)];
    for i := 0 to |names|
      invariant projection == ProjectionObject(names[..i])
    {
      assert names[..i + 1][..i] == names[..i];
      projection := SetEntry(projection, names[i], false);
    }
    assert names[..|names|] == names;
    columns := Kept(projection);
  }

  lemma TwoColumns(a: string, b: string)
    ensures ProjectionObject([a, b]) == SetEntry(SetEntry([("_id", true)], a, false), b, false)
  {
    hide SetEntry;
    assert [a, b][..1] == [a] && [a][..0] == [];
    assert ProjectionObject([]) == [("_id", true)];
    assert ProjectionObject([a]) == SetEntry([("_id", true)], a, false);
  }

  lemma KeptCons(e: (string, bool), rest: SortSpec)
    ensures Kept([e] + rest) == (if e.1 then [] else [e.0]) + Kept(rest)
  {
    assert ([e] + rest)[1..] == rest;
  }

  /** Two columns named like indices come in ascending order. */
  lemma IndexColumns()
    ensures ResultColumns(["2", "1"]) == ["1", "2"]
  {
    hide Kept; hide ProjectionObject;
    TwoColumns("2", "1");
    var id: SortSpec := [("_id", true)];
    IdIsNoIndex();
    assert IsIndex("1") && IsIndex("2") && Precedes("1", "2");
    assert SetEntry(id, "2", false) == [("2", false)] + id;
    assert SetEntry([("2", false)] + id, "1", false) == [("1", false)] + ([("2", false)] + id);
    KeptCons(("1", false), [("2", false)] + id);
    KeptCons(("2", false), id);
    OneKept(("_id", true));
  }

  lemma OneKept(e: (string, bool))
    ensures Kept([e]) == if e.1 then [] else [e.0]
  {
    assert [e] + [] == [e];
    KeptCons(e, []);
  }

  /** A selected `_id` comes before the other names. */
  lemma IdColumn()
    ensures ResultColumns(["a", "_id"]) == ["_id", "a"]
  {
    hide Kept; hide ProjectionObject; hide IsIndex;
    TwoColumns("a", "_id");
    var id: SortSpec := [("_id", true)];
    NoIndexName();
    assert "a" != "_id" by { assert |"a"| != |"_id"|; }
    assert id[1..] == [];
    assert SetEntry(id, "a", false) == id + [("a", false)];
    assert (id + [("a", false)])[1..] == [("a", false)];
    assert SetEntry(id + [("a", false)], "_id", false) == [("_id", false)] + [("a", false)];
    KeptCons(("_id", false), [("a", false)]);
    OneKept(("a", false));
  }

  lemma NoIndexName()
    ensures !IsIndex("a")
  {
    assert "a"[0] == 'a';
  }

  /** `SELECT b AS "2", a AS "1"` and `SELECT a, _id ... LIMIT 5` return their columns the other way round. */
  lemma ReorderedColumns()
    ensures ResultColumns(["2", "1"]) == ["1", "2"] && ResultColumns(["a", "_id"]) == ["_id", "a"]
  {
    hide ResultColumns;
    IndexColumns();
    IdColumn();
  }
}
