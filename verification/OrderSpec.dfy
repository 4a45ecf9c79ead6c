/**
 * The sort object of an ungrouped ORDER BY. A JavaScript object keeps one entry per property, so a repeated column
 * overwrites its direction, and it lists properties that look like array indices first, in ascending order.
 */
module OrderSpec {
  import opened Values
  import opened Ordering
  import opened Mongo

  predicate Digits(s: string) { forall i | 0 <= i < |s| :: '0' <= s[i] <= '9' }

  /** Numeric order on canonical numerals: shorter first, then digit by digit. */
  predicate NumeralLess(s: string, t: string) { |s| < |t| || (|s| == |t| && StrLess(s, t)) }

  /** A canonical array index below 2^32 - 1: "0", "17", but not "017". */
  predicate IsIndex(s: string) {
    s != [] && Digits(s) && (|s| == 1 || s[0] != '0') && NumeralLess(s, "4294967295")
  }

  /** Property `k` is enumerated before `m`, whatever the order of insertion. */
  predicate Precedes(k: string, m: string) { IsIndex(k) && (!IsIndex(m) || NumeralLess(k, m)) }

  /** `object[k] = desc` on an object whose entries are listed in enumeration order. */
  function SetEntry(spec: SortSpec, k: string, desc: bool): SortSpec {
    if spec == [] then [(k, desc)]
    else if spec[0].0 == k then [(k, desc)] + spec[1..]
    else if Precedes(k, spec[0].0) then [(k, desc)] + spec
    else [spec[0]] + SetEntry(spec[1..], k, desc)
  }

  /** The sort object built from the ORDER BY list, entry by entry. */
  function SortObject(list: SortSpec): SortSpec {
    if list == [] then [] else SetEntry(SortObject(list[..|list| - 1]), list[|list| - 1].0, list[|list| - 1].1)
  }

  predicate Mentions(spec: SortSpec, k: string) { exists i | 0 <= i < |spec| :: spec[i].0 == k }

  /** A later mention of a column cannot matter in SQL: rows that reach it are equal on it. */
  function FirstMentions(list: SortSpec): SortSpec {
    if list == [] then []
    else
      var rest := FirstMentions(list[..|list| - 1]);
      var last := list[|list| - 1];
      if Mentions(rest, last.0) then rest else rest + [last]
  }

  /** The direction of the last mention. */
  predicate LastDirection(list: SortSpec, k: string) {
    list != [] && if list[|list| - 1].0 == k then list[|list| - 1].1 else LastDirection(list[..|list| - 1], k)
  }

  /** No column's last mention reverses its first. */
  predicate DirectionsKept(list: SortSpec) {
    var first := FirstMentions(list);
    forall i | 0 <= i < |first| :: LastDirection(list, first[i].0) == first[i].1
  }

  /** Columns named like array indices come first and ascend. */
  predicate IndicesFirst(spec: SortSpec) {
    forall i, j | 0 <= i < j < |spec| :: IsIndex(spec[j].0) ==> Precedes(spec[i].0, spec[j].0)
  }

  ghost predicate Unique(spec: SortSpec) { forall i, j | 0 <= i < j < |spec| :: spec[i].0 != spec[j].0 }

  // ----- the object's entries -----

  lemma PrecedesOrder(a: string, b: string, c: string)
    ensures Precedes(a, b) && Precedes(b, c) ==> Precedes(a, c)
    ensures !(Precedes(a, b) && Precedes(b, a))
    ensures a != b && IsIndex(a) ==> Precedes(a, b) || Precedes(b, a)
    ensures !Precedes(a, a)
  {
    StrTrichotomy(a, b);
    StrTrichotomy(a, a);
    if StrLess(a, b) && StrLess(b, c) { StrTransitive(a, b, c); }
  }

  /** Every property of `spec` is other than `k` and, if an index, a larger one. */
  ghost predicate Above(k: string, spec: SortSpec) {
    forall i | 0 <= i < |spec| :: spec[i].0 != k && (IsIndex(spec[i].0) ==> Precedes(k, spec[i].0))
  }

  /** Ascending indices, then the others, no property twice. */
  ghost predicate Enumerated(spec: SortSpec) { spec == [] || (Above(spec[0].0, spec[1..]) && Enumerated(spec[1..])) }

  function Entry(spec: SortSpec, k: string): Option<bool> {
    if spec == [] then None else if spec[0].0 == k then Some(spec[0].1) else Entry(spec[1..], k)
  }

  lemma {:induction false} EntryMentions(spec: SortSpec, k: string)
    ensures Entry(spec, k).Some? <==> Mentions(spec, k)
  {
    if spec != [] {
      EntryMentions(spec[1..], k);
      assert forall i | 0 < i < |spec| :: spec[i] == spec[1..][i - 1];
      assert forall i | 0 <= i < |spec| - 1 :: spec[1..][i] == spec[i + 1];
    }
  }

  lemma AboveTrans(k: string, m: string, spec: SortSpec)
    requires Precedes(k, m) && Above(m, spec)
    ensures Above(k, spec)
  {
    forall i | 0 <= i < |spec| ensures spec[i].0 != k && (IsIndex(spec[i].0) ==> Precedes(k, spec[i].0)) {
      PrecedesOrder(k, m, spec[i].0);
      PrecedesOrder(m, k, k);
    }
  }

  lemma {:induction false} SetAbove(low: string, spec: SortSpec, k: string, desc: bool)
    requires Above(low, spec) && low != k && (IsIndex(k) ==> Precedes(low, k))
    ensures Above(low, SetEntry(spec, k, desc))
  {
    if spec != [] {
      assert Above(low, spec[1..]);
      SetAbove(low, spec[1..], k, desc);
      assert spec[0].0 != low && (IsIndex(spec[0].0) ==> Precedes(low, spec[0].0));
    }
  }

  /** Setting an entry keeps enumeration order, changes that entry only, and adds the property when it is new. */
  lemma {:induction false} SetEntryCorrect(spec: SortSpec, k: string, desc: bool)
    requires Enumerated(spec)
    ensures Enumerated(SetEntry(spec, k, desc))
    ensures forall m :: Entry(SetEntry(spec, k, desc), m) == if m == k then Some(desc) else Entry(spec, m)
  {
    if spec == [] { return; }
    var r, head, tail := SetEntry(spec, k, desc), spec[0], spec[1..];
    if head.0 == k {
      assert r[0] == (k, desc) && r[1..] == tail;
    } else if Precedes(k, head.0) {
      AboveTrans(k, head.0, tail);
      assert r[0] == (k, desc) && r[1..] == spec;
      forall i | 0 <= i < |spec| ensures spec[i].0 != k && (IsIndex(spec[i].0) ==> Precedes(k, spec[i].0)) {
        if i > 0 { assert spec[i] == tail[i - 1]; }
      }
    } else {
      PrecedesOrder(k, head.0, k);
      SetAbove(head.0, tail, k, desc);
      SetEntryCorrect(tail, k, desc);
      assert r[0] == head && r[1..] == SetEntry(tail, k, desc);
    }
  }

  /** The object holds each mentioned column once, with the direction of its last mention. */
  lemma {:induction false} SortObjectCorrect(list: SortSpec)
    ensures Enumerated(SortObject(list))
    ensures forall k :: Entry(SortObject(list), k) == if Mentions(list, k) then Some(LastDirection(list, k)) else None
  {
    if list != [] {
      var n := |list| - 1;
      SortObjectCorrect(list[..n]);
      SetEntryCorrect(SortObject(list[..n]), list[n].0, list[n].1);
      forall k ensures Mentions(list, k) <==> k == list[n].0 || Mentions(list[..n], k) {
        if Mentions(list[..n], k) {
          var i :| 0 <= i < n && list[..n][i].0 == k;
          assert list[i].0 == k;
        }
        if Mentions(list, k) && k != list[n].0 {
          var i :| 0 <= i < |list| && list[i].0 == k;
          assert list[..n][i].0 == k;
        }
      }
    }
  }

  // ----- when the object is the list -----

  ghost predicate SameNames(a: SortSpec, b: SortSpec) { |a| == |b| && forall i | 0 <= i < |a| :: a[i].0 == b[i].0 }

  lemma {:induction false} SetAppends(spec: SortSpec, k: string, desc: bool)
    requires forall i | 0 <= i < |spec| :: spec[i].0 != k && !Precedes(k, spec[i].0)
    ensures SetEntry(spec, k, desc) == spec + [(k, desc)]
  {
    if spec != [] { SetAppends(spec[1..], k, desc); }
  }

  lemma {:induction false} SetOverwrites(spec: SortSpec, k: string, desc: bool)
    requires Enumerated(spec) && Mentions(spec, k)
    ensures SameNames(SetEntry(spec, k, desc), spec)
  {
    var i :| 0 <= i < |spec| && spec[i].0 == k;
    if i > 0 && spec[0].0 != k {
      assert spec[1..][i - 1].0 == k;
      PrecedesOrder(spec[0].0, k, k);
      PrecedesOrder(k, spec[0].0, k);
      SetOverwrites(spec[1..], k, desc);
    }
  }

  lemma {:induction false} NamesKept(list: SortSpec)
    requires IndicesFirst(FirstMentions(list))
    ensures SameNames(SortObject(list), FirstMentions(list))
  {
    if list == [] { return; }
    var n := |list| - 1;
    var k, obj, first := list[n].0, SortObject(list[..n]), FirstMentions(list[..n]);
    assert first <= FirstMentions(list);
    assert IndicesFirst(first) by {
      forall i, j | 0 <= i < j < |first| ensures IsIndex(first[j].0) ==> Precedes(first[i].0, first[j].0) {
        assert FirstMentions(list)[i] == first[i] && FirstMentions(list)[j] == first[j];
      }
    }
    NamesKept(list[..n]);
    SortObjectCorrect(list[..n]);
    if Mentions(first, k) {
      var i :| 0 <= i < |first| && first[i].0 == k;
      assert obj[i].0 == k;
      SetOverwrites(obj, k, list[n].1);
    } else {
      forall i | 0 <= i < |obj| ensures obj[i].0 != k && !Precedes(k, obj[i].0) {
        assert obj[i].0 == first[i].0 && FirstMentions(list)[i] == first[i];
        assert FirstMentions(list)[|first|] == list[n];
        PrecedesOrder(k, first[i].0, k);
      }
      SetAppends(obj, k, list[n].1);
    }
  }

  lemma {:induction false} EntryAt(spec: SortSpec, i: nat)
    requires Enumerated(spec) && i < |spec|
    ensures Entry(spec, spec[i].0) == Some(spec[i].1)
  {
    if i > 0 {
      assert spec[1..][i - 1] == spec[i];
      EntryAt(spec[1..], i - 1);
    }
  }

  lemma {:induction false} EnumeratedIndices(spec: SortSpec)
    requires Enumerated(spec)
    ensures IndicesFirst(spec) && Unique(spec)
  {
    if spec != [] {
      EnumeratedIndices(spec[1..]);
      forall i, j | 0 <= i < j < |spec|
        ensures spec[i].0 != spec[j].0 && (IsIndex(spec[j].0) ==> Precedes(spec[i].0, spec[j].0))
      {
        assert spec[j] == spec[1..][j - 1];
        if i > 0 { assert spec[i] == spec[1..][i - 1]; }
      }
    }
  }

  /** The sort object lists the columns as ORDER BY first mentions them exactly when the two conditions hold. */
  lemma ObjectIsListIff(list: SortSpec)
    ensures SortObject(list) == FirstMentions(list) <==> IndicesFirst(FirstMentions(list)) && DirectionsKept(list)
  {
    var obj, first := SortObject(list), FirstMentions(list);
    SortObjectCorrect(list);
    if obj == first {
      EnumeratedIndices(obj);
      forall i | 0 <= i < |first| ensures LastDirection(list, first[i].0) == first[i].1 { EntryAt(obj, i); }
    }
    if IndicesFirst(first) && DirectionsKept(list) {
      NamesKept(list);
      forall i | 0 <= i < |first| ensures obj[i] == first[i] { EntryAt(obj, i); }
    }
  }

  // ----- what a sort specification orders -----

  ghost predicate SpecLess(spec: SortSpec, x: Doc, y: Doc) {
    KeyLess(SortKey(spec, x), SortKey(spec, y), SpecDirections(spec))
  }

  predicate EntryLess(e: (string, bool), x: Doc, y: Doc) {
    var a, b := Read(x, e.0), Read(y, e.0);
    a != b && if e.1 then Less(b, a) else Less(a, b)
  }

  /** The documents agree on every column of `spec`. */
  ghost predicate Agree(spec: SortSpec, x: Doc, y: Doc) { forall i | 0 <= i < |spec| :: Read(x, spec[i].0) == Read(y, spec[i].0) }

  lemma {:induction false} SpecLessAt(spec: SortSpec, e: (string, bool), rest: SortSpec, x: Doc, y: Doc)
    requires Agree(spec, x, y) && EntryLess(e, x, y)
    ensures SpecLess(spec + [e] + rest, x, y)
  {
    var all := spec + [e] + rest;
    if spec != [] {
      assert all[1..] == spec[1..] + [e] + rest && all[0] == spec[0];
      forall i | 0 <= i < |spec[1..]| ensures Read(x, spec[1..][i].0) == Read(y, spec[1..][i].0) {
        assert spec[1..][i] == spec[i + 1];
      }
      SpecLessAt(spec[1..], e, rest, x, y);
    } else {
      assert all[0] == e;
    }
  }

  lemma {:induction false} SpecLessAppend(spec: SortSpec, e: (string, bool), x: Doc, y: Doc)
    ensures SpecLess(spec + [e], x, y) <==> SpecLess(spec, x, y) || (Agree(spec, x, y) && EntryLess(e, x, y))
  {
    var all := spec + [e];
    if spec == [] {
      assert all == [e] && all[1..] == [];
      assert SortKey(all, x) == [Read(x, e.0)] && SortKey(all, y) == [Read(y, e.0)];
    } else {
      assert all[1..] == spec[1..] + [e] && all[0] == spec[0];
      SpecLessAppend(spec[1..], e, x, y);
      assert Agree(spec, x, y) <==> Read(x, spec[0].0) == Read(y, spec[0].0) && Agree(spec[1..], x, y) by {
        assert forall i | 0 < i < |spec| :: spec[i] == spec[1..][i - 1];
        assert forall i | 0 <= i < |spec| - 1 :: spec[1..][i] == spec[i + 1];
      }
    }
  }

  lemma AgreeAppend(spec: SortSpec, e: (string, bool), x: Doc, y: Doc)
    ensures Agree(spec + [e], x, y) <==> Agree(spec, x, y) && Read(x, e.0) == Read(y, e.0)
  {
    var all := spec + [e];
    if Agree(all, x, y) {
      assert Read(x, all[|spec|].0) == Read(y, all[|spec|].0);
      forall i | 0 <= i < |spec| ensures Read(x, spec[i].0) == Read(y, spec[i].0) { assert all[i] == spec[i]; }
    }
  }

  /** Dropping later mentions of a column changes no comparison. */
  lemma {:induction false} FirstMentionsOrder(list: SortSpec, x: Doc, y: Doc)
    ensures SpecLess(list, x, y) == SpecLess(FirstMentions(list), x, y)
    ensures Agree(list, x, y) == Agree(FirstMentions(list), x, y)
  {
    if list != [] {
      var n := |list| - 1;
      var first := FirstMentions(list[..n]);
      FirstMentionsOrder(list[..n], x, y);
      assert list == list[..n] + [list[n]];
      SpecLessAppend(list[..n], list[n], x, y);
      SpecLessAppend(first, list[n], x, y);
      AgreeAppend(list[..n], list[n], x, y);
      AgreeAppend(first, list[n], x, y);
      if Mentions(first, list[n].0) {
        var i :| 0 <= i < |first| && first[i].0 == list[n].0;
        assert Agree(first, x, y) ==> Read(x, first[i].0) == Read(y, first[i].0);
      }
    }
  }

  /** Two specifications that compare all documents alike sort every collection alike. */
  lemma SortsAlike(p: SortSpec, q: SortSpec, docs: seq<Doc>)
    requires forall x, y :: SpecLess(p, x, y) == SpecLess(q, x, y)
    ensures Sorted(p, docs) == Sorted(q, docs)
  {
    var k1, k2, d1, d2 := SortKeys(p, docs), SortKeys(q, docs), SpecDirections(p), SpecDirections(q);
    forall i, j | 0 <= i < |docs| && 0 <= j < |docs| ensures KeyLess(k1[i], k1[j], d1) == KeyLess(k2[i], k2[j], d2) {
      assert SpecLess(p, docs[i], docs[j]) == SpecLess(q, docs[i], docs[j]);
    }
    SortPrefixCongruent(k1, d1, k2, d2, |docs|);
  }

  lemma SortOfTwo(spec: SortSpec, x: Doc, y: Doc)
    ensures Sorted(spec, [x, y]) == if SpecLess(spec, y, x) then [y, x] else [x, y]
  {
    var keys, desc := SortKeys(spec, [x, y]), SpecDirections(spec);
    assert SortPrefix(keys, desc, 0) == [];
    assert SortPrefix(keys, desc, 1) == [0];
    assert Insert([0], keys, desc, 1) == if KeyLess(keys[1], keys[0], desc) then [1, 0] else [0] + Insert([], keys, desc, 1);
    assert SortPrefix(keys, desc, 2) == Insert([0], keys, desc, 1);
  }

  lemma {:induction false} SpecLessAsymmetric(spec: SortSpec, x: Doc, y: Doc)
    requires Flat(x) && Flat(y) && SpecLess(spec, x, y)
    ensures !SpecLess(spec, y, x)
  {
    SortKeyScalar(spec, x);
    SortKeyScalar(spec, y);
    KeyTrichotomy(SortKey(spec, x), SortKey(spec, y), SpecDirections(spec));
  }

  lemma {:induction false} SortKeyScalar(spec: SortSpec, x: Doc)
    requires Flat(x)
    ensures ScalarKey(SortKey(spec, x))
  {
    if spec != [] { SortKeyScalar(spec[1..], x); }
  }

  /** The first position at which two lists differ. */
  function FirstDifference(p: SortSpec, q: SortSpec): (k: nat)
    requires p != q && |p| == |q|
    ensures k < |p| && p[k] != q[k] && p[..k] == q[..k]
  {
    if p[0] != q[0] then 0
    else
      assert p == [p[0]] + p[1..] && q == [q[0]] + q[1..];
      var k := FirstDifference(p[1..], q[1..]);
      assert p[..k + 1] == [p[0]] + p[1..][..k] && q[..k + 1] == [q[0]] + q[1..][..k];
      k + 1
  }

  /** Two documents that the entries `e` and `f` order oppositely and that agree on every other column. */
  lemma Contrast(e: (string, bool), f: (string, bool)) returns (x: Doc, y: Doc)
    requires e != f
    ensures Flat(x) && Flat(y) && x != y
    ensures EntryLess(e, x, y) && EntryLess(f, y, x)
    ensures forall c | c != e.0 && c != f.0 :: Read(x, c) == Read(y, c)
  {
    var low, high := Num(0.0), Num(1.0);
    x := map[f.0 := if f.1 then low else high][e.0 := if e.1 then high else low];
    y := map[f.0 := if f.1 then high else low][e.0 := if e.1 then low else high];
    assert x[e.0] != y[e.0];
  }

  lemma ContrastSorts(p: SortSpec, q: SortSpec, k: nat, x: Doc, y: Doc)
    requires k < |p| && k < |q| && Flat(x) && Flat(y) && x != y
    requires Agree(p[..k], x, y) && EntryLess(p[k], x, y)
    requires Agree(q[..k], y, x) && EntryLess(q[k], y, x)
    ensures Sorted(p, [x, y]) != Sorted(q, [x, y])
  {
    assert p == p[..k] + [p[k]] + p[k + 1..] && q == q[..k] + [q[k]] + q[k + 1..];
    SpecLessAt(p[..k], p[k], p[k + 1..], x, y);
    SpecLessAt(q[..k], q[k], q[k + 1..], y, x);
    SpecLessAsymmetric(p, x, y);
    SortOfTwo(p, x, y);
    SortOfTwo(q, x, y);
    assert [x, y][0] != [y, x][0];
  }

  /** Different specifications over the same columns: two documents that they sort differently. */
  lemma DifferentSpecsSortDifferently(p: SortSpec, q: SortSpec) returns (x: Doc, y: Doc)
    requires p != q && |p| == |q| && Unique(p) && Unique(q)
    ensures Flat(x) && Flat(y) && Sorted(p, [x, y]) != Sorted(q, [x, y])
  {
    var k := FirstDifference(p, q);
    x, y := Contrast(p[k], q[k]);
    forall i | 0 <= i < k
      ensures Read(x, p[..k][i].0) == Read(y, p[..k][i].0) && Read(x, q[..k][i].0) == Read(y, q[..k][i].0)
    {
      assert p[i] == p[..k][i] == q[..k][i] == q[i];
      assert p[i].0 != p[k].0 && q[i].0 != q[k].0;
    }
    ContrastSorts(p, q, k, x, y);
  }

  lemma {:induction false} SameLength(list: SortSpec)
    ensures |SortObject(list)| == |FirstMentions(list)|
  {
    if list == [] { return; }
    var n := |list| - 1;
    SameLength(list[..n]);
    SortObjectCorrect(list[..n]);
    FirstMentionsMention(list[..n], list[n].0);
    var spec := SortObject(list[..n]);
    EntryMentions(spec, list[n].0);
    if Mentions(spec, list[n].0) { SetOverwrites(spec, list[n].0, list[n].1); } else { SetGrows(spec, list[n].0, list[n].1); }
  }

  lemma {:induction false} SetGrows(spec: SortSpec, k: string, desc: bool)
    requires !Mentions(spec, k)
    ensures |SetEntry(spec, k, desc)| == |spec| + 1
  {
    if spec != [] {
      assert forall i | 0 <= i < |spec| - 1 :: spec[1..][i] == spec[i + 1];
      SetGrows(spec[1..], k, desc);
    }
  }

  lemma {:induction false} FirstMentionsMention(list: SortSpec, k: string)
    ensures Mentions(FirstMentions(list), k) <==> Mentions(list, k)
  {
    if list == [] { return; }
    var n := |list| - 1;
    FirstMentionsMention(list[..n], k);
    MentionsLast(list[..n], list[n], k);
    assert list == list[..n] + [list[n]];
    if !Mentions(FirstMentions(list[..n]), list[n].0) { MentionsLast(FirstMentions(list[..n]), list[n], k); }
  }

  lemma MentionsLast(spec: SortSpec, e: (string, bool), k: string)
    ensures Mentions(spec + [e], k) <==> Mentions(spec, k) || e.0 == k
  {
    var all := spec + [e];
    if Mentions(spec, k) {
      var i :| 0 <= i < |spec| && spec[i].0 == k;
      assert all[i].0 == k;
    }
    if e.0 == k { assert all[|spec|].0 == k; }
  }

  lemma {:induction false} FirstMentionsUnique(list: SortSpec)
    ensures Unique(FirstMentions(list))
  {
    if list != [] { FirstMentionsUnique(list[..|list| - 1]); }
  }

  lemma FirstMentionsSort(list: SortSpec, docs: seq<Doc>)
    ensures Sorted(list, docs) == Sorted(FirstMentions(list), docs)
  {
    forall x, y ensures SpecLess(list, x, y) == SpecLess(FirstMentions(list), x, y) { FirstMentionsOrder(list, x, y); }
    SortsAlike(list, FirstMentions(list), docs);
  }

  /** Under those conditions the object sorts as the list does. */
  lemma SortObjectFaithful(list: SortSpec, docs: seq<Doc>)
    requires IndicesFirst(FirstMentions(list)) && DirectionsKept(list)
    ensures Sorted(SortObject(list), docs) == Sorted(list, docs)
  {
    hide Sorted;
    ObjectIsListIff(list);
    FirstMentionsSort(list, docs);
  }

  /**
   * The translated ORDER BY sorts every collection as SQL does if and only if no column's last mention reverses its
   * first one and columns named like array indices are mentioned first, in ascending order.
   */
  lemma SortObjectFaithfulIff(list: SortSpec)
    ensures (forall docs: seq<Doc> | AllFlat(docs) :: Sorted(SortObject(list), docs) == Sorted(list, docs))
            <==> IndicesFirst(FirstMentions(list)) && DirectionsKept(list)
  {
    hide Sorted;
    var obj, first := SortObject(list), FirstMentions(list);
    ObjectIsListIff(list);
    forall docs: seq<Doc> ensures Sorted(list, docs) == Sorted(first, docs) { FirstMentionsSort(list, docs); }
    if obj != first {
      SameLength(list);
      SortObjectCorrect(list);
      EnumeratedIndices(obj);
      FirstMentionsUnique(list);
      var x, y := DifferentSpecsSortDifferently(obj, first);
      var docs := [x, y];
      assert AllFlat(docs) && Sorted(obj, docs) != Sorted(list, docs);
    }
  }

  /** Two documents that the first entry tells apart come out in its order. */
  lemma FirstDecides(spec: SortSpec, x: Doc, y: Doc)
    requires spec != [] && Flat(x) && Flat(y) && EntryLess(spec[0], x, y)
    ensures Sorted(spec, [x, y]) == [x, y] && Sorted(spec, [y, x]) == [x, y]
  {
    assert spec == [] + [spec[0]] + spec[1..];
    SpecLessAt([], spec[0], spec[1..], x, y);
    SpecLessAsymmetric(spec, x, y);
    SortOfTwo(spec, x, y);
    SortOfTwo(spec, y, x);
  }

  lemma UnfaithfulObjects()
    ensures SortObject([("a", false), ("b", false), ("a", true)]) == [("a", true), ("b", false)]
    ensures SortObject([("b", false), ("1", false)]) == [("1", false), ("b", false)]
  {
    var l := [("a", false), ("b", false), ("a", true)];
    assert l[..2] == [("a", false), ("b", false)] && l[..2][..1] == [("a", false)] && l[..2][..1][..0] == [];
    var m := [("b", false), ("1", false)];
    assert m[..1] == [("b", false)] && m[..1][..0] == [];
    assert !('0' <= "a"[0] <= '9') && !('0' <= "b"[0] <= '9');
    assert !IsIndex("a") && !IsIndex("b") && IsIndex("1");
    assert SortObject(l[..2][..1]) == [("a", false)];
    assert SetEntry([("a", false)], "b", false) == [("a", false)] + SetEntry([], "b", false);
    assert SortObject(l[..2]) == [("a", false), ("b", false)];
    assert SetEntry([("a", false), ("b", false)], "a", true) == [("a", true)] + [("a", false), ("b", false)][1..];
    assert SortObject(m[..1]) == [("b", false)];
  }

  /** `ORDER BY a, b, a DESC` and `ORDER BY b, 1` (a column named "1") swap two documents that SQL leaves in place. */
  lemma UnfaithfulSorts()
    ensures var x, y, l: SortSpec := map["a" := Num(1.0)], map["a" := Num(2.0)], [("a", false), ("b", false), ("a", true)];
            Sorted(l, [x, y]) == [x, y] && Sorted(SortObject(l), [x, y]) == [y, x]
    ensures var x, y, m: SortSpec := map["b" := Num(1.0), "1" := Num(2.0)], map["b" := Num(2.0), "1" := Num(1.0)], [("b", false), ("1", false)];
            Sorted(m, [x, y]) == [x, y] && Sorted(SortObject(m), [x, y]) == [y, x]
  {
    hide SortObject; hide Sorted;
    UnfaithfulObjects();
    var x, y: Doc := map["a" := Num(1.0)], map["a" := Num(2.0)];
    FirstDecides([("a", false), ("b", false), ("a", true)], x, y);
    FirstDecides([("a", true), ("b", false)], y, x);
    x, y := map["b" := Num(1.0), "1" := Num(2.0)], map["b" := Num(2.0), "1" := Num(1.0)];
    FirstDecides([("b", false), ("1", false)], x, y);
    FirstDecides([("1", false), ("b", false)], y, x);
  }
}
