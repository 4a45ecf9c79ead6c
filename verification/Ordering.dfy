/** The stable sort behind ORDER BY and `$sort`: it depends on the sort keys only, so it is a permutation of positions. */
module Ordering {
  import opened Values

  type Key = seq<Value>

  /** Lexicographic comparison; `desc[i]` reverses the i-th component. */
  predicate KeyLess(a: Key, b: Key, desc: seq<bool>)
    requires |a| == |b| == |desc|
  {
    a != [] &&
    (if a[0] == b[0] then KeyLess(a[1..], b[1..], desc[1..])
     else if desc[0] then Less(b[0], a[0]) else Less(a[0], b[0]))
  }

  predicate InRange(perm: seq<nat>, n: nat) { forall i | 0 <= i < |perm| :: perm[i] < n }

  ghost predicate ScalarKey(k: Key) { forall j | 0 <= j < |k| :: Scalar(k[j]) }

  ghost predicate Keyed(keys: seq<Key>, desc: seq<bool>) {
    Sized(keys, desc) && forall i | 0 <= i < |keys| :: ScalarKey(keys[i])
  }

  ghost predicate Sized(keys: seq<Key>, desc: seq<bool>) { forall i | 0 <= i < |keys| :: |keys[i]| == |desc| }

  /** Insert position `x` before the first position with a strictly larger key. */
  function Insert(perm: seq<nat>, keys: seq<Key>, desc: seq<bool>, x: nat): (r: seq<nat>)
    requires Sized(keys, desc) && x < |keys| && InRange(perm, |keys|)
    ensures |r| == |perm| + 1 && InRange(r, |keys|)
  {
    if perm == [] then [x]
    else if KeyLess(keys[x], keys[perm[0]], desc) then [x] + perm
    else [perm[0]] + Insert(perm[1..], keys, desc, x)
  }

  /** The positions 0..n in sorted order. */
  function SortPrefix(keys: seq<Key>, desc: seq<bool>, n: nat): (r: seq<nat>)
    requires Sized(keys, desc) && n <= |keys|
    ensures |r| == n && InRange(r, |keys|)
  {
    if n == 0 then [] else Insert(SortPrefix(keys, desc, n - 1), keys, desc, n - 1)
  }

  function SortOrder(keys: seq<Key>, desc: seq<bool>): (r: seq<nat>)
    requires Sized(keys, desc)
    ensures |r| == |keys| && InRange(r, |keys|)
  {
    SortPrefix(keys, desc, |keys|)
  }

  function Pick<T>(items: seq<T>, order: seq<nat>): (r: seq<T>)
    requires InRange(order, |items|)
    ensures |r| == |order| && forall i | 0 <= i < |r| :: r[i] == items[order[i]]
  {
    seq(|order|, i requires 0 <= i < |order| => items[order[i]])
  }

  // ----- the sort is a stable sort -----

  lemma {:induction false} KeyTrichotomy(a: Key, b: Key, desc: seq<bool>)
    requires |a| == |b| == |desc|
    requires ScalarKey(a) && ScalarKey(b)
    ensures a == b ==> !KeyLess(a, b, desc)
    ensures a != b ==> (KeyLess(a, b, desc) <==> !KeyLess(b, a, desc))
  {
    if a != [] {
      Trichotomy(a[0], b[0]);
      assert a == [a[0]] + a[1..] && b == [b[0]] + b[1..];
      KeyTrichotomy(a[1..], b[1..], desc[1..]);
    }
  }

  lemma {:induction false} KeyTransitive(a: Key, b: Key, c: Key, desc: seq<bool>)
    requires |a| == |b| == |c| == |desc|
    requires ScalarKey(a) && ScalarKey(b) && ScalarKey(c)
    requires KeyLess(a, b, desc) && KeyLess(b, c, desc)
    ensures KeyLess(a, c, desc)
  {
    Trichotomy(a[0], b[0]); Trichotomy(b[0], c[0]); Trichotomy(a[0], c[0]);
    if a[0] == b[0] && b[0] == c[0] {
      KeyTransitive(a[1..], b[1..], c[1..], desc[1..]);
    } else if a[0] != b[0] && b[0] != c[0] {
      if desc[0] { Transitive(c[0], b[0], a[0]); } else { Transitive(a[0], b[0], c[0]); }
    }
  }

  /** p may stand before q: smaller key, or equal keys and the original order. */
  ghost predicate Before(keys: seq<Key>, desc: seq<bool>, p: nat, q: nat)
    requires Sized(keys, desc) && p < |keys| && q < |keys|
  {
    KeyLess(keys[p], keys[q], desc) || (keys[p] == keys[q] && p < q)
  }

  ghost predicate SortedOrder(perm: seq<nat>, keys: seq<Key>, desc: seq<bool>)
    requires Sized(keys, desc) && InRange(perm, |keys|)
  {
    forall i, j | 0 <= i < j < |perm| :: Before(keys, desc, perm[i], perm[j])
  }

  lemma {:induction false} InsertPermutes(perm: seq<nat>, keys: seq<Key>, desc: seq<bool>, x: nat)
    requires Sized(keys, desc) && x < |keys| && InRange(perm, |keys|)
    ensures multiset(Insert(perm, keys, desc, x)) == multiset(perm) + multiset{x}
  {
    if perm != [] {
      assert perm == [perm[0]] + perm[1..];
      if !KeyLess(keys[x], keys[perm[0]], desc) { InsertPermutes(perm[1..], keys, desc, x); }
    }
  }

  lemma BeforeHead(keys: seq<Key>, desc: seq<bool>, x: nat, y: nat, z: nat)
    requires Keyed(keys, desc) && x < |keys| && y < |keys| && z < |keys|
    requires KeyLess(keys[x], keys[y], desc) && Before(keys, desc, y, z)
    ensures Before(keys, desc, x, z)
  {
    if keys[y] != keys[z] { KeyTransitive(keys[x], keys[y], keys[z], desc); }
  }

  lemma {:induction false} InsertSorted(perm: seq<nat>, keys: seq<Key>, desc: seq<bool>, x: nat)
    requires Keyed(keys, desc) && x < |keys| && InRange(perm, x)
    requires SortedOrder(perm, keys, desc)
    ensures SortedOrder(Insert(perm, keys, desc, x), keys, desc)
  {
    if perm == [] { return; }
    var y := perm[0];
    KeyTrichotomy(keys[x], keys[y], desc);
    if KeyLess(keys[x], keys[y], desc) {
      forall j | 0 <= j < |perm| ensures Before(keys, desc, x, perm[j]) {
        if j > 0 { BeforeHead(keys, desc, x, y, perm[j]); }
      }
    } else {
      var rest := Insert(perm[1..], keys, desc, x);
      InsertSorted(perm[1..], keys, desc, x);
      InsertPermutes(perm[1..], keys, desc, x);
      forall j | 0 <= j < |rest| ensures Before(keys, desc, y, rest[j]) {
        assert rest[j] in multiset(rest);
        if rest[j] != x {
          assert rest[j] in perm[1..];
        }
      }
    }
  }

  function Iota(n: nat): (r: seq<nat>)
    ensures |r| == n && forall i | 0 <= i < n :: r[i] == i
  {
    if n == 0 then [] else Iota(n - 1) + [n - 1]
  }

  lemma {:induction false} InsertInRange(perm: seq<nat>, keys: seq<Key>, desc: seq<bool>, x: nat)
    requires Sized(keys, desc) && x < |keys| && InRange(perm, |keys|) && InRange(perm, x)
    ensures InRange(Insert(perm, keys, desc, x), x + 1)
  {
    hide KeyLess; hide Sized;
    if perm != [] { InsertInRange(perm[1..], keys, desc, x); }
  }

  lemma IotaStep(n: nat)
    ensures multiset(Iota(n + 1)) == multiset(Iota(n)) + multiset{n}
  {
    assert Iota(n + 1) == Iota(n) + [n];
  }

  lemma SortPrefixStep(keys: seq<Key>, desc: seq<bool>, n: nat)
    requires Sized(keys, desc) && n < |keys|
    ensures SortPrefix(keys, desc, n + 1) == Insert(SortPrefix(keys, desc, n), keys, desc, n)
  {
    hide Insert; hide Sized; hide InRange;
  }

  lemma NothingPermutes(keys: seq<Key>, desc: seq<bool>)
    requires Sized(keys, desc)
    ensures SortPrefix(keys, desc, 0) == [] && Iota(0) == [] && InRange([], 0)
  {
  }

  /** Position `n` joins the positions before it. */
  lemma PermuteStep(r: seq<nat>, keys: seq<Key>, desc: seq<bool>, n: nat)
    requires Sized(keys, desc) && n < |keys| && InRange(r, |keys|)
    requires multiset(r) == multiset(Iota(n)) && InRange(r, n)
    ensures multiset(Insert(r, keys, desc, n)) == multiset(Iota(n + 1)) && InRange(Insert(r, keys, desc, n), n + 1)
  {
    hide Insert; hide Sized; hide InRange; hide Iota;
    InsertPermutes(r, keys, desc, n);
    InsertInRange(r, keys, desc, n);
    IotaStep(n);
  }

  lemma {:induction false} SortPermutes(keys: seq<Key>, desc: seq<bool>, n: nat)
    requires Sized(keys, desc) && n <= |keys|
    ensures multiset(SortPrefix(keys, desc, n)) == multiset(Iota(n))
    ensures InRange(SortPrefix(keys, desc, n), n)
  {
    hide SortPrefix; hide Insert; hide Sized; hide InRange; hide Iota;
    if n == 0 {
      NothingPermutes(keys, desc);
    } else {
      SortPermutes(keys, desc, n - 1);
      SortPrefixStep(keys, desc, n - 1);
      PermuteStep(SortPrefix(keys, desc, n - 1), keys, desc, n - 1);
    }
  }

  lemma {:induction false} SortSorts(keys: seq<Key>, desc: seq<bool>, n: nat)
    requires Keyed(keys, desc) && n <= |keys|
    ensures SortedOrder(SortPrefix(keys, desc, n), keys, desc)
  {
    if n == 0 { return; }
    KeyedSized(keys, desc);
    SortSorts(keys, desc, n - 1);
    SortStep(keys, desc, n - 1);
  }

  lemma KeyedSized(keys: seq<Key>, desc: seq<bool>)
    requires Keyed(keys, desc)
    ensures Sized(keys, desc)
  {
  }

  lemma SortStep(keys: seq<Key>, desc: seq<bool>, n: nat)
    requires Keyed(keys, desc) && n < |keys| && SortedOrder(SortPrefix(keys, desc, n), keys, desc)
    ensures SortedOrder(SortPrefix(keys, desc, n + 1), keys, desc)
  {
    hide SortPrefix; hide Insert; hide Sized; hide InRange; hide SortedOrder; hide ScalarKey;
    SortPermutes(keys, desc, n);
    SortPrefixStep(keys, desc, n);
    InsertSorted(SortPrefix(keys, desc, n), keys, desc, n);
  }

  /** ORDER BY's meaning: every row once, smaller keys first, rows with equal keys in their original order. */
  lemma SortOrderIsStableSort(keys: seq<Key>, desc: seq<bool>)
    requires Keyed(keys, desc)
    ensures SortedOrder(SortOrder(keys, desc), keys, desc)
    ensures multiset(SortOrder(keys, desc)) == multiset(Iota(|keys|))
  {
    SortSorts(keys, desc, |keys|);
    SortPermutes(keys, desc, |keys|);
  }

  // ----- what the sort depends on -----

  /** Two key lists that compare alike sort alike. */
  lemma {:induction false} SortPrefixCongruent(k1: seq<Key>, d1: seq<bool>, k2: seq<Key>, d2: seq<bool>, n: nat)
    requires Sized(k1, d1) && Sized(k2, d2) && |k1| == |k2| && n <= |k1|
    requires forall i, j | 0 <= i < |k1| && 0 <= j < |k1| :: KeyLess(k1[i], k1[j], d1) == KeyLess(k2[i], k2[j], d2)
    ensures SortPrefix(k1, d1, n) == SortPrefix(k2, d2, n)
  {
    if n > 0 {
      SortPrefixCongruent(k1, d1, k2, d2, n - 1);
      InsertCongruent(SortPrefix(k1, d1, n - 1), k1, d1, k2, d2, n - 1);
    }
  }

  lemma {:induction false} InsertCongruent(perm: seq<nat>, k1: seq<Key>, d1: seq<bool>, k2: seq<Key>, d2: seq<bool>, x: nat)
    requires Sized(k1, d1) && Sized(k2, d2) && |k1| == |k2| && x < |k1| && InRange(perm, |k1|)
    requires forall i, j | 0 <= i < |k1| && 0 <= j < |k1| :: KeyLess(k1[i], k1[j], d1) == KeyLess(k2[i], k2[j], d2)
    ensures Insert(perm, k1, d1, x) == Insert(perm, k2, d2, x)
  {
    if perm != [] { InsertCongruent(perm[1..], k1, d1, k2, d2, x); }
  }
}
