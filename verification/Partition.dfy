/** Partitioning rows by key, groups in order of first appearance. */
module Partition {

  function Distinct<K(==,!new)>(keys: seq<K>): (r: seq<K>)
    ensures forall k :: k in r <==> k in keys
    ensures forall i, j | 0 <= i < j < |r| :: r[i] != r[j]
  {
    if keys == [] then []
    else
      var r := Distinct(keys[..|keys| - 1]);
      var last := keys[|keys| - 1];
      assert keys == keys[..|keys| - 1] + [last];
      if last in r then r else r + [last]
  }

  /** The rows whose key is `k`, in their original order. */
  function Members<K(==), T>(rows: seq<T>, keys: seq<K>, k: K): (r: seq<T>)
    requires |rows| == |keys|
    ensures |r| <= |rows|
    ensures k in keys ==> r != []
  {
    if rows == [] then []
    else
      var rest := Members(rows[1..], keys[1..], k);
      if keys[0] == k then [rows[0]] + rest else rest
  }

  function Sum(ns: seq<nat>): nat { if ns == [] then 0 else ns[0] + Sum(ns[1..]) }

  function Sizes<K(==), T>(rows: seq<T>, keys: seq<K>, ks: seq<K>): (r: seq<nat>)
    requires |rows| == |keys|
    ensures |r| == |ks|
  {
    seq(|ks|, i requires 0 <= i < |ks| && |rows| == |keys| => |Members(rows, keys, ks[i])|)
  }

  lemma {:induction false} SizesOfTail<K, T>(rows: seq<T>, keys: seq<K>, ks: seq<K>)
    requires |rows| == |keys| > 0
    requires forall i, j | 0 <= i < j < |ks| :: ks[i] != ks[j]
    ensures Sum(Sizes(rows, keys, ks)) == Sum(Sizes(rows[1..], keys[1..], ks)) + if keys[0] in ks then 1 else 0
  {
    if ks != [] {
      SizesOfTail(rows, keys, ks[1..]);
      assert Sizes(rows, keys, ks)[1..] == Sizes(rows, keys, ks[1..]);
      assert Sizes(rows[1..], keys[1..], ks)[1..] == Sizes(rows[1..], keys[1..], ks[1..]);
    }
  }

  /** Conservation: over any duplicate-free list that covers all keys, group sizes add up to the number of rows. */
  lemma {:induction false} GroupsCoverRows<K, T>(rows: seq<T>, keys: seq<K>, ks: seq<K>)
    requires |rows| == |keys|
    requires forall i, j | 0 <= i < j < |ks| :: ks[i] != ks[j]
    requires forall k | k in keys :: k in ks
    ensures Sum(Sizes(rows, keys, ks)) == |rows|
  {
    if rows == [] {
      AllEmpty(rows, keys, ks);
    } else {
      GroupsCoverRows(rows[1..], keys[1..], ks);
      SizesOfTail(rows, keys, ks);
    }
  }

  lemma {:induction false} AllEmpty<K, T>(rows: seq<T>, keys: seq<K>, ks: seq<K>)
    requires rows == [] && keys == []
    ensures Sum(Sizes(rows, keys, ks)) == 0
  {
    if ks != [] {
      AllEmpty(rows, keys, ks[1..]);
      assert Sizes(rows, keys, ks)[1..] == Sizes(rows, keys, ks[1..]);
    }
  }
}
