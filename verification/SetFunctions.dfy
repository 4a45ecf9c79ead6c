/** The orders, sums and picks that both query languages share, said of the values themselves. */
module SetFunctions {
  import opened Values
  import opened Partition
  import opened Sql
  import opened Mongo
  import opened OrderSpec

  // ----- the order of values -----

  /** Text `s` comes before `t`: it ends where `t` goes on, or has the smaller character where they first differ. */
  ghost predicate TextBefore(s: string, t: string) {
    exists k :: 0 <= k <= |s| && k < |t| && SameTo(s, t, k) && (k == |s| || s[k] < t[k])
  }

  ghost predicate SameTo(s: string, t: string, k: nat)
    requires k <= |s| && k <= |t|
  {
    forall i | 0 <= i < k :: s[i] == t[i]
  }

  lemma {:induction false} TextOrderIff(s: string, t: string)
    ensures StrLess(s, t) <==> TextBefore(s, t)
  {
    if s != [] && t != [] && s[0] == t[0] {
      TextOrderIff(s[1..], t[1..]);
      if TextBefore(s[1..], t[1..]) {
        var k :| 0 <= k <= |s[1..]| && k < |t[1..]| && SameTo(s[1..], t[1..], k) && (k == |s[1..]| || s[1..][k] < t[1..][k]);
        forall i | 0 <= i < k + 1 ensures s[i] == t[i] { if i > 0 { assert s[1..][i - 1] == t[1..][i - 1]; } }
        assert SameTo(s, t, k + 1);
      }
      if TextBefore(s, t) {
        var k :| 0 <= k <= |s| && k < |t| && SameTo(s, t, k) && (k == |s| || s[k] < t[k]);
        assert k > 0 && SameTo(s[1..], t[1..], k - 1);
      }
    } else if t != [] && (s == [] || s[0] < t[0]) {
      assert SameTo(s, t, 0);
    }
  }

  /** NULL comes first, then numbers by size, texts by character, documents, arrays, FALSE and TRUE. */
  lemma OrderIff(a: Value, b: Value)
    ensures Less(a, b)
            <==> match a
                 case Null => b != Null
                 case Num(n) => if b.Num? then n < b.n else b != Null
                 case Str(s) => if b.Str? then TextBefore(s, b.s) else b.Obj? || b.Arr? || b.Bool?
                 case Obj(_) => b.Arr? || b.Bool?
                 case Arr(_) => b.Bool?
                 case Bool(x) => b == Bool(true) && !x
  {
    if a.Str? && b.Str? { TextOrderIff(a.s, b.s); }
  }

  // ----- set functions -----

  ghost predicate AreScalars(vs: seq<Value>) { forall i | 0 <= i < |vs| :: Scalar(vs[i]) && vs[i] != Null }

  /** MIN is one of the values, and none is smaller. */
  lemma {:induction false} LeastIs(vs: seq<Value>)
    requires AreScalars(vs) && vs != []
    ensures Least(vs) in vs && forall v | v in vs :: !Less(v, Least(vs))
  {
    if |vs| > 1 {
      LeastIs(vs[1..]);
      var m := Least(vs[1..]);
      assert Scalar(m) && m != Null by { var i :| 0 <= i < |vs[1..]| && vs[1..][i] == m; assert Scalar(vs[i + 1]); }
      forall v | v in vs ensures !Less(v, Least(vs)) {
        var i :| 0 <= i < |vs| && vs[i] == v;
        Ordered3(v, vs[0], m);
        if i > 0 { assert v == vs[1..][i - 1]; }
      }
    } else {
      Trichotomy(vs[0], vs[0]);
      assert vs[1..] == [];
    }
  }

  /** MAX is one of the values, and none is larger. */
  lemma {:induction false} GreatestIs(vs: seq<Value>)
    requires AreScalars(vs) && vs != []
    ensures Greatest(vs) in vs && forall v | v in vs :: !Less(Greatest(vs), v)
  {
    if |vs| > 1 {
      GreatestIs(vs[1..]);
      var m := Greatest(vs[1..]);
      assert Scalar(m) && m != Null by { var i :| 0 <= i < |vs[1..]| && vs[1..][i] == m; assert Scalar(vs[i + 1]); }
      forall v | v in vs ensures !Less(Greatest(vs), v) {
        var i :| 0 <= i < |vs| && vs[i] == v;
        Ordered3(v, vs[0], m);
        if i > 0 { assert v == vs[1..][i - 1]; }
      }
    } else {
      Trichotomy(vs[0], vs[0]);
      assert vs[1..] == [];
    }
  }

  lemma Ordered3(v: Value, x: Value, m: Value)
    requires Scalar(v) && Scalar(x) && Scalar(m)
    ensures !Less(v, v) && !Less(x, x)
    ensures !(Less(m, x) && Less(x, m))
    ensures !Less(v, m) && !Less(m, x) ==> !Less(v, x)
    ensures !Less(m, v) && !Less(x, m) ==> !Less(x, v)
  {
    Trichotomy(v, x); Trichotomy(x, m); Trichotomy(v, m); Trichotomy(v, v); Trichotomy(x, x);
    if Less(v, x) && Less(x, m) { Transitive(v, x, m); }
    if Less(x, v) && Less(m, x) { Transitive(m, x, v); }
    if Less(v, x) && Less(m, v) { Transitive(m, v, x); }
    if Less(x, v) && Less(v, m) { Transitive(x, v, m); }
  }

  /** Sums add up, and one number sums to itself. */
  lemma {:induction false} TotalAdds(a: seq<Value>, b: seq<Value>)
    ensures Total(a + b) == Total(a) + Total(b)
    ensures forall n: real :: Total([Num(n)]) == n
  {
    forall n: real ensures Total([Num(n)]) == n { assert [Num(n)][1..] == []; }
    if a == [] {
      assert a + b == b;
    } else {
      TotalAdds(a[1..], b);
      assert (a + b)[1..] == a[1..] + b;
    }
  }

  // ----- groups -----

  /** `at` lists, in order, where the rows with key `k` stand, and `group` has those rows. */
  ghost predicate StandsAt<K, T>(rows: seq<T>, keys: seq<K>, k: K, group: seq<T>, at: seq<nat>)
    requires |rows| == |keys|
  {
    && |group| == |at|
    && (forall i | 0 <= i < |at| :: at[i] < |rows| && keys[at[i]] == k && group[i] == rows[at[i]])
    && (forall i, j | 0 <= i < j < |at| :: at[i] < at[j])
    && (forall j | 0 <= j < |rows| && keys[j] == k :: j in at)
  }

  /** The rows of a group are those with its key, each once and in their order. */
  lemma {:induction false} MembersStand<K, T>(rows: seq<T>, keys: seq<K>, k: K) returns (at: seq<nat>)
    requires |rows| == |keys|
    ensures StandsAt(rows, keys, k, Members(rows, keys, k), at)
  {
    hide StandsAt; hide StandsFrom1;
    if rows == [] {
      at := [];
      NothingStands(rows, keys, k);
    } else {
      var rest := MembersStand(rows[1..], keys[1..], k);
      var moved := seq(|rest|, i requires 0 <= i < |rest| => rest[i] + 1);
      at := if keys[0] == k then [0] + moved else moved;
      StandsFurther(rows, keys, k, Members(rows[1..], keys[1..], k), rest, moved);
      if keys[0] == k { StandsFirst(rows, keys, k, Members(rows[1..], keys[1..], k), moved); }
      else { StandsSkipped(rows, keys, k, Members(rows[1..], keys[1..], k), moved); }
    }
  }

  lemma NothingStands<K, T>(rows: seq<T>, keys: seq<K>, k: K)
    requires rows == [] && keys == []
    ensures StandsAt(rows, keys, k, [], [])
  {
  }

  /** One row more in front moves every position on; it may itself be missing from the list. */
  ghost predicate StandsFrom1<K, T>(rows: seq<T>, keys: seq<K>, k: K, group: seq<T>, at: seq<nat>)
    requires |rows| == |keys|
  {
    && |group| == |at|
    && (forall i | 0 <= i < |at| :: 0 < at[i] < |rows| && keys[at[i]] == k && group[i] == rows[at[i]])
    && (forall i, j | 0 <= i < j < |at| :: at[i] < at[j])
    && (forall j | 0 < j < |rows| && keys[j] == k :: j in at)
  }

  lemma StandsFurther<K, T>(rows: seq<T>, keys: seq<K>, k: K, group: seq<T>, rest: seq<nat>, moved: seq<nat>)
    requires |rows| == |keys| > 0 && StandsAt(rows[1..], keys[1..], k, group, rest)
    requires |moved| == |rest| && forall i | 0 <= i < |rest| :: moved[i] == rest[i] + 1
    ensures StandsFrom1(rows, keys, k, group, moved)
  {
    assert forall i | 0 <= i < |rest| :: keys[1..][rest[i]] == keys[moved[i]] && rows[1..][rest[i]] == rows[moved[i]];
    forall j | 0 < j < |rows| && keys[j] == k ensures j in moved {
      assert keys[1..][j - 1] == k;
      var i :| 0 <= i < |rest| && rest[i] == j - 1;
      assert moved[i] == j;
    }
  }

  lemma StandsSkipped<K, T>(rows: seq<T>, keys: seq<K>, k: K, group: seq<T>, at: seq<nat>)
    requires |rows| == |keys| > 0 && StandsFrom1(rows, keys, k, group, at) && keys[0] != k
    ensures StandsAt(rows, keys, k, group, at)
  {
  }

  lemma StandsFirst<K, T>(rows: seq<T>, keys: seq<K>, k: K, group: seq<T>, at: seq<nat>)
    requires |rows| == |keys| > 0 && StandsFrom1(rows, keys, k, group, at) && keys[0] == k
    ensures StandsAt(rows, keys, k, [rows[0]] + group, [0] + at)
  {
    forall j | 0 <= j < |rows| && keys[j] == k ensures j in [0] + at { if j > 0 { assert j in at; } }
  }

  // ----- numerals -----

  /** What a string of digits reads as. */
  function NumeralValue(s: string): int {
    if s == "" then 0 else 10 * NumeralValue(s[..|s| - 1]) + (s[|s| - 1] as int - '0' as int)
  }

  /** Printed numbers read back, without leading zeros. */
  lemma {:induction false} DecReads(n: nat)
    ensures NumeralValue(Dec(n)) == n && (Dec(n)[0] == '0' <==> n == 0)
  {
    var s := Dec(n);
    DigitIs(n % 10);
    if n < 10 {
      assert s[..|s| - 1] == "" && NumeralValue("") == 0;
    } else {
      DecReads(n / 10);
      assert s[..|s| - 1] == Dec(n / 10);
      assert s[0] == Dec(n / 10)[0];
    }
  }

  lemma DigitIs(i: nat)
    requires i < 10
    ensures DIGITS[i] as int == '0' as int + i
  {
  }

  predicate IsNumeral(s: string) { s != "" && Digits(s) && (|s| == 1 || s[0] != '0') }

  lemma DecAppends(v: nat, d: nat)
    requires v > 0 && d < 10
    ensures Dec(10 * v + d) == Dec(v) + [DIGITS[d]]
  {
    assert (10 * v + d) / 10 == v && (10 * v + d) % 10 == d;
  }

  lemma ValueStep(s: string)
    requires s != ""
    ensures NumeralValue(s) == 10 * NumeralValue(s[..|s| - 1]) + (s[|s| - 1] as int - '0' as int)
  {
  }

  lemma OneDigitPrints(s: string)
    requires |s| == 1 && Digits(s)
    ensures NumeralValue(s) >= 0 && Dec(NumeralValue(s)) == s && (s[0] != '0' ==> NumeralValue(s) > 0)
  {
    OneDigit(s);
    DigitIs(NumeralValue(s));
    assert s == [s[0]];
  }

  /** A numeral without leading zeros is how its value prints. */
  lemma {:induction false} NumeralPrints(s: string)
    requires IsNumeral(s)
    ensures NumeralValue(s) >= 0 && Dec(NumeralValue(s)) == s && (s[0] != '0' ==> NumeralValue(s) > 0)
  {
    hide Dec; hide NumeralValue;
    if |s| == 1 {
      OneDigitPrints(s);
    } else {
      var p, last := s[..|s| - 1], s[|s| - 1];
      var d := last as int - '0' as int;
      PrefixNumeral(s);
      NumeralPrints(p);
      ValueStep(s);
      DigitIs(d);
      DecAppends(NumeralValue(p), d);
      assert s == p + [last];
    }
  }

  lemma PrefixNumeral(s: string)
    requires IsNumeral(s) && |s| > 1
    ensures IsNumeral(s[..|s| - 1]) && s[..|s| - 1][0] != '0'
  {
    var p := s[..|s| - 1];
    forall i | 0 <= i < |p| ensures p[i] == s[i] {}
  }

  lemma {:induction false} DecIsNumeral(n: nat)
    ensures IsNumeral(Dec(n))
  {
    DecReads(n);
    DecDigits(n);
    if n < 10 { assert |Dec(n)| == 1; }
  }

  lemma {:induction false} DecDigits(n: nat)
    ensures Digits(Dec(n)) && (|Dec(n)| == 1 <==> n < 10)
  {
    DigitIs(n % 10);
    if n >= 10 {
      DecDigits(n / 10);
      assert |Dec(n)| == |Dec(n / 10)| + 1;
    }
  }

  lemma {:induction false} LastDiffers(p: string, a: char, q: string, b: char)
    requires |p| == |q|
    ensures StrLess(p + [a], q + [b]) <==> StrLess(p, q) || (p == q && a < b)
  {
    if p == "" {
      assert p + [a] == [a] && q + [b] == [b];
      assert [a][1..] == [] && [b][1..] == [];
    } else {
      LastDiffers(p[1..], a, q[1..], b);
      assert (p + [a])[1..] == p[1..] + [a] && (q + [b])[1..] == q[1..] + [b];
      assert p == [p[0]] + p[1..] && q == [q[0]] + q[1..];
    }
  }

  /** Numerals are compared by length, then by character: that is by value. */
  lemma {:induction false} NumeralLessIff(s: string, t: string)
    requires IsNumeral(s) && IsNumeral(t)
    ensures NumeralLess(s, t) <==> NumeralValue(s) < NumeralValue(t)
  {
    NumeralPrints(s);
    NumeralPrints(t);
    if |s| > 1 && |t| > 1 {
      var p, q := s[..|s| - 1], t[..|t| - 1];
      PrefixNumeral(s);
      PrefixNumeral(t);
      NumeralPrints(p);
      NumeralPrints(q);
      NumeralLessIff(p, q);
      assert s == p + [s[|s| - 1]] && t == q + [t[|t| - 1]];
      if |p| == |q| { LastDiffers(p, s[|s| - 1], q, t[|t| - 1]); }
    } else if |s| > 1 {
      PrefixNumeral(s);
      NumeralPrints(s[..|s| - 1]);
      OneDigit(t);
    } else if |t| > 1 {
      PrefixNumeral(t);
      NumeralPrints(t[..|t| - 1]);
      OneDigit(s);
    } else {
      OneDigit(s);
      OneDigit(t);
      assert s[1..] == [] && t[1..] == [] && !StrLess([], []);
    }
  }

  lemma OneDigit(s: string)
    requires |s| == 1
    ensures NumeralValue(s) == s[0] as int - '0' as int
  {
    assert s[..0] == "" && NumeralValue("") == 0;
  }

  /** The property names JavaScript enumerates first: the integers from 0 to 2^32 - 2 as they print. */
  lemma IndexIff(s: string)
    ensures IsIndex(s) <==> exists n: nat :: n < 4294967295 && s == Dec(n)
  {
    hide Dec; hide NumeralLess;
    BoundIs();
    if IsIndex(s) {
      NumeralPrints(s);
      NumeralLessIff(s, "4294967295");
    }
    if n: nat :| n < 4294967295 && s == Dec(n) {
      DecIsNumeral(n);
      DecReads(n);
      NumeralLessIff(s, "4294967295");
    }
  }

  lemma BoundIs()
    ensures IsNumeral("4294967295") && NumeralValue("4294967295") == 4294967295
  {
    var s := "4294967295";
    assert s[..9][..8] == "42949672" && s[..9] == "429496729";
    assert "42949672"[..7] == "4294967" && "4294967"[..6] == "429496" && "429496"[..5] == "42949" && "42949"[..4] == "4294";
    assert "4294"[..3] == "429" && "429"[..2] == "42" && "42"[..1] == "4" && "4"[..0] == "";
    assert NumeralValue("4") == 4;
    assert NumeralValue("42") == 42;
    assert NumeralValue("429") == 429;
    assert NumeralValue("4294") == 4294;
    assert NumeralValue("42949") == 42949;
    assert NumeralValue("429496") == 429496;
    assert NumeralValue("4294967") == 4294967;
    assert NumeralValue("42949672") == 42949672;
    assert NumeralValue("429496729") == 429496729;
  }

  /** They are enumerated by value. */
  lemma IndexOrder(m: nat, n: nat)
    requires m < 4294967295 && n < 4294967295
    ensures Precedes(Dec(m), Dec(n)) <==> m < n
  {
    hide Dec; hide NumeralLess; hide IsIndex;
    IndexIff(Dec(m));
    IndexIff(Dec(n));
    DecIsNumeral(m);
    DecIsNumeral(n);
    DecReads(m);
    DecReads(n);
    NumeralLessIff(Dec(m), Dec(n));
  }
}
