/** Scalars, documents and the orders on them that both query languages share. */
module Values {

  datatype Option<+T> = None | Some(value: T)

  /** `Rejected` stands for the source's `fail(...)`: the statement is refused with a validation error. */
  datatype Result<+T> = Ok(value: T) | Rejected {
    predicate IsFailure() { Rejected? }
    function PropagateFailure<U>(): Result<U> requires Rejected? { Rejected }
    function Extract(): T requires Ok? { value }
  }

  datatype Value =
    | Null
    | Num(n: real)
    | Str(s: string)
    | Bool(b: bool)
    | Obj(fields: map<string, Value>)
    | Arr(items: seq<Value>)

  /** A document maps a field path to its value; a field that is absent is "missing", which is not null. */
  type Doc = map<string, Value>

  predicate Scalar(v: Value) { !v.Obj? && !v.Arr? }

  /** No field of a flat document holds an object or an array. */
  ghost predicate Flat(d: Doc) { forall f | f in d :: Scalar(d[f]) }

  ghost predicate AllFlat(docs: seq<Doc>) { forall i | 0 <= i < |docs| :: Flat(docs[i]) }

  /** No document has an object or an array in the field. */
  ghost predicate ScalarField(f: string, docs: seq<Doc>) { forall i | 0 <= i < |docs| :: Scalar(Read(docs[i], f)) }

  ghost predicate ScalarFields(fs: seq<string>, docs: seq<Doc>) { forall k | 0 <= k < |fs| :: ScalarField(fs[k], docs) }

  ghost predicate From(some: seq<Doc>, docs: seq<Doc>) { forall i | 0 <= i < |some| :: some[i] in docs }

  lemma ScalarFieldsFrom(fs: seq<string>, docs: seq<Doc>, some: seq<Doc>)
    requires ScalarFields(fs, docs) && From(some, docs)
    ensures ScalarFields(fs, some)
  {
    forall k, i | 0 <= k < |fs| && 0 <= i < |some| ensures Scalar(Read(some[i], fs[k])) {
      assert ScalarField(fs[k], docs) && some[i] in docs;
    }
  }

  lemma FlatFields(fs: seq<string>, docs: seq<Doc>)
    requires AllFlat(docs)
    ensures ScalarFields(fs, docs)
  {
    forall k, i | 0 <= k < |fs| && 0 <= i < |docs| ensures Scalar(Read(docs[i], fs[k])) { assert Flat(docs[i]); }
  }

  /** SQL sees a missing field as NULL. */
  function Read(d: Doc, field: string): Value {
    if field in d then d[field] else Null
  }

  function Rank(v: Value): nat {
    match v
    case Null => 0
    case Num(_) => 1
    case Str(_) => 2
    case Obj(_) => 3
    case Arr(_) => 4
    case Bool(_) => 5
  }

  predicate StrLess(s: string, t: string) {
    t != [] && (s == [] || s[0] < t[0] || (s[0] == t[0] && StrLess(s[1..], t[1..])))
  }

  /** One order on all scalars, null smallest. */
  predicate Less(a: Value, b: Value) {
    if Rank(a) != Rank(b) then Rank(a) < Rank(b)
    else match a
      case Num(n) => n < b.n
      case Str(s) => StrLess(s, b.s)
      case Bool(x) => !x && b.b
      case _ => false
  }

  lemma {:induction false} StrTrichotomy(s: string, t: string)
    ensures s == t ==> !StrLess(s, t)
    ensures s != t ==> (StrLess(s, t) <==> !StrLess(t, s))
  {
    if s != [] && t != [] && s[0] == t[0] {
      assert s == [s[0]] + s[1..] && t == [t[0]] + t[1..];
      StrTrichotomy(s[1..], t[1..]);
    }
  }

  lemma {:induction false} StrTransitive(s: string, t: string, u: string)
    requires StrLess(s, t) && StrLess(t, u)
    ensures StrLess(s, u)
  {
    if s != [] && s[0] == t[0] && t[0] == u[0] {
      StrTransitive(s[1..], t[1..], u[1..]);
    }
  }

  /** The values `Less` orders: not two arrays, nor two objects. */
  predicate Comparable(a: Value, b: Value) { Rank(a) != Rank(b) || Scalar(a) }

  /** `Less` is a strict total order on scalars, and places arrays and objects among them. */
  lemma Trichotomy(a: Value, b: Value)
    requires Comparable(a, b)
    ensures a == b ==> !Less(a, b)
    ensures a != b ==> (Less(a, b) <==> !Less(b, a))
  {
    if a.Str? && b.Str? { StrTrichotomy(a.s, b.s); }
  }

  lemma Transitive(a: Value, b: Value, c: Value)
    requires Less(a, b) && Less(b, c)
    ensures Less(a, c)
  {
    if a.Str? && b.Str? && c.Str? { StrTransitive(a.s, b.s, c.s); }
  }

  /** Position of the first occurrence, as JavaScript's `indexOf`. */
  function IndexOf<T(==)>(xs: seq<T>, x: T): (r: Option<nat>)
    ensures r.None? <==> x !in xs
    ensures r.Some? ==> r.value < |xs| && xs[r.value] == x && forall i | 0 <= i < r.value :: xs[i] != x
  {
    if xs == [] then None
    else if xs[0] == x then Some(0)
    else match IndexOf(xs[1..], x)
      case None => None
      case Some(i) => Some(i + 1)
  }

  // ----- sizes -----

  lemma SubsetSize<T>(a: set<T>, b: set<T>)
    requires a <= b
    ensures |a| <= |b|
  {
    if a != {} {
      var x :| x in a;
      SubsetSize(a - {x}, b - {x});
    }
  }

  // ----- decimal numerals, used in generated slot names -----

  const DIGITS: string := "0123456789"

  function Dec(n: nat): (s: string)
    ensures |s| > 0 && forall c | c in s :: c in DIGITS
  {
    if n < 10 then [DIGITS[n]] else Dec(n / 10) + [DIGITS[n % 10]]
  }

  lemma DigitsDistinct(i: nat, j: nat)
    requires i < 10 && j < 10 && DIGITS[i] == DIGITS[j]
    ensures i == j
  {
  }

  lemma {:induction false} DecInjective(m: nat, n: nat)
    requires Dec(m) == Dec(n)
    ensures m == n
  {
    var s, t := Dec(m), Dec(n);
    assert s[|s| - 1] == t[|t| - 1];
    assert s[|s| - 1] == DIGITS[m % 10] && t[|t| - 1] == DIGITS[n % 10];
    DigitsDistinct(m % 10, n % 10);
    if m >= 10 && n >= 10 {
      assert s[..|s| - 1] == Dec(m / 10) && t[..|t| - 1] == Dec(n / 10);
      DecInjective(m / 10, n / 10);
    }
  }
}
