/** Reading a PostgreSQL cursor in batches until the limit is reached, then peeking for one more row. */
module Paging {

  const MAX_BATCH: nat := 1000

  function Min(a: nat, b: nat): nat { if a < b then a else b }

  function Batch(limit: nat): nat { Min(limit, MAX_BATCH) }

  /** What one FETCH returns from position `at`. */
  function Fetched<R>(cursor: seq<R>, at: nat, count: nat): seq<R>
    requires at <= |cursor|
  {
    cursor[at..Min(at + count, |cursor|)]
  }

  /** Rows read when the loop has enough: from `at` on in steps of `b`, the first position at or past the limit. */
  function Reach(limit: nat, b: nat, at: nat): (r: nat)
    requires b > 0
    ensures r >= at && r >= limit
    decreases if at < limit then limit - at else 0
  {
    if at >= limit then at else Reach(limit, b, at + b)
  }

  /** The limit rounded up to whole batches. */
  function RoundedUp(limit: nat, b: nat): nat
    requires b > 0
  {
    (limit + b - 1) / b * b
  }

  /** The fetch loop: the first rows up to the limit, and whether a row is left after the batches that were read. */
  method RunCursor<R>(cursor: seq<R>, limit: nat) returns (rows: seq<R>, more: bool)
    ensures rows == cursor[..Min(limit, |cursor|)]
    ensures more <==> limit > 0 && |cursor| > Reach(limit, Batch(limit), 0)
  {
    var batch := Batch(limit);
    var fetched: seq<R> := [];
    more := false;
    while true
      invariant |fetched| <= |cursor| && fetched == cursor[..|fetched|] && !more
      invariant |fetched| < limit || limit == 0
      invariant limit > 0 && |fetched| < |cursor| ==> Reach(limit, batch, |fetched|) == Reach(limit, batch, 0)
      decreases |cursor| - |fetched|
    {
      var res := Fetched(cursor, |fetched|, batch);
      if |res| == 0 { break; }
      fetched := fetched + res;
      if |fetched| >= limit {
        var peek := Fetched(cursor, |fetched|, 1);
        if |peek| > 0 { more := true; }
        break;
      }
    }
    rows := fetched[..Min(limit, |fetched|)];
  }

  // ----- what the flag means -----

  predicate Divides(b: nat, limit: nat)
    requires b > 0
  {
    limit % b == 0
  }

  lemma {:induction false} ReachMultiple(limit: nat, b: nat, at: nat, k: nat) returns (m: nat)
    requires b > 0 && at == k * b && (at < limit + b)
    ensures Reach(limit, b, at) == m * b && m >= k && m * b < limit + b
    decreases if at < limit then limit - at else 0
  {
    m := k;
    if at < limit {
      assert at + b == (k + 1) * b;
      m := ReachMultiple(limit, b, at + b, k + 1);
    }
  }

  lemma {:induction false} MultiplesApart(m: nat, q: nat, b: nat)
    ensures m < q ==> m * b + b <= q * b
    decreases q
  {
    if m < q {
      OneMultipleMore(q - 1, b);
      MultiplesApart(m, q - 1, b);
    }
  }

  lemma OneMultipleMore(q: nat, b: nat)
    ensures (q + 1) * b == q * b + b
  {
  }

  lemma MultipleBetween(limit: nat, b: nat, m: nat)
    requires b > 0 && limit <= m * b < limit + b
    ensures m * b == RoundedUp(limit, b)
  {
    var q := (limit + b - 1) / b;
    assert q * b <= limit + b - 1 < q * b + b;
    MultiplesApart(m, q, b);
    MultiplesApart(q, m, b);
  }

  lemma ReachIsRoundedUp(limit: nat, b: nat)
    requires b > 0
    ensures Reach(limit, b, 0) == RoundedUp(limit, b)
  {
    var m := ReachMultiple(limit, b, 0, 0);
    MultipleBetween(limit, b, m);
  }

  lemma RemainderIs(x: nat, b: nat, q: nat, r: nat)
    requires b > 0 && x == q * b + r && r < b
    ensures x % b == r
  {
    var p := x / b;
    assert p * b <= x < p * b + b;
    MultiplesApart(p, q, b);
    MultiplesApart(q, p, b);
    assert p == q;
  }

  lemma RoundedUpIff(limit: nat, b: nat)
    requires b > 0
    ensures RoundedUp(limit, b) >= limit && (RoundedUp(limit, b) == limit <==> Divides(b, limit))
  {
    ReachIsRoundedUp(limit, b);
    if Divides(b, limit) {
      assert limit == (limit / b) * b;
      MultipleBetween(limit, b, limit / b);
    } else if RoundedUp(limit, b) == limit {
      RemainderIs(limit, b, (limit + b - 1) / b, 0);
    }
  }

  /** The flag the loop returns for a cursor of `n` rows. */
  predicate MoreAvailable(limit: nat, n: nat) { limit > 0 && n > Reach(limit, Batch(limit), 0) }

  /** The flag means "more rows than the limit" for every cursor exactly when the limit is whole batches. */
  lemma MoreMeansMoreIff(limit: nat)
    requires limit > 0
    ensures (forall n: nat :: MoreAvailable(limit, n) <==> n > limit) <==> Divides(Batch(limit), limit)
  {
    var b := Batch(limit);
    RoundedUpIff(limit, b);
    ReachIsRoundedUp(limit, b);
    if !Divides(b, limit) { assert !MoreAvailable(limit, limit + 1) && limit + 1 > limit; }
  }

  /** Under a server-side cap of one row past the limit, the flag is never raised for a limit that is not whole batches. */
  lemma CappedNeverMore(limit: nat, n: nat)
    requires limit > 0 && n <= limit + 1
    ensures MoreAvailable(limit, n) <==> n == limit + 1 && Divides(Batch(limit), limit)
  {
    RoundedUpIff(limit, Batch(limit));
    ReachIsRoundedUp(limit, Batch(limit));
  }

  /** 1500 rows are asked for, 1501 are there, and the flag stays down. */
  lemma MissedRow()
    ensures !MoreAvailable(1500, 1501)
  {
    assert Batch(1500) == 1000;
    assert Reach(1500, 1000, 0) == Reach(1500, 1000, 1000) == Reach(1500, 1000, 2000) == 2000;
  }
}
