/** Slices of the input that begin and end at token boundaries lex to the tokens they contain. */
module Slices {
  import opened Values
  import opened Lexer
  import opened LexerCorrect

  datatype Span = Span(start: nat, end: nat)

  /** Both ends are token boundaries, and nothing before the slice could have disabled a dollar quote at its start. */
  ghost predicate Whole(d: Dialect, s: string, p: Span) {
    && p.start <= p.end <= |s|
    && IsBoundary(d, false, s, p.start) && IsBoundary(d, false, s, p.end)
    && !(d.id.Postgres? && AfterAt(false, s, p.start))
  }

  lemma {:induction false} BoundaryCut(d: Dialect, after: bool, s: string, lo: nat, hi: nat)
    requires IsBoundary(d, after, s, hi) && lo <= hi <= |s|
    ensures IsBoundary(d, after, s, lo) <==> IsBoundary(d, after, s[..hi], lo)
    decreases |s|
  {
    hide First; hide IsBoundary;
    if lo == 0 {
      BoundaryZero(d, after, s);
      BoundaryZero(d, after, s[..hi]);
    } else {
      BoundaryStep(d, after, s, hi);
      BoundaryStep(d, after, s, lo);
      BoundaryStep(d, after, s[..hi], lo);
      var n := First(d, after, s).len;
      FirstCut(d, after, s, hi);
      SliceParts(s, n, hi);
      if n <= lo { BoundaryCut(d, IsIdentCont(s[n - 1]), s[n..], lo - n, hi - n); }
    }
  }

  lemma {:induction false} BoundaryTail(d: Dialect, after: bool, s: string, lo: nat, k: nat)
    requires IsBoundary(d, after, s, lo) && lo <= |s|
    ensures IsBoundary(d, after, s, lo + k) <==> IsBoundary(d, AfterAt(after, s, lo), s[lo..], k)
    decreases |s|
  {
    hide First; hide IsBoundary;
    if lo == 0 {
      assert s[0..] == s;
    } else {
      BoundaryStep(d, after, s, lo);
      BoundaryStep(d, after, s, lo + k);
      var n := First(d, after, s).len;
      SliceParts(s, n, lo);
      BoundaryTail(d, IsIdentCont(s[n - 1]), s[n..], lo - n, k);
    }
  }

  /** The tokens of a whole slice, moved to its place, are the input's tokens there. */
  lemma WholeAgrees(d: Dialect, s: string, p: Span)
    requires Whole(d, s, p)
    ensures Lex(d, false, s, 0) == Lex(d, false, s[..p.start], 0) + Lex(d, false, s[p.start..p.end], p.start)
                                   + Lex(d, AfterAt(false, s, p.end), s[p.end..], p.end)
  {
    hide IsBoundary; hide Lex; hide DollarTag;
    var front := s[..p.end];
    LexSplit(d, false, s, 0, p.end);
    BoundaryCut(d, false, s, p.start, p.end);
    LexSplit(d, false, front, 0, p.start);
    assert front[..p.start] == s[..p.start] && front[p.start..] == s[p.start..p.end];
    RestartIff(d, AfterAt(false, front, p.start), front[p.start..], p.start);
  }

  lemma SliceOfSlice(s: string, p: Span, q: Span)
    requires p.start <= p.end <= |s| && q.start <= q.end <= p.end - p.start
    ensures s[p.start..p.end][q.start..q.end] == s[p.start + q.start..p.start + q.end]
  {
    var a, b := s[p.start..p.end][q.start..q.end], s[p.start + q.start..p.start + q.end];
    assert |a| == |b|;
    forall i | 0 <= i < |a| ensures a[i] == b[i] { assert a[i] == s[p.start..p.end][q.start + i] == s[p.start + q.start + i]; }
  }

  /** A whole slice of a whole slice is a whole slice. */
  lemma WholeNested(d: Dialect, s: string, p: Span, q: Span)
    requires Whole(d, s, p) && Whole(d, s[p.start..p.end], q)
    ensures Whole(d, s, Span(p.start + q.start, p.start + q.end))
    ensures s[p.start..p.end][q.start..q.end] == s[p.start + q.start..p.start + q.end]
  {
    hide IsBoundary; hide IsIdentCont;
    var inner := s[p.start..p.end];
    NestedBoundary(d, s, p, q.start);
    NestedBoundary(d, s, p, q.end);
    SliceOfSlice(s, p, q);
    if q.start > 0 { assert inner[q.start - 1] == s[p.start + q.start - 1]; }
    assert AfterAt(false, s, p.start + q.start) == if q.start > 0 then AfterAt(false, inner, q.start) else AfterAt(false, s, p.start);
  }

  lemma NestedBoundary(d: Dialect, s: string, p: Span, k: nat)
    requires Whole(d, s, p) && k <= p.end - p.start && IsBoundary(d, false, s[p.start..p.end], k)
    ensures IsBoundary(d, false, s, p.start + k)
  {
    hide IsBoundary; hide DollarTag;
    var after, tail := AfterAt(false, s, p.start), s[p.start..];
    assert tail[..p.end - p.start] == s[p.start..p.end];
    RestartBoundary(d, after, s[p.start..p.end], k);
    BoundaryTail(d, false, s, p.start, p.end - p.start);
    BoundaryCut(d, after, tail, k, p.end - p.start);
    BoundaryTail(d, false, s, p.start, k);
  }

  /** Where a token starts or ends is a boundary. */
  lemma TokenEndsAreBoundaries(d: Dialect, s: string, i: nat)
    requires i < |Lex(d, false, s, 0)|
    ensures var t := Lex(d, false, s, 0)[i]; t.start < t.end <= |s| && IsBoundary(d, false, s, t.start) && IsBoundary(d, false, s, t.end)
  {
    hide Lex; hide IsBoundary;
    var ts := Lex(d, false, s, 0);
    LexTiles(d, false, s, 0);
    TilesIncreasing(ts, 0, |s|);
    BoundaryIsTokenEnd(d, false, s, 0, ts[i].end);
    BoundaryIsTokenEnd(d, false, s, 0, ts[i].start);
    assert SomeEndsAt(ts, ts[i].end);
    if i > 0 { assert ts[i - 1].end == ts[i].start; }
  }

  lemma InputEndIsBoundary(d: Dialect, s: string)
    ensures IsBoundary(d, false, s, 0) && IsBoundary(d, false, s, |s|)
  {
    hide Lex; hide IsBoundary;
    BoundaryZero(d, false, s);
    var ts := Lex(d, false, s, 0);
    LexTiles(d, false, s, 0);
    BoundaryIsTokenEnd(d, false, s, 0, |s|);
    if s != "" { assert ts[|ts| - 1].end == |s|; }
  }
}
