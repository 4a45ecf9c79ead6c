/** The statement under the cursor, and the subquery the context is resolved in. */
module Statements {
  import opened Values
  import opened Lexer
  import opened LexerCorrect
  import opened Slices
  import T = Tokenizer

  predicate IsSignificant(t: Token) { !t.kind.Whitespace? && !t.kind.Comment? && !t.kind.Eof? }

  function LineStart(s: string, o: nat): (r: nat)
    requires o <= |s|
    ensures r <= o
  {
    if o == 0 || s[o - 1] == '\n' then o else LineStart(s, o - 1)
  }

  function LineEnd(s: string, o: nat): (r: nat)
    requires o <= |s|
    ensures o <= r <= |s|
    decreases |s| - o
  {
    if o == |s| || s[o] == '\n' then o else LineEnd(s, o + 1)
  }

  predicate SharesLine(s: string, t: Token, u: Token)
    requires t.start <= |s|
  {
    IsSignificant(u) && LineStart(s, t.start) <= u.start < LineEnd(s, t.start)
  }

  /** Token `k` is the only significant one on its line. */
  predicate LineIsolated(s: string, ts: seq<Token>, k: nat)
    requires k < |ts| && ts[k].start <= |s|
  {
    forall i | 0 <= i < |ts| && i != k :: !SharesLine(s, ts[k], ts[i])
  }

  function Alternatives(id: DialectId): seq<string> { if id.Oracle? then ["/"] else [] }

  function BatchTerminator(id: DialectId): Option<string> { if id.SqlServer? then Some("GO") else None }

  predicate IsSeparator(d: Dialect, s: string, ts: seq<Token>, k: nat)
    requires k < |ts| && ts[k].start <= |s|
  {
    var t := ts[k];
    || (t.kind.Punct? && t.value == ";")
    || (t.value in Alternatives(d.id) && LineIsolated(s, ts, k))
    || (t.kind.Keyword? && Some(Upper(t.value)) == BatchTerminator(d.id) && LineIsolated(s, ts, k))
  }

  ghost predicate Inside(ts: seq<Token>, s: string) { forall i | 0 <= i < |ts| :: ts[i].start <= |s| }

  /** The separators among the first `k` tokens. */
  function Separators(d: Dialect, s: string, ts: seq<Token>, k: nat): seq<Span>
    requires k <= |ts| && Inside(ts, s)
  {
    if k == 0 then []
    else Separators(d, s, ts, k - 1) + (if IsSeparator(d, s, ts, k - 1) then [Span(ts[k - 1].start, ts[k - 1].end)] else [])
  }

  function Clamp(cursor: int, n: nat): (r: nat)
    ensures r <= n
  {
    if cursor < 0 then 0 else if cursor > n then n else cursor
  }

  /** From the last separator starting before `c` to the first one starting at or after it. */
  function Between(bs: seq<Span>, start: nat, n: nat, c: nat): Span {
    if bs == [] then Span(start, n) else if bs[0].start >= c then Span(start, bs[0].start) else Between(bs[1..], bs[0].end, n, c)
  }

  function Statement(d: Dialect, s: string, cursor: int): Span {
    TokensInside(d, s);
    var ts := Tokenize(d, s);
    Between(Separators(d, s, ts, |ts|), 0, |s|, Clamp(cursor, |s|))
  }

  lemma TokensInside(d: Dialect, s: string)
    ensures Inside(Tokenize(d, s), s)
  {
    hide Lex;
    LexTiles(d, false, s, 0);
    TilesIncreasing(Lex(d, false, s, 0), 0, |s|);
  }

  // ----- the separators in order -----

  /** Spans in order, without overlap, between `lo` and `hi`. */
  ghost predicate Ordered(bs: seq<Span>, lo: nat, hi: nat) {
    && lo <= hi
    && (forall i | 0 <= i < |bs| :: lo <= bs[i].start <= bs[i].end <= hi)
    && (forall i, j | 0 <= i < j < |bs| :: bs[i].end <= bs[j].start)
  }

  ghost predicate InOrder(ts: seq<Token>) {
    && (forall i | 0 <= i < |ts| :: ts[i].start <= ts[i].end)
    && (forall i, j | 0 <= i < j < |ts| :: ts[i].end <= ts[j].start)
  }

  lemma TokensInOrder(d: Dialect, s: string)
    ensures InOrder(Tokenize(d, s)) && Inside(Tokenize(d, s), s) && forall i | 0 <= i < |Tokenize(d, s)| :: Tokenize(d, s)[i].end <= |s|
  {
    hide Lex;
    LexTiles(d, false, s, 0);
    TilesIncreasing(Lex(d, false, s, 0), 0, |s|);
  }

  /** Separators come out sorted, so sorting them changes nothing. */
  lemma {:induction false} SeparatorsSorted(d: Dialect, s: string, ts: seq<Token>, k: nat, hi: nat)
    requires k <= |ts| && Inside(ts, s) && InOrder(ts) && forall i | 0 <= i < k :: ts[i].end <= hi
    ensures Ordered(Separators(d, s, ts, k), 0, hi)
    ensures k < |ts| ==> forall i | 0 <= i < |Separators(d, s, ts, k)| :: Separators(d, s, ts, k)[i].end <= ts[k].start
  {
    hide IsSeparator;
    if k > 0 { SeparatorsSorted(d, s, ts, k - 1, hi); }
  }

  ghost predicate SpanOf(d: Dialect, s: string, ts: seq<Token>, b: Span)
    requires Inside(ts, s)
  {
    exists i | 0 <= i < |ts| :: Span(ts[i].start, ts[i].end) == b && IsSeparator(d, s, ts, i)
  }

  lemma {:induction false} SeparatorsAre(d: Dialect, s: string, ts: seq<Token>, k: nat)
    requires k <= |ts| && Inside(ts, s)
    ensures forall i | 0 <= i < |Separators(d, s, ts, k)| :: SpanOf(d, s, ts, Separators(d, s, ts, k)[i])
    ensures forall i | 0 <= i < k && IsSeparator(d, s, ts, i) :: Span(ts[i].start, ts[i].end) in Separators(d, s, ts, k)
  {
    hide IsSeparator;
    if k > 0 { SeparatorsAre(d, s, ts, k - 1); }
  }

  // ----- what the statement is -----

  ghost predicate StartsAt(bs: seq<Span>, p: nat) { exists i | 0 <= i < |bs| :: bs[i].start == p }

  ghost predicate EndsAt(bs: seq<Span>, p: nat) { exists i | 0 <= i < |bs| :: bs[i].end == p }

  ghost predicate Splits(bs: seq<Span>, c: nat) { exists i | 0 <= i < |bs| :: bs[i].start < c < bs[i].end }

  lemma OrderedTail(bs: seq<Span>, lo: nat, hi: nat)
    requires Ordered(bs, lo, hi) && bs != []
    ensures Ordered(bs[1..], bs[0].end, hi) && lo <= bs[0].start <= bs[0].end
  {
  }

  lemma {:induction false} BetweenBounds(bs: seq<Span>, start: nat, n: nat, c: nat)
    requires Ordered(bs, start, n) && c <= n
    ensures var r := Between(bs, start, n, c); start <= r.start <= r.end <= n && c <= r.end
  {
    if bs != [] && bs[0].start < c {
      OrderedTail(bs, start, n);
      BetweenBounds(bs[1..], bs[0].end, n, c);
    }
  }

  lemma {:induction false} BetweenEdges(bs: seq<Span>, start: nat, n: nat, c: nat)
    ensures var r := Between(bs, start, n, c); (r.start == start || EndsAt(bs, r.start)) && (r.end == n || StartsAt(bs, r.end))
  {
    if bs != [] && bs[0].start < c {
      BetweenEdges(bs[1..], bs[0].end, n, c);
      var r := Between(bs[1..], bs[0].end, n, c);
      if r.start == bs[0].end { assert EndsAt(bs, r.start); }
      else { var i :| 0 <= i < |bs[1..]| && bs[1..][i].end == r.start; assert bs[i + 1].end == r.start; }
      if r.end != n { var i :| 0 <= i < |bs[1..]| && bs[1..][i].start == r.end; assert bs[i + 1].start == r.end; }
    } else if bs != [] {
      assert StartsAt(bs, bs[0].start);
    }
  }

  ghost predicate Clear(bs: seq<Span>, r: Span) { forall i | 0 <= i < |bs| :: bs[i].end <= r.start || r.end <= bs[i].start }

  lemma {:induction false} BetweenClear(bs: seq<Span>, start: nat, n: nat, c: nat)
    requires Ordered(bs, start, n) && c <= n
    ensures Clear(bs, Between(bs, start, n, c))
  {
    if bs != [] && bs[0].start < c {
      OrderedTail(bs, start, n);
      BetweenClear(bs[1..], bs[0].end, n, c);
      BetweenBounds(bs[1..], bs[0].end, n, c);
      var r := Between(bs, start, n, c);
      forall i | 0 <= i < |bs| ensures bs[i].end <= r.start || r.end <= bs[i].start { if i > 0 { assert bs[i] == bs[1..][i - 1]; } }
    }
  }

  lemma SplitsTail(bs: seq<Span>, c: nat)
    requires bs != []
    ensures Splits(bs, c) <==> bs[0].start < c < bs[0].end || Splits(bs[1..], c)
  {
    if Splits(bs[1..], c) { var i :| 0 <= i < |bs[1..]| && bs[1..][i].start < c < bs[1..][i].end; assert bs[i + 1].start < c < bs[i + 1].end; }
    if Splits(bs, c) {
      var i :| 0 <= i < |bs| && bs[i].start < c < bs[i].end;
      if i > 0 { assert bs[1..][i - 1].start < c < bs[1..][i - 1].end; }
    }
  }

  lemma {:induction false} BetweenHolds(bs: seq<Span>, start: nat, n: nat, c: nat)
    requires Ordered(bs, start, n) && start <= c <= n
    ensures Between(bs, start, n, c).start <= c <==> !Splits(bs, c)
  {
    if bs != [] {
      SplitsTail(bs, c);
      OrderedTail(bs, start, n);
      if bs[0].start >= c {
        assert forall i | 0 <= i < |bs| :: bs[i].start >= bs[0].start;
      } else if bs[0].end <= c {
        BetweenHolds(bs[1..], bs[0].end, n, c);
      } else {
        BetweenBounds(bs[1..], bs[0].end, n, c);
      }
    }
  }

  lemma {:induction false} PunctText(d: Dialect, after: bool, s: string, base: nat)
    ensures forall i | 0 <= i < |Lex(d, after, s, base)| && Lex(d, after, s, base)[i].kind.Punct? ::
              var t := Lex(d, after, s, base)[i];
              base <= t.start && t.end == t.start + 1 <= base + |s| && t.value == [s[t.start - base]] && IsPunct(s[t.start - base])
    decreases |s|
  {
    hide First;
    if s != "" {
      var x := First(d, after, s);
      FirstPunct(d, after, s);
      PunctText(d, IsIdentCont(s[x.len - 1]), s[x.len..], base + x.len);
    }
  }

  lemma FirstPunct(d: Dialect, after: bool, s: string)
    requires s != ""
    ensures First(d, after, s).kind.Punct? ==> First(d, after, s).len == 1 && First(d, after, s).value == [s[0]] && IsPunct(s[0])
  {
    hide IsSpace; hide DollarTag; hide DollarLen; hide Run; hide Upper; hide BlockEnd; hide StringEnd; hide QuotedEnd; hide PairFor;
    hide NumberRun; hide IsPunct;
  }

  lemma PunctIsNoIdent(c: char)
    requires IsPunct(c)
    ensures !IsIdentCont(c)
  {
  }

  /** Where a separator ends, a slice may begin. */
  lemma SafeAfterSeparator(d: Dialect, s: string, k: nat)
    requires k < |Tokenize(d, s)| && Inside(Tokenize(d, s), s) && IsSeparator(d, s, Tokenize(d, s), k)
    ensures var e := Tokenize(d, s)[k].end; e <= |s| && !(d.id.Postgres? && AfterAt(false, s, e))
  {
    hide Lex; hide LineIsolated;
    TokensInOrder(d, s);
    if d.id.Postgres? {
      PunctText(d, false, s, 0);
      PunctIsNoIdent(';');
    }
  }

  /**
   * The statement: its tokens are the full list's tokens there; it is bounded by separators or the ends of the input, and
   * holds none; it holds the cursor unless the cursor is strictly inside a separator.
   */
  lemma StatementIs(d: Dialect, s: string, cursor: int)
    ensures Inside(Tokenize(d, s), s) && Statement(d, s, cursor).start <= Statement(d, s, cursor).end <= |s|
    ensures Whole(d, s, Statement(d, s, cursor))
    ensures var r, ts := Statement(d, s, cursor), Tokenize(d, s);
            forall k | 0 <= k < |ts| && IsSeparator(d, s, ts, k) :: ts[k].end <= r.start || r.end <= ts[k].start
    ensures var r, bs, c := Statement(d, s, cursor), Separators(d, s, Tokenize(d, s), |Tokenize(d, s)|), Clamp(cursor, |s|);
            && (r.start == 0 || EndsAt(bs, r.start)) && (r.end == |s| || StartsAt(bs, r.end))
            && c <= r.end && (r.start <= c <==> !Splits(bs, c))
  {
    hide IsSeparator; hide Tokenize; hide IsBoundary; hide Splits;
    var ts := Tokenize(d, s);
    TokensInOrder(d, s);
    var bs, c := Separators(d, s, ts, |ts|), Clamp(cursor, |s|);
    SeparatorsSorted(d, s, ts, |ts|, |s|);
    SeparatorsAre(d, s, ts, |ts|);
    BetweenBounds(bs, 0, |s|, c);
    BetweenEdges(bs, 0, |s|, c);
    BetweenClear(bs, 0, |s|, c);
    BetweenHolds(bs, 0, |s|, c);
    InputEndIsBoundary(d, s);
    var r := Statement(d, s, cursor);
    if r.start != 0 {
      var i :| 0 <= i < |bs| && bs[i].end == r.start;
      assert SpanOf(d, s, ts, bs[i]);
      var k :| 0 <= k < |ts| && Span(ts[k].start, ts[k].end) == bs[i] && IsSeparator(d, s, ts, k);
      SafeAfterSeparator(d, s, k);
      TokenBoundaries(d, s, k);
    }
    if r.end != |s| {
      var i :| 0 <= i < |bs| && bs[i].start == r.end;
      assert SpanOf(d, s, ts, bs[i]);
      var k :| 0 <= k < |ts| && Span(ts[k].start, ts[k].end) == bs[i] && IsSeparator(d, s, ts, k);
      TokenBoundaries(d, s, k);
    }
  }

  lemma TokenBoundaries(d: Dialect, s: string, k: nat)
    requires k < |Tokenize(d, s)|
    ensures var t := Tokenize(d, s)[k]; t.end <= |s| && IsBoundary(d, false, s, t.start) && IsBoundary(d, false, s, t.end)
  {
    hide Lex; hide IsBoundary;
    if k < |Lex(d, false, s, 0)| { TokenEndsAreBoundaries(d, s, k); } else { InputEndIsBoundary(d, s); }
  }
}
