/** The lexer may be restarted at a token boundary, on either side of it. */
module LexerCorrect {
  import opened Values
  import opened Lexer

  // ----- cutting the text after a token changes nothing in it -----

  lemma {:induction false} RunCut(p: char -> bool, s: string, m: nat)
    requires Run(p, s) <= m <= |s|
    ensures Run(p, s[..m]) == Run(p, s)
  {
    if s != "" && p(s[0]) {
      assert s[..m][1..] == s[1..][..m - 1];
      RunCut(p, s[1..], m - 1);
    }
  }

  lemma PrefixCut(p: string, s: string, m: nat)
    requires m <= |s|
    ensures p <= s[..m] <==> p <= s && |p| <= m
  {
    if p <= s && |p| <= m { assert s[..m][..|p|] == s[..|p|]; }
    if p <= s[..m] { assert s[..m][..|p|] == s[..|p|]; }
  }

  lemma {:induction false} BlockEndCut(nested: bool, s: string, depth: nat, m: nat)
    requires BlockEnd(nested, s, depth) <= m <= |s|
    ensures BlockEnd(nested, s[..m], depth) == BlockEnd(nested, s, depth)
    decreases |s|
  {
    if s != "" && depth > 0 {
      PrefixCut("/*", s, m);
      PrefixCut("*/", s, m);
      if nested && "/*" <= s {
        assert s[..m][2..] == s[2..][..m - 2];
        BlockEndCut(nested, s[2..], depth + 1, m - 2);
      } else if "*/" <= s {
        assert s[..m][2..] == s[2..][..m - 2];
        BlockEndCut(nested, s[2..], depth - 1, m - 2);
      } else {
        assert s[..m][1..] == s[1..][..m - 1];
        BlockEndCut(nested, s[1..], depth, m - 1);
      }
    }
  }

  lemma DollarTagCut(s: string, m: nat)
    requires DollarTag(s) <= m <= |s|
    ensures DollarTag(s[..m]) == DollarTag(s)
  {
    if m >= 2 && s[0] == '$' && s[1] != '$' && IsLetter(s[1]) {
      var r := Run(IsTagChar, s[2..]);
      assert s[..m][2..] == s[2..][..m - 2];
      if r <= m - 2 {
        RunCut(IsTagChar, s[2..], m - 2);
      } else {
        RunAll(IsTagChar, s[2..][..m - 2]);
      }
    }
  }

  lemma {:induction false} RunAll(p: char -> bool, s: string)
    requires forall i | 0 <= i < |s| :: p(s[i])
    ensures Run(p, s) == |s|
  {
  }

  lemma {:induction false} IndexOfTextCut(s: string, pattern: string, m: nat)
    requires pattern != "" && IndexOfText(s, pattern).Some? && IndexOfText(s, pattern).value + |pattern| <= m <= |s|
    ensures IndexOfText(s[..m], pattern) == IndexOfText(s, pattern)
  {
    PrefixCut(pattern, s, m);
    if !(pattern <= s) {
      assert s[..m][1..] == s[1..][..m - 1];
      IndexOfTextCut(s[1..], pattern, m - 1);
    }
  }

  lemma {:induction false} StringEndCut(escape: bool, s: string, m: nat)
    requires StringEnd(escape, s) <= m <= |s|
    ensures StringEnd(escape, s[..m]) == StringEnd(escape, s)
  {
    if s != "" {
      if (escape && s[0] == '\\' && |s| > 1) || (!(escape && s[0] == '\\') && s[0] == '\'' && |s| > 1 && s[1] == '\'') {
        assert s[..m][2..] == s[2..][..m - 2];
        StringEndCut(escape, s[2..], m - 2);
      } else if !(escape && s[0] == '\\') && s[0] != '\'' {
        assert s[..m][1..] == s[1..][..m - 1];
        StringEndCut(escape, s[1..], m - 1);
      }
    }
  }

  lemma {:induction false} QuotedEndCut(close: char, s: string, m: nat)
    requires QuotedEnd(close, s).len <= m <= |s|
    ensures QuotedEnd(close, s[..m]) == QuotedEnd(close, s)
  {
    if s != "" {
      if s[0] != close {
        assert s[..m][1..] == s[1..][..m - 1];
        QuotedEndCut(close, s[1..], m - 1);
      } else if |s| > 1 && s[1] == close {
        assert s[..m][2..] == s[2..][..m - 2];
        QuotedEndCut(close, s[2..], m - 2);
      }
    }
  }

  lemma {:induction false} NumberRunCut(prev: char, s: string, m: nat)
    requires NumberRun(prev, s) <= m <= |s|
    ensures NumberRun(prev, s[..m]) == NumberRun(prev, s)
    decreases |s|
  {
    if s != "" && InNumber(prev, s[0]) {
      assert s[..m][1..] == s[1..][..m - 1];
      NumberRunCut(s[0], s[1..], m - 1);
    }
  }

  lemma DollarLenCut(s: string, m: nat)
    requires DollarTag(s) > 0 && DollarLen(s) <= m <= |s|
    ensures DollarTag(s[..m]) == DollarTag(s) && DollarLen(s[..m]) == DollarLen(s)
  {
    hide DollarTag;
    DollarTagCut(s, m);
    var t := DollarTag(s);
    assert s[..m][t..] == s[t..][..m - t] && s[..m][..t] == s[..t];
    if IndexOfText(s[t..], s[..t]).Some? { IndexOfTextCut(s[t..], s[..t], m - t); }
    else { assert s[..m] == s; }
  }

  lemma QuotedCut(close: char, s: string, m: nat)
    requires s != "" && QuotedLexeme(close, s).len <= m <= |s|
    ensures QuotedLexeme(close, s[..m]) == QuotedLexeme(close, s)
  {
    assert s[..m][1..] == s[1..][..m - 1];
    QuotedEndCut(close, s[1..], m - 1);
    var q := QuotedEnd(close, s[1..]);
    var stop := 1 + if q.closed then q.len - 1 else q.len;
    assert s[..m][1..stop] == s[1..stop];
  }

  lemma FirstPlainCut(d: Dialect, s: string, m: nat)
    requires s != "" && FirstPlain(d, s).len <= m <= |s|
    ensures FirstPlain(d, s[..m]) == FirstPlain(d, s)
  {
    hide Undouble; hide QuotedLexeme; hide QuotePairs; hide PairFor; hide Upper; hide StringEnd; hide NumberRun; hide Run;
    var c, t, n := s[0], s[..m], FirstPlain(d, s).len;
    assert t[..n] == s[..n] && t[1..] == s[1..][..m - 1];
    if IsEscapeString(d, s) {
      assert t[2..] == s[2..][..m - 2];
      StringEndCut(true, s[2..], m - 2);
    } else if c == '\'' {
      StringEndCut(false, s[1..], m - 1);
    } else if PairFor(QuotePairs(d.id), c).Some? {
      QuotedCut(PairFor(QuotePairs(d.id), c).value, s, m);
    } else if IsDigit(c) {
      NumberRunCut(c, s[1..], m - 1);
    } else if IsIdentStart(c) {
      RunCut(IsIdentCont, s[1..], m - 1);
    }
  }

  lemma SpanCut(s: string, m: nat)
    requires m <= |s|
    ensures forall kind, n {:trigger Spanning(kind, s, n)} | 0 <= n <= m :: Spanning(kind, s[..m], n) == Spanning(kind, s, n)
  {
    forall kind, n | 0 <= n <= m ensures Spanning(kind, s[..m], n) == Spanning(kind, s, n) { assert s[..m][..n] == s[..n]; }
  }

  /** Which rule applies, and what it takes, does not depend on what follows the token. */
  lemma FirstCut(d: Dialect, after: bool, s: string, m: nat)
    requires s != "" && First(d, after, s).len <= m <= |s|
    ensures First(d, after, s[..m]) == First(d, after, s)
  {
    hide FirstPlain; hide DollarLen; hide DollarTag; hide IsSpace; hide Run; hide BlockEnd; hide Spanning;
    SpanCut(s, m);
    var c, t, n := s[0], s[..m], First(d, after, s).len;
    PrefixCut("/*", s, m);
    PrefixCut("--", s, m);
    assert t[..n] == s[..n];
    if IsSpace(c) {
      assert t[1..] == s[1..][..m - 1];
      RunCut(IsSpace, s[1..], m - 1);
    } else if "/*" <= s {
      assert t[2..] == s[2..][..m - 2];
      BlockEndCut(d.id.Postgres?, s[2..], 1, m - 2);
    } else if "--" <= s {
      assert t[2..] == s[2..][..m - 2];
      RunCut(NotNewline, s[2..], m - 2);
    } else if d.id.Postgres? && !after && DollarTag(s) > 0 {
      DollarLenCut(s, m);
    } else {
      if d.id.Postgres? && !after { DollarTagCut(s, m); }
      FirstPlainCut(d, s, m);
    }
  }

  // ----- the token list -----

  /** `ts` covers the positions from `lo` to `hi` without gap or overlap, and no token is empty. */
  ghost predicate Tiles(ts: seq<Token>, lo: nat, hi: nat) {
    && (forall i | 0 <= i < |ts| :: ts[i].start < ts[i].end)
    && (forall i | 0 < i < |ts| :: ts[i].start == ts[i - 1].end)
    && (if ts == [] then lo == hi else ts[0].start == lo && ts[|ts| - 1].end == hi)
  }

  lemma {:induction false} LexTiles(d: Dialect, after: bool, s: string, base: nat)
    ensures Tiles(Lex(d, after, s, base), base, base + |s|)
    decreases |s|
  {
    hide First;
    if s != "" {
      var x := First(d, after, s);
      LexTiles(d, IsIdentCont(s[x.len - 1]), s[x.len..], base + x.len);
    }
  }

  /** The tokens tile the input, none but the last is empty, and the last is the end marker. */
  lemma TokensTileInput(d: Dialect, input: string)
    ensures var ts := Tokenize(d, input);
            && Tiles(ts[..|ts| - 1], 0, |input|)
            && ts[|ts| - 1] == Token(Eof, "", |input|, |input|)
            && forall i | 0 <= i < |ts| - 1 :: !ts[i].kind.Eof?
  {
    LexTiles(d, false, input, 0);
    LexKinds(d, false, input, 0);
    assert Tokenize(d, input)[..|Tokenize(d, input)| - 1] == Lex(d, false, input, 0);
  }

  lemma FirstIsNoEof(d: Dialect, after: bool, s: string)
    requires s != ""
    ensures !First(d, after, s).kind.Eof?
  {
    hide IsSpace; hide DollarTag; hide DollarLen; hide Run; hide Upper; hide BlockEnd; hide StringEnd; hide QuotedEnd; hide PairFor;
  }

  lemma {:induction false} LexKinds(d: Dialect, after: bool, s: string, base: nat)
    ensures forall i | 0 <= i < |Lex(d, after, s, base)| :: !Lex(d, after, s, base)[i].kind.Eof?
    decreases |s|
  {
    hide First;
    if s != "" {
      var x := First(d, after, s);
      FirstIsNoEof(d, after, s);
      LexKinds(d, IsIdentCont(s[x.len - 1]), s[x.len..], base + x.len);
    }
  }

  ghost predicate SomeEndsAt(ts: seq<Token>, e: nat) { exists i | 0 <= i < |ts| :: ts[i].end == e }

  lemma ConsEndsAt(t: Token, rest: seq<Token>, e: nat)
    ensures SomeEndsAt([t] + rest, e) <==> t.end == e || SomeEndsAt(rest, e)
  {
    var ts := [t] + rest;
    if t.end == e { assert ts[0].end == e; }
    if SomeEndsAt(rest, e) {
      var i :| 0 <= i < |rest| && rest[i].end == e;
      assert ts[i + 1].end == e;
    }
  }

  lemma NoEarlyEnd(ts: seq<Token>, lo: nat, hi: nat, e: nat)
    requires Tiles(ts, lo, hi) && e <= lo
    ensures !SomeEndsAt(ts, e)
  {
    TilesIncreasing(ts, lo, hi);
  }

  /** A boundary is 0 or the end of a token. */
  lemma {:induction false} BoundaryIsTokenEnd(d: Dialect, after: bool, s: string, base: nat, b: nat)
    ensures IsBoundary(d, after, s, b) <==> b == 0 || SomeEndsAt(Lex(d, after, s, base), base + b)
    decreases |s|
  {
    hide First; hide SomeEndsAt; hide Tiles; hide Lex; hide IsBoundary;
    if b == 0 {
      BoundaryZero(d, after, s);
    } else if s == "" {
      LexNothing(d, after, base);
      BoundaryStep(d, after, s, b);
      NoEnd(base + b);
    } else {
      BoundaryStep(d, after, s, b);
      LexStep(d, after, s, base);
      var x := First(d, after, s);
      var after', s' := IsIdentCont(s[x.len - 1]), s[x.len..];
      var rest := Lex(d, after', s', base + x.len);
      ConsEndsAt(Token(x.kind, x.value, base, base + x.len), rest, base + b);
      LexTiles(d, after', s', base + x.len);
      if b < x.len { NoEarlyEnd(rest, base + x.len, base + x.len + |s'|, base + b); }
      else if b == x.len { BoundaryZero(d, after', s'); }
      else { BoundaryIsTokenEnd(d, after', s', base + x.len, b - x.len); }
    }
  }

  lemma BoundaryZero(d: Dialect, after: bool, s: string)
    ensures IsBoundary(d, after, s, 0)
  {
  }

  lemma NoEnd(e: nat)
    ensures !SomeEndsAt([], e)
  {
  }

  lemma {:induction false} TilesIncreasing(ts: seq<Token>, lo: nat, hi: nat)
    requires Tiles(ts, lo, hi)
    ensures forall i, j | 0 <= i < j < |ts| :: ts[i].end <= ts[j].start
    ensures forall i | 0 <= i < |ts| :: lo <= ts[i].start && ts[i].end <= hi
  {
    if ts != [] {
      var n := |ts| - 1;
      TilesIncreasing(ts[..n], lo, ts[n].start);
      assert forall i | 0 <= i < n :: ts[..n][i] == ts[i];
    }
  }

  lemma LexStep(d: Dialect, after: bool, s: string, base: nat)
    requires s != ""
    ensures var x := First(d, after, s);
            Lex(d, after, s, base)
            == [Token(x.kind, x.value, base, base + x.len)] + Lex(d, IsIdentCont(s[x.len - 1]), s[x.len..], base + x.len)
  {
    hide First;
  }

  lemma BoundaryStep(d: Dialect, after: bool, s: string, b: nat)
    requires b > 0
    ensures IsBoundary(d, after, s, b)
            <==> s != "" && First(d, after, s).len <= b
                 && IsBoundary(d, IsIdentCont(s[First(d, after, s).len - 1]), s[First(d, after, s).len..], b - First(d, after, s).len)
  {
    hide First;
  }

  lemma SliceParts(s: string, n: nat, b: nat)
    requires 0 < n <= b <= |s|
    ensures s[..b][n..] == s[n..][..b - n] && s[n..][b - n..] == s[b..] && s[..b][n - 1] == s[n - 1] && s[..b] != ""
    ensures b > n ==> s[n..][b - n - 1] == s[b - 1]
  {
  }

  lemma {:induction false} BoundaryInside(d: Dialect, after: bool, s: string, b: nat)
    requires IsBoundary(d, after, s, b)
    ensures b <= |s|
    decreases |s|
  {
    hide First;
    if b > 0 { BoundaryInside(d, IsIdentCont(s[First(d, after, s).len - 1]), s[First(d, after, s).len..], b - First(d, after, s).len); }
  }

  /** Cutting at a boundary: the tokens before it, then the tokens of the rest lexed with what comes before in view. */
  lemma {:induction false} LexSplit(d: Dialect, after: bool, s: string, base: nat, b: nat)
    requires IsBoundary(d, after, s, b)
    ensures b <= |s| && Lex(d, after, s, base) == Lex(d, after, s[..b], base) + Lex(d, AfterAt(after, s, b), s[b..], base + b)
    decreases |s|
  {
    hide First; hide Lex; hide IsBoundary;
    BoundaryInside(d, after, s, b);
    if b == 0 {
      LexNothing(d, after, base);
      assert s[..0] == "" && s[0..] == s;
    } else {
      BoundaryStep(d, after, s, b);
      var x := First(d, after, s);
      var n, after' := x.len, IsIdentCont(s[x.len - 1]);
      LexSplit(d, after', s[n..], base + n, b - n);
      FirstCut(d, after, s, b);
      SliceParts(s, n, b);
      LexStep(d, after, s, base);
      LexStep(d, after, s[..b], base);
    }
  }

  lemma LexNothing(d: Dialect, after: bool, base: nat)
    ensures Lex(d, after, "", base) == []
  {
  }

  lemma {:induction false} LexNotBefore(d: Dialect, after: bool, s: string, base: nat)
    ensures NotBefore(Lex(d, after, s, base), base)
  {
    hide Lex; hide First;
    LexTiles(d, after, s, base);
    TilesIncreasing(Lex(d, after, s, base), base, base + |s|);
  }

  lemma ShiftCons(t: Token, rest: seq<Token>, delta: int)
    requires t.start + delta >= 0 && t.end + delta >= 0 && NotBefore(rest, -delta) && NotBefore([t] + rest, -delta)
    ensures Shift([t] + rest, delta) == [Move(t, delta)] + Shift(rest, delta)
  {
    hide Move;
  }

  lemma {:induction false} LexShift(d: Dialect, after: bool, s: string, base: nat, delta: int)
    requires base + delta >= 0
    ensures NotBefore(Lex(d, after, s, base), base) && NotBefore(Lex(d, after, s, base), -delta)
    ensures Lex(d, after, s, base + delta) == Shift(Lex(d, after, s, base), delta)
    decreases |s|
  {
    hide First; hide Lex;
    LexNotBefore(d, after, s, base);
    if s == "" {
      LexNothing(d, after, base);
      LexNothing(d, after, base + delta);
    } else {
      var x := First(d, after, s);
      var after', s' := IsIdentCont(s[x.len - 1]), s[x.len..];
      LexStep(d, after, s, base);
      LexStep(d, after, s, base + delta);
      LexShift(d, after', s', base + x.len, delta);
      ShiftCons(Token(x.kind, x.value, base, base + x.len), Lex(d, after', s', base + x.len), delta);
    }
  }

  /** Where lexing afresh differs: a PostgreSQL dollar-quote delimiter that an identifier character would have disabled. */
  predicate Disabled(d: Dialect, after: bool, s: string) { d.id.Postgres? && after && DollarTag(s) > 0 }

  lemma DollarStartsIdentifier(d: Dialect, s: string)
    requires DollarTag(s) > 0
    ensures !First(d, true, s).kind.Text? && (d.id.Postgres? ==> First(d, false, s).kind.Text?)
  {
    hide DollarLen; hide DollarTag; hide Run; hide Upper;
    assert s[0] == '$';
  }

  lemma FirstFresh(d: Dialect, after: bool, s: string)
    requires s != "" && !Disabled(d, after, s)
    ensures First(d, after, s) == First(d, false, s)
  {
    hide FirstPlain; hide DollarTag; hide DollarLen;
  }

  lemma RestartIff(d: Dialect, after: bool, s: string, base: nat)
    ensures Lex(d, after, s, base) == Lex(d, false, s, base) <==> !Disabled(d, after, s)
  {
    hide First; hide DollarTag;
    if Disabled(d, after, s) {
      DollarStartsIdentifier(d, s);
      assert Lex(d, true, s, base)[0].kind != Lex(d, false, s, base)[0].kind;
    } else if s != "" {
      FirstFresh(d, after, s);
    }
  }

  lemma RestartBoundary(d: Dialect, after: bool, s: string, b: nat)
    requires !Disabled(d, after, s)
    ensures IsBoundary(d, after, s, b) <==> IsBoundary(d, false, s, b)
  {
    hide First; hide DollarTag;
    if s != "" { FirstFresh(d, after, s); }
  }

  /**
   * Token-boundary decomposition: lexing both sides of a boundary on their own gives the token list, exactly when no
   * disabled dollar quote starts there.
   */
  lemma BoundaryDecomposition(d: Dialect, input: string, b: nat)
    requires IsBoundary(d, false, input, b)
    ensures b <= |input|
    ensures Tokenize(d, input) == Lex(d, false, input[..b], 0) + Shift(Tokenize(d, input[b..]), b)
            <==> !Disabled(d, AfterAt(false, input, b), input[b..])
  {
    hide Lex; hide Disabled; hide IsBoundary;
    LexSplit(d, false, input, 0, b);
    var front, rest, eof := Lex(d, false, input[..b], 0), input[b..], Token(Eof, "", |input|, |input|);
    var own, kept := Lex(d, false, rest, b), Lex(d, AfterAt(false, input, b), rest, b);
    ShiftTokenize(d, rest, b);
    RestartIff(d, AfterAt(false, input, b), rest, b);
    assert Tokenize(d, input) == front + (kept + [eof]);
    CancelBoth(front, kept, own, eof);
  }

  lemma ShiftTokenize(d: Dialect, s: string, b: nat)
    ensures Shift(Tokenize(d, s), b) == Lex(d, false, s, b) + [Token(Eof, "", |s| + b, |s| + b)]
  {
    hide Lex;
    LexShift(d, false, s, 0, b);
  }

  lemma CancelBoth(a: seq<Token>, x: seq<Token>, y: seq<Token>, e: Token)
    ensures a + (x + [e]) == a + (y + [e]) <==> x == y
  {
    if a + (x + [e]) == a + (y + [e]) {
      assert |x| == |y|;
      assert (a + (x + [e]))[|a|..|a| + |x|] == x && (a + (y + [e]))[|a|..|a| + |x|] == y;
    }
  }
}
