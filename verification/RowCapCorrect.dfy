/** Inserting the cap at a token end changes no other token. */
module RowCapCorrect {
  import opened Values
  import Lexer
  import LC = LexerCorrect
  import opened RowCap

  // ----- a piece is the same when the text is cut after it and continues with a space -----

  /** Cutting `s` at `m` and going on with a space. */
  ghost predicate CutsAt(s: string, m: nat, t: string) { m <= |s| && |t| > m && t[..m] == s[..m] && t[m] == ' ' }

  lemma CutTail(s: string, m: nat, t: string, n: nat)
    requires CutsAt(s, m, t) && n <= m
    ensures CutsAt(s[n..], m - n, t[n..]) && (n < m ==> t[n] == s[n])
  {
    assert t[n..][..m - n] == t[..m][n..] && s[n..][..m - n] == s[..m][n..];
    if n < m { assert t[..m][n] == s[..m][n]; }
  }

  lemma StartsAlike(p: string, s: string, m: nat, t: string)
    requires CutsAt(s, m, t) && |p| == 2 && p[1] != ' ' && m >= 1
    ensures p <= t <==> p <= s && m >= 2
  {
    assert t[0] == t[..m][0] == s[..m][0] == s[0];
    if m >= 2 { assert t[1] == t[..m][1] == s[..m][1] == s[1]; }
  }

  lemma {:induction false} CommentEndCut(s: string, depth: nat, m: nat, t: string)
    requires CutsAt(s, m, t) && CommentEnd(s, depth).Some? && CommentEnd(s, depth).value <= m
    ensures CommentEnd(t, depth) == CommentEnd(s, depth)
    decreases |s|
  {
    if depth > 0 {
      StartsAlike("/*", s, m, t);
      StartsAlike("*/", s, m, t);
      var n := if "/*" <= s || "*/" <= s then 2 else 1;
      CutTail(s, m, t, n);
      CommentEndCut(s[n..], if "/*" <= s then depth + 1 else if "*/" <= s then depth - 1 else depth, m - n, t[n..]);
    }
  }

  lemma {:induction false} QuoteEndCut(quote: char, s: string, m: nat, t: string)
    requires CutsAt(s, m, t) && QuoteEnd(quote, s).Some? && QuoteEnd(quote, s).value <= m && quote != ' '
    ensures QuoteEnd(quote, t) == QuoteEnd(quote, s)
    decreases |s|
  {
    CutTail(s, m, t, 0);
    CutTail(s, m, t, 1);
    if s[0] == '\\' || (s[0] == quote && |s| > 1 && s[1] == quote && QuoteEnd(quote, s).value > 1) {
      CutTail(s, m, t, 2);
      QuoteEndCut(quote, s[2..], m - 2, t[2..]);
    } else if s[0] != quote {
      QuoteEndCut(quote, s[1..], m - 1, t[1..]);
    }
  }

  lemma {:induction false} IndexOfTextCut(s: string, pattern: string, m: nat, t: string)
    requires CutsAt(s, m, t) && pattern != "" && Lexer.IndexOfText(s, pattern).Some? && Lexer.IndexOfText(s, pattern).value + |pattern| <= m
    ensures Lexer.IndexOfText(t, pattern) == Lexer.IndexOfText(s, pattern)
    decreases |s|
  {
    var p := |pattern|;
    assert t[..p] == t[..m][..p] && s[..p] == s[..m][..p];
    if !(pattern <= s) {
      CutTail(s, m, t, 1);
      IndexOfTextCut(s[1..], pattern, m - 1, t[1..]);
    }
  }

  lemma {:induction false} RunCut(p: char -> bool, s: string, m: nat, t: string)
    requires CutsAt(s, m, t) && !p(' ')
    ensures Lexer.Run(p, t) == if Lexer.Run(p, s) <= m then Lexer.Run(p, s) else m
    decreases |s|
  {
    if m > 0 {
      CutTail(s, m, t, 0);
      if p(s[0]) {
        CutTail(s, m, t, 1);
        RunCut(p, s[1..], m - 1, t[1..]);
      }
    }
  }

  lemma DollarTagCut(s: string, m: nat, t: string)
    requires CutsAt(s, m, t) && m > 0 && Lexer.DollarTag(s) <= m
    ensures Lexer.DollarTag(t) == Lexer.DollarTag(s)
  {
    CutTail(s, m, t, 0);
    if m > 1 {
      CutTail(s, m, t, 1);
      CutTail(s, m, t, 2);
      RunCut(Lexer.IsTagChar, s[2..], m - 2, t[2..]);
      var k := 2 + Lexer.Run(Lexer.IsTagChar, s[2..]);
      if k < m { CutTail(s, m, t, k); }
    }
  }

  lemma DollarEndCut(s: string, m: nat, t: string)
    requires CutsAt(s, m, t) && Lexer.DollarTag(s) > 0 && DollarEnd(s).Some? && DollarEnd(s).value <= m
    ensures Lexer.DollarTag(t) == Lexer.DollarTag(s) && DollarEnd(t) == DollarEnd(s)
  {
    hide Lexer.DollarTag;
    DollarTagCut(s, m, t);
    var n := Lexer.DollarTag(s);
    CutTail(s, m, t, n);
    assert t[..n] == t[..m][..n] && s[..n] == s[..m][..n];
    IndexOfTextCut(s[n..], s[..n], m - n, t[n..]);
  }

  lemma {:induction false} LineRunCut(s: string, m: nat, t: string)
    requires CutsAt(s, m, t) && Lexer.Run(Lexer.NotNewline, s) < m
    ensures Lexer.Run(Lexer.NotNewline, t) == Lexer.Run(Lexer.NotNewline, s)
    decreases |s|
  {
    CutTail(s, m, t, 0);
    if Lexer.NotNewline(s[0]) {
      CutTail(s, m, t, 1);
      LineRunCut(s[1..], m - 1, t[1..]);
    }
  }

  lemma PgPieceCut(s: string, m: nat, t: string)
    requires s != "" && CutsAt(s, m, t) && !PgPiece(s).Unclosed?
    requires if PgPiece(s).Skip? then Len(PgPiece(s)) < m else Len(PgPiece(s)) <= m
    ensures t != "" && PgPiece(t) == PgPiece(s) && t[0] == s[0]
  {
    hide Lexer.DollarTag; hide DollarEnd; hide CommentEnd; hide QuoteEnd; hide Lexer.Run; hide Lexer.IsSpace; hide IsLetter;
    var c := s[0];
    CutTail(s, m, t, 0);
    CutTail(s, m, t, 1);
    StartsAlike("--", s, m, t);
    StartsAlike("/*", s, m, t);
    if Lexer.IsSpace(c) {
    } else if "--" <= s {
      CutTail(s, m, t, 2);
      LineRunCut(s[2..], m - 2, t[2..]);
    } else if "/*" <= s {
      CutTail(s, m, t, 2);
      CommentEndCut(s[2..], 1, m - 2, t[2..]);
    } else if c == '\'' || c == '"' {
      QuoteEndCut(c, s[1..], m - 1, t[1..]);
    } else if Lexer.DollarTag(s) > 0 {
      DollarEndCut(s, m, t);
    } else {
      DollarTagCut(s, m, t);
      SpaceIsNoWord();
      if IsLetter(c) { RunCut(InWord, s[1..], m - 1, t[1..]); }
    }
  }

  /** Two dashes before the cut become a MySQL comment once a space follows them. */
  predicate EndsDashed(s: string, m: nat) { 2 <= m <= |s| && s[m - 2] == '-' && s[m - 1] == '-' }

  lemma LineCommentCut(s: string, m: nat, t: string)
    requires s != "" && CutsAt(s, m, t) && m > 0 && (IsLineComment(s) ==> LineEnd(s) < m) && !EndsDashed(s, m)
    ensures t != "" && (IsLineComment(t) <==> IsLineComment(s)) && (IsLineComment(s) ==> LineEnd(t) == LineEnd(s))
  {
    CutTail(s, m, t, 0);
    StartsAlike("--", s, m, t);
    if IsLineComment(s) {
      var from := if s[0] == '#' then 1 else 2;
      CutTail(s, m, t, 2);
      CutTail(s, m, t, from);
      LineRunCut(s[from..], m - from, t[from..]);
    } else if "--" <= s && m >= 2 {
      if m > 2 { CutTail(s, m, t, 2); }
    }
  }

  lemma MySqlPieceCut(s: string, m: nat, t: string)
    requires s != "" && CutsAt(s, m, t) && !MySqlPiece(s).Dangling? && !EndsDashed(s, m)
    requires if MySqlPiece(s).Skip? then Len(MySqlPiece(s)) < m else Len(MySqlPiece(s)) <= m
    ensures t != "" && MySqlPiece(t) == MySqlPiece(s) && t[0] == s[0]
  {
    hide QuoteEnd; hide Lexer.Run; hide Lexer.IsSpace; hide IsLetter; hide IsLineComment; hide LineEnd; hide Lexer.IndexOfText;
    var c := s[0];
    CutTail(s, m, t, 0);
    CutTail(s, m, t, 1);
    StartsAlike("/*", s, m, t);
    if Lexer.IsSpace(c) {
    } else {
      LineCommentCut(s, m, t);
      if IsLineComment(s) {
      } else if "/*" <= s {
        CutTail(s, m, t, 2);
        IndexOfTextCut(s[2..], "*/", m - 2, t[2..]);
      } else if c == '\'' || c == '"' || c == '`' {
        QuoteEndCut(c, s[1..], m - 1, t[1..]);
      } else {
        SpaceIsNoWord();
        if IsLetter(c) { RunCut(InWord, s[1..], m - 1, t[1..]); }
      }
    }
  }

  /** A skipped piece must end before the cut: a comment up to it would swallow what follows. */
  lemma PieceCut(f: Flavor, s: string, m: nat, t: string)
    requires s != "" && CutsAt(s, m, t) && !PieceAt(f, s).Unclosed? && !PieceAt(f, s).Dangling? && (f.MySql? ==> !EndsDashed(s, m))
    requires if PieceAt(f, s).Skip? then Len(PieceAt(f, s)) < m else Len(PieceAt(f, s)) <= m
    ensures t != "" && PieceAt(f, t) == PieceAt(f, s) && t[0] == s[0]
  {
    hide PgPiece; hide MySqlPiece;
    if f.Pg? { PgPieceCut(s, m, t); } else { MySqlPieceCut(s, m, t); }
  }

  lemma SpaceIsNoWord()
    ensures !InWord(' ')
  {
  }

  // ----- the token list around an insertion -----

  function DepthAfter(f: Flavor, ts: seq<Token>, depth: nat): nat {
    if ts == [] then depth
    else var next := NextDepth(f, ts[0], depth); DepthAfter(f, ts[1..], if next.Some? then next.value else depth)
  }

  function Before(ts: seq<Token>, r: Option<seq<Token>>): Option<seq<Token>> { if r.Some? then Some(ts + r.value) else None }

  lemma ScanStep(f: Flavor, s: string, base: nat, depth: nat)
    requires s != ""
    ensures var p := PieceAt(f, s);
            Scan(f, s, base, depth)
            == if p.Unclosed? then None
               else if p.Skip? then Scan(f, s[p.len..], base + p.len, depth)
               else var t := TokenOf(f, p, s, base, depth);
                    if NextDepth(f, t, depth).None? then None else Cons(t, Scan(f, s[Len(p)..], base + Len(p), NextDepth(f, t, depth).value))
  {
    hide PieceAt; hide TokenOf; hide NextDepth;
  }

  lemma ScanEmpty(f: Flavor, base: nat, depth: nat)
    ensures Scan(f, "", base, depth) == if f.MySql? || depth == 0 then Some([]) else None
  {
  }

  /** Tokens lie in the text, in order. */
  ghost predicate InText(ts: seq<Token>, lo: nat, hi: nat) {
    && (forall i | 0 <= i < |ts| :: lo <= ts[i].start < ts[i].end <= hi)
    && (forall i, j | 0 <= i < j < |ts| :: ts[i].end <= ts[j].start)
  }

  lemma InTextCons(t: Token, ts: seq<Token>, lo: nat, hi: nat)
    requires InText(ts, t.end, hi) && lo <= t.start < t.end <= hi
    ensures InText([t] + ts, lo, hi)
  {
  }

  lemma InTextLater(ts: seq<Token>, lo: nat, lo': nat, hi: nat)
    requires InText(ts, lo', hi) && lo <= lo'
    ensures InText(ts, lo, hi)
  {
  }

  lemma TokenSpan(f: Flavor, s: string, base: nat, depth: nat)
    requires s != "" && !PieceAt(f, s).Skip? && !PieceAt(f, s).Unclosed?
    ensures var t := TokenOf(f, PieceAt(f, s), s, base, depth); t.start == base && t.end == base + Len(PieceAt(f, s)) && 1 <= Len(PieceAt(f, s)) <= |s|
  {
    hide PieceAt;
  }

  lemma {:induction false} ScanInText(f: Flavor, s: string, base: nat, depth: nat)
    requires Scan(f, s, base, depth).Some?
    ensures InText(Scan(f, s, base, depth).value, base, base + |s|)
    decreases |s|
  {
    hide PieceAt; hide Scan; hide InText; hide TokenOf; hide NextDepth;
    if s == "" {
      ScanEmpty(f, base, depth);
      NoTokens(base, base);
    } else {
      ScanStep(f, s, base, depth);
      var p := PieceAt(f, s);
      if p.Skip? {
        ScanInText(f, s[p.len..], base + p.len, depth);
        InTextLater(Scan(f, s, base, depth).value, base, base + p.len, base + |s|);
      } else {
        TokenSpan(f, s, base, depth);
        var t := TokenOf(f, p, s, base, depth);
        ScanInText(f, s[Len(p)..], base + Len(p), NextDepth(f, t, depth).value);
        InTextCons(t, Scan(f, s[Len(p)..], base + Len(p), NextDepth(f, t, depth).value).value, base, base + |s|);
      }
    }
  }

  lemma NoTokens(lo: nat, hi: nat)
    ensures InText([], lo, hi)
  {
  }

  lemma EndAt(ts: seq<Token>, lo: nat, hi: nat, k: nat)
    requires InText(ts, lo, hi) && k < |ts|
    ensures lo < ts[k].end <= hi
  {
  }

  lemma TokenSame(f: Flavor, s: string, t: string, m: nat, base: nat, depth: nat)
    requires s != "" && CutsAt(s, m, t) && PieceAt(f, t) == PieceAt(f, s) && t != "" && t[0] == s[0] && Len(PieceAt(f, s)) <= m
    requires PieceAt(f, s).Word? || PieceAt(f, s).Opaque? || PieceAt(f, s).Symbol?
    ensures TokenOf(f, PieceAt(f, t), t, base, depth) == TokenOf(f, PieceAt(f, s), s, base, depth)
  {
    hide PieceAt;
    var n := Len(PieceAt(f, s));
    assert t[..n] == t[..m][..n] && s[..n] == s[..m][..n];
  }

  /** What cutting after token `k` and going on with a space keeps. */
  ghost predicate CutKept(f: Flavor, s: string, base: nat, depth: nat, k: nat, m: nat, t: string)
    requires Scan(f, s, base, depth).Some? && k < |Scan(f, s, base, depth).value| && m <= |s| && m <= |t|
  {
    var ts := Scan(f, s, base, depth).value;
    var after := DepthAfter(f, ts[..k + 1], depth);
    && Scan(f, t, base, depth) == Before(ts[..k + 1], Scan(f, t[m..], base + m, after))
    && Scan(f, s[m..], base + m, after) == Some(ts[k + 1..])
  }

  lemma CutKeptFirst(f: Flavor, s: string, base: nat, depth: nat, m: nat, t: string)
    requires s != "" && Scan(f, s, base, depth).Some? && !PieceAt(f, s).Skip? && !PieceAt(f, s).Dangling?
    requires m == Len(PieceAt(f, s)) && CutsAt(s, m, t) && (f.MySql? ==> !EndsDashed(s, m))
    ensures |Scan(f, s, base, depth).value| > 0 && CutKept(f, s, base, depth, 0, m, t)
  {
    hide PieceAt; hide Scan; hide TokenOf; hide NextDepth; hide CutsAt;
    ScanStep(f, s, base, depth);
    var x := TokenOf(f, PieceAt(f, s), s, base, depth);
    TokenSpan(f, s, base, depth);
    CutInside(s, m, t);
    PieceCut(f, s, m, t);
    TokenSame(f, s, t, m, base, depth);
    ScanStep(f, t, base, depth);
    OneToken(f, x, Scan(f, s[m..], base + m, NextDepth(f, x, depth).value).value, depth);
  }

  lemma CutInside(s: string, m: nat, t: string)
    requires CutsAt(s, m, t)
    ensures m <= |s| && m < |t|
  {
  }

  lemma CutKeptSkip(f: Flavor, s: string, base: nat, depth: nat, k: nat, m: nat, t: string, n: nat, u: string, v: string)
    requires s != "" && PieceAt(f, s).Skip? && n == Len(PieceAt(f, s)) < m <= |s| && m <= |t| && u == s[n..] && v == t[n..]
    requires CutsAt(s, m, t) && CutsAt(u, m - n, v) && (f.MySql? ==> !EndsDashed(s, m))
    requires Scan(f, s, base, depth).Some? && k < |Scan(f, s, base, depth).value|
    requires Scan(f, u, base + n, depth) == Scan(f, s, base, depth) && m - n <= |u| && m - n <= |v|
    requires CutKept(f, u, base + n, depth, k, m - n, v)
    ensures CutKept(f, s, base, depth, k, m, t)
  {
    hide PieceAt; hide Scan; hide TokenOf; hide NextDepth; hide CutsAt; hide DepthAfter;
    PieceCut(f, s, m, t);
    ScanStep(f, t, base, depth);
    SliceTwice(s, t, n, m);
  }

  lemma CutKeptToken(f: Flavor, s: string, base: nat, depth: nat, k: nat, m: nat, t: string, n: nat, u: string, v: string, next: nat)
    requires 0 < k && n < m && m - n <= |u| && m - n <= |v|
    requires Scan(f, u, base + n, next).Some? && k - 1 < |Scan(f, u, base + n, next).value|
    requires CutKept(f, u, base + n, next, k - 1, m - n, v)
    requires m <= |s| && m <= |t| && CutsAt(s, m, t) && CutsAt(u, m - n, v) && (f.MySql? ==> !EndsDashed(s, m))
    requires s != "" && Scan(f, s, base, depth).Some? && k < |Scan(f, s, base, depth).value|
    requires !PieceAt(f, s).Skip? && !PieceAt(f, s).Dangling? && n == Len(PieceAt(f, s)) && u == s[n..] && v == t[n..]
    requires NextDepth(f, TokenOf(f, PieceAt(f, s), s, base, depth), depth) == Some(next)
    ensures CutKept(f, s, base, depth, k, m, t)
  {
    hide PieceAt; hide Scan; hide TokenOf; hide NextDepth; hide CutsAt; hide DepthAfter;
    var x := TokenOf(f, PieceAt(f, s), s, base, depth);
    var rest := Scan(f, u, base + n, next).value;
    ScanStep(f, s, base, depth);
    PieceCut(f, s, m, t);
    TokenSame(f, s, t, m, base, depth);
    ScanStep(f, t, base, depth);
    SliceTwice(s, t, n, m);
    MoreTokens(f, x, rest, k, depth);
    BeforeCons(x, rest[..k], Scan(f, v[m - n..], base + m, DepthAfter(f, rest[..k], next)));
  }

  /**
   * Cutting after token `k` and going on with a space: the first `k + 1` tokens stay, and the rest is scanned from there, in
   * the new text as in the old.
   */
  lemma {:induction false} ScanCut(f: Flavor, s: string, base: nat, depth: nat, k: nat, m: nat, t: string)
    requires Scan(f, s, base, depth).Some? && k < |Scan(f, s, base, depth).value|
    requires m <= |s| && base + m == Scan(f, s, base, depth).value[k].end && CutsAt(s, m, t)
    requires !Dangles(f, s) && (f.MySql? ==> !EndsDashed(s, m))
    ensures m <= |t| && CutKept(f, s, base, depth, k, m, t)
    decreases |s|
  {
    hide PieceAt; hide Scan; hide TokenOf; hide NextDepth; hide CutsAt; hide InText; hide CutKept;
    CutInside(s, m, t);
    ScanEmpty(f, base, depth);
    ScanStep(f, s, base, depth);
    FirstTokenEnd(f, s, base, depth, k);
    var p, n := PieceAt(f, s), Len(PieceAt(f, s));
    if p.Skip? {
      CutTail(s, m, t, n);
      ScanCut(f, s[n..], base + n, depth, k, m - n, t[n..]);
      CutKeptSkip(f, s, base, depth, k, m, t, n, s[n..], t[n..]);
    } else {
      TokenSpan(f, s, base, depth);
      if k == 0 {
        CutKeptFirst(f, s, base, depth, m, t);
      } else {
        CutTail(s, m, t, n);
        var next := NextDepth(f, TokenOf(f, p, s, base, depth), depth).value;
        ScanCut(f, s[n..], base + n, next, k - 1, m - n, t[n..]);
        CutKeptToken(f, s, base, depth, k, m, t, n, s[n..], t[n..], next);
      }
    }
  }

  lemma BeforeCons(x: Token, ts: seq<Token>, r: Option<seq<Token>>)
    ensures Cons(x, Before(ts, r)) == Before([x] + ts, r)
  {
    if r.Some? { assert [x] + (ts + r.value) == ([x] + ts) + r.value; }
  }

  lemma SliceTwice(s: string, t: string, n: nat, m: nat)
    requires n <= m <= |s| && m <= |t|
    ensures s[n..][m - n..] == s[m..] && t[n..][m - n..] == t[m..]
  {
  }

  lemma OneToken(f: Flavor, x: Token, rest: seq<Token>, depth: nat)
    requires NextDepth(f, x, depth).Some?
    ensures ([x] + rest)[..1] == [x] && ([x] + rest)[1..] == rest && DepthAfter(f, [x], depth) == NextDepth(f, x, depth).value
  {
    hide NextDepth;
    assert [x][1..] == [];
  }

  lemma MoreTokens(f: Flavor, x: Token, rest: seq<Token>, k: nat, depth: nat)
    requires NextDepth(f, x, depth).Some? && 0 < k <= |rest|
    ensures ([x] + rest)[..k + 1] == [x] + rest[..k] && ([x] + rest)[k + 1..] == rest[k..]
    ensures DepthAfter(f, [x] + rest[..k], depth) == DepthAfter(f, rest[..k], NextDepth(f, x, depth).value)
  {
    hide NextDepth;
    assert ([x] + rest[..k])[1..] == rest[..k];
  }

  // ----- the inserted text -----

  /** Characters that are a token each: the limit's digits, and the parameter mark. */
  predicate IsMark(c: char) { Lexer.IsDigit(c) || c == '?' }

  ghost predicate AllMarks(w: string) { forall i | 0 <= i < |w| :: IsMark(w[i]) }

  function Marks(w: string, base: nat, depth: nat): (r: seq<Token>)
    ensures |r| == |w| && forall i | 0 <= i < |w| :: r[i] == Token(false, [w[i]], base + i, base + i + 1, depth)
  {
    seq(|w|, i requires 0 <= i < |w| => Token(false, [w[i]], base + i, base + i + 1, depth))
  }

  lemma MarksCons(w: string, base: nat, depth: nat)
    requires w != ""
    ensures Marks(w, base, depth) == [Token(false, [w[0]], base, base + 1, depth)] + Marks(w[1..], base + 1, depth)
  {
  }

  lemma NoMarks(base: nat, depth: nat)
    ensures Marks("", base, depth) == []
  {
  }

  lemma MarkPiece(f: Flavor, s: string)
    requires s != "" && IsMark(s[0])
    ensures PieceAt(f, s) == Symbol
  {
  }

  lemma MarkToken(f: Flavor, s: string, base: nat, depth: nat)
    requires s != "" && IsMark(s[0])
    ensures PieceAt(f, s) == Symbol
    ensures TokenOf(f, Symbol, s, base, depth) == Token(false, [s[0]], base, base + 1, depth)
    ensures NextDepth(f, TokenOf(f, Symbol, s, base, depth), depth) == Some(depth)
  {
    MarkPiece(f, s);
    MarkIsNoParenthesis(s[0]);
    hide PieceAt; hide IsMark;
  }

  lemma MarkIsNoParenthesis(c: char)
    requires IsMark(c)
    ensures c != '(' && c != ')' && c != ';'
  {
  }

  lemma {:induction false} MarksScan(f: Flavor, w: string, rest: string, base: nat, depth: nat)
    requires AllMarks(w)
    ensures Scan(f, w + rest, base, depth) == Before(Marks(w, base, depth), Scan(f, rest, base + |w|, depth))
    decreases |w|
  {
    hide PieceAt; hide Scan; hide Marks; hide TokenOf; hide NextDepth; hide IsMark;
    if w == "" {
      assert w + rest == rest;
      NoMarks(base, depth);
      BeforeNothing(Scan(f, rest, base, depth));
    } else {
      var s := w + rest;
      assert s[0] == w[0] && s[1..] == w[1..] + rest;
      MarkToken(f, s, base, depth);
      ScanStep(f, s, base, depth);
      MarksScan(f, w[1..], rest, base + 1, depth);
      MarksCons(w, base, depth);
      BeforeCons(Token(false, [w[0]], base, base + 1, depth), Marks(w[1..], base + 1, depth), Scan(f, rest, base + |w|, depth));
    }
  }

  lemma BeforeNothing(r: Option<seq<Token>>)
    ensures Before([], r) == r
  {
    if r.Some? { assert [] + r.value == r.value; }
  }

  lemma LimitPieces(f: Flavor, rest: string)
    ensures PieceAt(f, " LIMIT " + rest) == Skip(1) && PieceAt(f, "LIMIT " + rest) == Word(5) && PieceAt(f, " " + rest) == Skip(1)
  {
    hide DollarEnd; hide CommentEnd; hide QuoteEnd; hide Lexer.DollarTag; hide LineEnd;
    var s := "LIMIT " + rest;
    var w := "IMIT";
    assert s[1..] == w + (" " + rest);
    RunOver(InWord, w, " " + rest);
  }

  lemma {:induction false} RunOver(p: char -> bool, w: string, rest: string)
    requires (forall i | 0 <= i < |w| :: p(w[i])) && rest != "" && !p(rest[0])
    ensures Lexer.Run(p, w + rest) == |w|
  {
    if w == "" { assert w + rest == rest; }
    else {
      assert (w + rest)[1..] == w[1..] + rest;
      RunOver(p, w[1..], rest);
    }
  }

  function LimitValue(f: Flavor): string { if f.Pg? then "limit" else "LIMIT" }

  function LimitWord(f: Flavor, base: nat, depth: nat): Token { Token(true, LimitValue(f), base + 1, base + 6, depth) }

  lemma LimitCase(f: Flavor, rest: string)
    ensures ("LIMIT " + rest)[..5] == "LIMIT" && Lexer.Lower("LIMIT") == "limit" && Lexer.Upper("LIMIT") == "LIMIT"
  {
  }

  lemma LimitToken(f: Flavor, rest: string, base: nat, depth: nat)
    ensures PieceAt(f, "LIMIT " + rest) == Word(5)
    ensures TokenOf(f, Word(5), "LIMIT " + rest, base + 1, depth) == LimitWord(f, base, depth)
    ensures NextDepth(f, LimitWord(f, base, depth), depth) == Some(depth)
  {
    hide PieceAt;
    LimitPieces(f, rest);
    LimitCase(f, rest);
  }

  /** Scanning the inserted clause gives the word and its marks, and goes on with what follows. */
  lemma LimitScan(f: Flavor, w: string, rest: string, base: nat, depth: nat)
    requires AllMarks(w)
    ensures Scan(f, " LIMIT " + (w + rest), base, depth)
            == Before([LimitWord(f, base, depth)] + Marks(w, base + 7, depth), Scan(f, rest, base + 7 + |w|, depth))
  {
    hide PieceAt; hide Scan; hide Marks; hide TokenOf; hide NextDepth; hide LimitWord;
    var x := w + rest;
    var a, b, c := " LIMIT " + x, "LIMIT " + x, " " + x;
    LimitPieces(f, x);
    LimitToken(f, x, base, depth);
    assert a[1..] == b && b[5..] == c && c[1..] == x;
    ScanStep(f, a, base, depth);
    ScanStep(f, b, base + 1, depth);
    ScanStep(f, c, base + 6, depth);
    MarksScan(f, w, rest, base + 7, depth);
    assert Scan(f, a, base, depth) == Cons(LimitWord(f, base, depth), Scan(f, x, base + 7, depth));
    BeforeCons(LimitWord(f, base, depth), Marks(w, base + 7, depth), Scan(f, rest, base + 7 + |w|, depth));
  }

  // ----- moving -----

  function Moved(ts: seq<Token>, delta: nat): (r: seq<Token>)
    ensures |r| == |ts| && forall i | 0 <= i < |ts| :: r[i] == ts[i].(start := ts[i].start + delta, end := ts[i].end + delta)
  {
    seq(|ts|, i requires 0 <= i < |ts| => ts[i].(start := ts[i].start + delta, end := ts[i].end + delta))
  }

  lemma MovedCons(t: Token, ts: seq<Token>, delta: nat)
    ensures Moved([t] + ts, delta) == [t.(start := t.start + delta, end := t.end + delta)] + Moved(ts, delta)
  {
  }

  lemma {:induction false} ScanMoved(f: Flavor, s: string, base: nat, depth: nat, delta: nat)
    ensures Scan(f, s, base + delta, depth)
            == var r := Scan(f, s, base, depth); if r.Some? then Some(Moved(r.value, delta)) else None
    decreases |s|
  {
    hide PieceAt; hide Scan; hide Moved;
    if s == "" {
      ScanEmpty(f, base, depth);
      ScanEmpty(f, base + delta, depth);
      MovedNothing(delta);
    } else {
      ScanStep(f, s, base, depth);
      ScanStep(f, s, base + delta, depth);
      var p := PieceAt(f, s);
      if p.Skip? {
        ScanMoved(f, s[p.len..], base + p.len, depth, delta);
      } else if !p.Unclosed? {
        var t := TokenOf(f, p, s, base, depth);
        var next := NextDepth(f, t, depth);
        if next.Some? {
          ScanMoved(f, s[Len(p)..], base + Len(p), next.value, delta);
          var r := Scan(f, s[Len(p)..], base + Len(p), next.value);
          if r.Some? { MovedCons(t, r.value, delta); }
        }
      }
    }
  }

  lemma MovedNothing(delta: nat)
    ensures Moved([], delta) == []
  {
  }

  // ----- inserting a clause -----

  /** When PostgreSQL's scan ends here, or a top-level semicolon follows, the parentheses are balanced. */
  lemma {:induction false} BalancedHere(f: Flavor, s: string, base: nat, depth: nat)
    requires Scan(f, s, base, depth).Some?
    requires var ts := Scan(f, s, base, depth).value; if ts == [] then f.Pg? else IsSemicolon(ts[0])
    ensures depth == 0
    decreases |s|
  {
    hide PieceAt; hide Scan;
    ScanEmpty(f, base, depth);
    if s != "" {
      ScanStep(f, s, base, depth);
      if PieceAt(f, s).Skip? { BalancedHere(f, s[PieceAt(f, s).len..], base + PieceAt(f, s).len, depth); }
    }
  }

  /** The clause goes after the statement's last token; what follows it has at most a semicolon. */
  ghost predicate ClausePoint(f: Flavor, sql: string, at: nat) {
    var ts := Scan(f, sql, 0, 0);
    && ts.Some? && 0 < FirstSemicolon(ts.value) <= |ts.value| <= FirstSemicolon(ts.value) + 1
    && at == ts.value[FirstSemicolon(ts.value) - 1].end && at <= |sql|
  }

  /** The tokens of a text with the clause " LIMIT w" inserted: those before, the clause's own, those after it moved. */
  ghost predicate InsertedExactly(f: Flavor, sql: string, at: nat, w: string)
    requires ClausePoint(f, sql, at)
  {
    var ts := Scan(f, sql, 0, 0).value;
    var k := FirstSemicolon(ts);
    var depth := DepthAfter(f, ts[..k], 0);
    Scan(f, Insert(sql, at, " LIMIT " + w), 0, 0)
    == Some(ts[..k] + ([LimitWord(f, at, depth)] + Marks(w, at + 7, depth)) + Moved(ts[k..], 7 + |w|))
  }

  lemma InsertCuts(sql: string, at: nat, w: string)
    requires at <= |sql|
    ensures CutsAt(sql, at, Insert(sql, at, " LIMIT " + w))
    ensures Insert(sql, at, " LIMIT " + w)[at..] == " LIMIT " + (w + sql[at..])
  {
  }

  lemma JoinTokens(a: seq<Token>, b: seq<Token>, c: seq<Token>)
    ensures Before(a, Before(b, Some(c))) == Some(a + b + c)
  {
    assert a + (b + c) == a + b + c;
  }

  lemma InsertIsExact(f: Flavor, sql: string, at: nat, w: string)
    requires ClausePoint(f, sql, at) && AllMarks(w) && !Dangles(f, sql) && (f.MySql? ==> !EndsDashed(sql, at))
    ensures InsertedExactly(f, sql, at, w)
  {
    hide Scan; hide Marks; hide PieceAt; hide LimitWord; hide Moved; hide DepthAfter; hide Dangles;
    var ts := Scan(f, sql, 0, 0).value;
    var k, rest, t := FirstSemicolon(ts), sql[at..], Insert(sql, at, " LIMIT " + w);
    InsertCuts(sql, at, w);
    ScanCut(f, sql, 0, 0, k - 1, at, t);
    var depth := DepthAfter(f, ts[..k], 0);
    LimitScan(f, w, rest, at, depth);
    ScanMoved(f, rest, at, depth, 7 + |w|);
    JoinTokens(ts[..k], [LimitWord(f, at, depth)] + Marks(w, at + 7, depth), Moved(ts[k..], 7 + |w|));
  }

  lemma DepthAtClause(f: Flavor, sql: string, at: nat)
    requires ClausePoint(f, sql, at) && !Dangles(f, sql) && (f.MySql? ==> !EndsDashed(sql, at))
    ensures var ts := Scan(f, sql, 0, 0).value;
            var k := FirstSemicolon(ts);
            f.Pg? || k < |ts| ==> DepthAfter(f, ts[..k], 0) == 0
  {
    hide Scan; hide PieceAt; hide Dangles;
    var ts := Scan(f, sql, 0, 0).value;
    var k := FirstSemicolon(ts);
    InsertCuts(sql, at, "");
    ScanCut(f, sql, 0, 0, k - 1, at, Insert(sql, at, " LIMIT " + ""));
    if f.Pg? || k < |ts| { BalancedHere(f, sql[at..], at, DepthAfter(f, ts[..k], 0)); }
  }

  lemma PointInside(f: Flavor, sql: string)
    requires var ts := Scan(f, sql, 0, 0); ts.Some? && OnlyStatement(ts.value).Some? && OnlyStatement(ts.value).value != []
    ensures var stmt := OnlyStatement(Scan(f, sql, 0, 0).value).value; ClausePoint(f, sql, stmt[|stmt| - 1].end)
  {
    hide Scan;
    var ts := Scan(f, sql, 0, 0).value;
    ScanInText(f, sql, 0, 0);
    EndAt(ts, 0, |sql|, FirstSemicolon(ts) - 1);
  }

  // ----- PostgreSQL -----

  lemma DecMarks(n: nat)
    ensures AllMarks(Dec(n))
  {
    forall i | 0 <= i < |Dec(n)| ensures IsMark(Dec(n)[i]) {
      assert Dec(n)[i] in Dec(n);
      DigitsAreMarks(Dec(n)[i]);
    }
  }

  lemma DigitsAreMarks(c: char)
    requires c in DIGITS
    ensures IsMark(c)
  {
  }

  lemma {:induction false} PgNeverDangles(s: string)
    ensures !Dangles(Pg, s)
    decreases |s|
  {
    hide PgPiece;
    if s != "" { PgNeverDangles(s[Len(PieceAt(Pg, s))..]); }
  }

  lemma CapPointIs(sql: string)
    requires CapPoint(sql).Some?
    ensures ClausePoint(Pg, sql, CapPoint(sql).value) && Cappable(OnlyStatement(Scan(Pg, sql, 0, 0).value).value)
  {
    hide Scan; hide HasWord; hide ClausePoint;
    PointInside(Pg, sql);
  }

  /**
   * A capped text lexes to the statement's own tokens, then LIMIT and the digits of one more than the limit, then the
   * semicolon if there was one: neither a comment nor a literal swallows the clause, and no token before or after changes.
   */
  lemma CapIsExact(sql: string, limit: nat)
    requires 0 < limit <= MAX_SAFE_INTEGER && CapPoint(sql).Some?
    ensures ClausePoint(Pg, sql, CapPoint(sql).value)
    ensures ApplyServerRowCap(sql, limit) == Insert(sql, CapPoint(sql).value, " LIMIT " + Dec(limit + 1))
    ensures InsertedExactly(Pg, sql, CapPoint(sql).value, Dec(limit + 1))
    ensures var ts := Scan(Pg, sql, 0, 0).value; DepthAfter(Pg, ts[..FirstSemicolon(ts)], 0) == 0
  {
    hide Scan; hide Dec; hide Cappable; hide InsertedExactly;
    CapPointIs(sql);
    DecMarks(limit + 1);
    PgNeverDangles(sql);
    InsertIsExact(Pg, sql, CapPoint(sql).value, Dec(limit + 1));
    DepthAtClause(Pg, sql, CapPoint(sql).value);
  }

  lemma FirstSemicolonPast(ts: seq<Token>, k: nat)
    requires k < |ts| && forall i | 0 <= i <= k :: !IsSemicolon(ts[i])
    ensures FirstSemicolon(ts) > k
  {
    var j := FirstSemicolon(ts);
    assert j < |ts| ==> IsSemicolon(ts[j]);
  }

  lemma CappedHasLimit(stmt: seq<Token>, clause: seq<Token>, tail: seq<Token>)
    requires (forall i | 0 <= i < |stmt| :: !IsSemicolon(stmt[i])) && clause != [] && clause[0].word && clause[0].value == "limit"
    ensures var all := stmt + clause + tail;
            FirstSemicolon(all) > |stmt| && HasWord(all[..FirstSemicolon(all)], CAPS)
  {
    var all := stmt + clause + tail;
    assert all[|stmt|] == clause[0];
    FirstSemicolonPast(all, |stmt|);
    var front := all[..FirstSemicolon(all)];
    assert front[|stmt|] == clause[0] && CAPS[0] == "limit";
    assert IsWord(front[|stmt|], CAPS);
  }

  /** A text whose statement has a LIMIT word gets no clause. */
  lemma CappedHasNoPoint(sql: string, stmt: seq<Token>, clause: seq<Token>, tail: seq<Token>)
    requires (forall i | 0 <= i < |stmt| :: !IsSemicolon(stmt[i])) && clause != [] && clause[0].word && clause[0].value == "limit"
    requires Scan(Pg, sql, 0, 0) == Some(stmt + clause + tail)
    ensures CapPoint(sql).None?
  {
    hide Scan; hide HasWord; hide IsSemicolon;
    CappedHasLimit(stmt, clause, tail);
  }

  /** A capped text is left alone afterwards, whatever limit is asked for then. */
  lemma CapOnce(sql: string, limit: nat, again: int)
    requires 0 < limit <= MAX_SAFE_INTEGER && CapPoint(sql).Some?
    ensures ApplyServerRowCap(ApplyServerRowCap(sql, limit), again) == ApplyServerRowCap(sql, limit)
  {
    hide Scan; hide Marks; hide Dec; hide DepthAfter; hide CapPoint; hide Insert; hide Moved; hide IsSemicolon;
    CapIsExact(sql, limit);
    var ts, at := Scan(Pg, sql, 0, 0).value, CapPoint(sql).value;
    var k := FirstSemicolon(ts);
    CappedHasNoPoint(ApplyServerRowCap(sql, limit), ts[..k], [LimitWord(Pg, at, 0)] + Marks(Dec(limit + 1), at + 7, 0),
                     Moved(ts[k..], 7 + |Dec(limit + 1)|));
  }

  /** Capping twice is capping once, for every text and limit. */
  lemma CapIdempotent(sql: string, limit: int)
    ensures ApplyServerRowCap(ApplyServerRowCap(sql, limit), limit) == ApplyServerRowCap(sql, limit)
  {
    hide CapPoint; hide LimitText;
    if 0 < limit <= MAX_SAFE_INTEGER && CapPoint(sql).Some? { CapOnce(sql, limit, limit); }
  }

  // ----- MySQL -----

  /** A token stands where the text has its piece. */
  ghost predicate StandsAt(f: Flavor, s: string, base: nat, t: Token) {
    && base <= t.start < t.end <= base + |s|
    && !PieceAt(f, s[t.start - base..]).Skip? && Len(PieceAt(f, s[t.start - base..])) == t.end - t.start
  }

  lemma {:induction false} TokensStand(f: Flavor, s: string, base: nat, depth: nat, i: nat)
    requires Scan(f, s, base, depth).Some? && i < |Scan(f, s, base, depth).value|
    ensures StandsAt(f, s, base, Scan(f, s, base, depth).value[i])
    decreases |s|
  {
    hide PieceAt; hide Scan; hide TokenOf; hide NextDepth;
    ScanEmpty(f, base, depth);
    ScanStep(f, s, base, depth);
    var p := PieceAt(f, s);
    var n := Len(p);
    var t := Scan(f, s, base, depth).value[i];
    if p.Skip? {
      TokensStand(f, s[n..], base + n, depth, i);
      assert s[n..][t.start - (base + n)..] == s[t.start - base..];
    } else {
      TokenSpan(f, s, base, depth);
      var x := TokenOf(f, p, s, base, depth);
      if i == 0 { assert s[0..] == s; }
      else {
        TokensStand(f, s[n..], base + n, NextDepth(f, x, depth).value, i - 1);
        assert s[n..][t.start - (base + n)..] == s[t.start - base..];
      }
    }
  }

  lemma PreparePointIs(sql: string)
    requires PreparePoint(sql).Some?
    ensures ClausePoint(MySql, sql, PreparePoint(sql).value)
  {
    hide Scan; hide IsReadQuery; hide HasTopLevel; hide ClausePoint;
    PointInside(MySql, sql);
  }

  /** Two dashes with a space after them start a comment. */
  lemma DashesComment(s: string)
    requires "-- " <= s
    ensures MySqlPiece(s).Skip?
  {
    assert s[0] == '-' && s[1] == '-' && s[2] == ' ' && "--" <= s;
  }

  lemma {:induction false} QuoteEndLast(quote: char, s: string)
    requires QuoteEnd(quote, s).Some?
    ensures s[QuoteEnd(quote, s).value - 1] == quote
  {
    if s[0] == '\\' { QuoteEndLast(quote, s[2..]); }
    else if s[0] == quote { if |s| > 1 && s[1] == quote { QuoteEndLast(quote, s[2..]); } }
    else { QuoteEndLast(quote, s[1..]); }
  }

  lemma {:induction false} IndexOfTextFound(s: string, pattern: string)
    requires pattern != "" && Lexer.IndexOfText(s, pattern).Some?
    ensures var v := Lexer.IndexOfText(s, pattern).value; s[v..v + |pattern|] == pattern
  {
    if !(pattern <= s) {
      IndexOfTextFound(s[1..], pattern);
      var v := Lexer.IndexOfText(s[1..], pattern).value;
      assert s[1..][v..v + |pattern|] == s[v + 1..v + 1 + |pattern|];
    }
  }

  /** No piece but a symbol ends in a dash. */
  lemma PieceLast(s: string)
    requires s != "" && !MySqlPiece(s).Dangling? && !MySqlPiece(s).Symbol?
    requires MySqlPiece(s).Skip? ==> MySqlPiece(s).len < |s|
    ensures s[MySqlPiece(s).len - 1] != '-'
  {
    hide QuoteEnd; hide Lexer.IsSpace; hide Lexer.IndexOfText; hide Lexer.Run;
    var c := s[0];
    if Lexer.IsSpace(c) {
      SpaceIsNoDash(c);
    } else if IsLineComment(s) {
    } else if "/*" <= s {
      var r := Lexer.IndexOfText(s[2..], "*/");
      if r.Some? {
        IndexOfTextFound(s[2..], "*/");
        assert s[2..][r.value..r.value + 2][1] == s[2 + r.value + 1];
      }
    } else if c == '\'' || c == '"' || c == '`' {
      if QuoteEnd(c, s[1..]).Some? { QuoteEndLast(c, s[1..]); }
    }
  }

  lemma SpaceIsNoDash(c: char)
    requires Lexer.IsSpace(c)
    ensures c != '-'
  {
  }

  lemma FirstTokenEnd(f: Flavor, s: string, base: nat, depth: nat, i: nat)
    requires s != "" && Scan(f, s, base, depth).Some? && i < |Scan(f, s, base, depth).value|
    ensures base + Len(PieceAt(f, s)) <= Scan(f, s, base, depth).value[i].end
    ensures PieceAt(f, s).Skip? || i > 0 ==> base + Len(PieceAt(f, s)) < Scan(f, s, base, depth).value[i].end
    ensures !PieceAt(f, s).Skip? && i == 0 ==> Scan(f, s, base, depth).value[i].start == base
  {
    hide PieceAt; hide Scan; hide TokenOf; hide NextDepth; hide InText;
    ScanStep(f, s, base, depth);
    var p := PieceAt(f, s);
    if p.Skip? {
      ScanInText(f, s[p.len..], base + p.len, depth);
      EndAt(Scan(f, s, base, depth).value, base + p.len, base + |s|, i);
    } else {
      TokenSpan(f, s, base, depth);
      var next := NextDepth(f, TokenOf(f, p, s, base, depth), depth).value;
      if i > 0 {
        ScanInText(f, s[Len(p)..], base + Len(p), next);
        EndAt(Scan(f, s[Len(p)..], base + Len(p), next).value, base + Len(p), base + |s|, i - 1);
      }
    }
  }

  /** Two dashes up to a token end are two tokens. */
  lemma {:induction false} DashTokens(s: string, base: nat, depth: nat, i: nat, m: nat)
    requires i < |Scan(MySql, s, base, depth).value| && Scan(MySql, s, base, depth).value[i].end == base + m
    requires EndsDashed(s, m) && !Dangles(MySql, s)
    ensures i >= 1 && Scan(MySql, s, base, depth).value[i - 1].start == base + m - 2
    decreases |s|
  {
    hide MySqlPiece; hide Scan; hide TokenOf; hide NextDepth;
    ScanStep(MySql, s, base, depth);
    FirstTokenEnd(MySql, s, base, depth, i);
    var p, n := PieceAt(MySql, s), Len(PieceAt(MySql, s));
    if !p.Symbol? { PieceLast(s); }
    if p.Skip? {
      DashTokens(s[n..], base + n, depth, i, m - n);
    } else {
      TokenSpan(MySql, s, base, depth);
      var x := TokenOf(MySql, p, s, base, depth);
      var next := NextDepth(MySql, x, depth).value;
      if n <= m - 2 {
        DashTokens(s[n..], base + n, next, i - 1, m - n);
      } else {
        assert p.Symbol? && m == 2 && i >= 1;
        FirstTokenEnd(MySql, s[1..], base + 1, next, i - 1);
      }
    }
  }

  /** A clause after two dashes is a comment. */
  lemma DashesSwallow(sql: string, at: nat, w: string)
    requires ClausePoint(MySql, sql, at) && EndsDashed(sql, at) && !Dangles(MySql, sql)
    ensures !InsertedExactly(MySql, sql, at, w)
  {
    hide Scan; hide PieceAt; hide Marks; hide Moved; hide DepthAfter; hide LimitWord; hide Dangles;
    var ts := Scan(MySql, sql, 0, 0).value;
    var k, t := FirstSemicolon(ts), Insert(sql, at, " LIMIT " + w);
    DashTokens(sql, 0, 0, k - 1, at);
    InsertCuts(sql, at, w);
    DashesFollowed(sql, at, t);
    DashesAreSkipped(t[at - 2..]);
    var r := Scan(MySql, t, 0, 0);
    if k - 2 < |r.value| { TokensStand(MySql, t, 0, 0, k - 2); }
  }

  lemma DashesFollowed(sql: string, at: nat, t: string)
    requires CutsAt(sql, at, t) && EndsDashed(sql, at)
    ensures "-- " <= t[at - 2..]
  {
    var u := t[at - 2..];
    assert t[..at][at - 2] == sql[..at][at - 2] && t[..at][at - 1] == sql[..at][at - 1];
    assert u[0] == '-' && u[1] == '-' && u[2] == ' ';
  }

  lemma DashesAreSkipped(s: string)
    requires "-- " <= s
    ensures PieceAt(MySql, s).Skip?
  {
    DashesComment(s);
  }

  lemma {:induction false} NoQuote(quote: char, r: string)
    requires quote !in r && '\\' !in r
    ensures QuoteEnd(quote, r).None?
  {
    if r != "" { NoQuote(quote, r[1..]); }
  }

  lemma {:induction false} QuoteEndMore(quote: char, s: string, r: string)
    requires QuoteEnd(quote, s).None? && quote !in r && '\\' !in r
    ensures QuoteEnd(quote, s + r).None?
    decreases |s|
  {
    if s == "" {
      assert s + r == r;
      NoQuote(quote, r);
    } else if s[0] == '\\' {
      if |s| < 2 {
        if r != "" {
          assert (s + r)[2..] == r[1..];
          NoQuote(quote, r[1..]);
        }
      } else {
        assert (s + r)[2..] == s[2..] + r;
        QuoteEndMore(quote, s[2..], r);
      }
    } else if s[0] == quote {
      assert (s + r)[2..] == s[2..] + r;
      QuoteEndMore(quote, s[2..], r);
    } else {
      assert (s + r)[1..] == s[1..] + r;
      QuoteEndMore(quote, s[1..], r);
    }
  }

  lemma DanglingMore(s: string, r: string)
    requires s != "" && MySqlPiece(s).Dangling? && '\'' !in r && '"' !in r && '`' !in r && '\\' !in r
    ensures MySqlPiece(s + r) == Dangling(|s| + |r|)
  {
    hide QuoteEnd; hide Lexer.IsSpace;
    var c := s[0];
    assert (s + r)[1..] == s[1..] + r && (s + r)[0] == c;
    QuoteEndMore(c, s[1..], r);
    QuoteIsNoSpace(c);
  }

  lemma QuoteIsNoSpace(c: char)
    requires c == '\'' || c == '"' || c == '`'
    ensures !Lexer.IsSpace(c) && c != '-' && c != '#' && c != '/'
  {
  }

  /** The last token is an open quote that runs to the end of the text. */
  ghost predicate EndsOpen(s: string, base: nat, ts: seq<Token>) {
    ts != [] &&
    var x := ts[|ts| - 1];
    && base <= x.start < base + |s| && x.end == base + |s| && x.value == "<quoted>"
    && PieceAt(MySql, s[x.start - base..]).Dangling?
  }

  lemma OpenHere(s: string, base: nat, depth: nat)
    requires s != "" && PieceAt(MySql, s).Dangling?
    ensures EndsOpen(s, base, Scan(MySql, s, base, depth).value)
  {
    hide PieceAt; hide Scan; hide NextDepth;
    ScanStep(MySql, s, base, depth);
    assert s[|s|..] == "" && s[0..] == s;
    var t := TokenOf(MySql, PieceAt(MySql, s), s, base, depth);
    ScanEmpty(MySql, base + |s|, NextDepth(MySql, t, depth).value);
    assert [t] + [] == [t];
  }

  lemma OpenLater(s: string, base: nat, n: nat, ts: seq<Token>)
    requires n <= |s| && EndsOpen(s[n..], base + n, ts)
    ensures EndsOpen(s, base, ts)
  {
    hide PieceAt;
    var from := ts[|ts| - 1].start;
    assert s[n..][from - (base + n)..] == s[from - base..];
  }

  lemma OpenBehind(s: string, base: nat, x: Token, ts: seq<Token>)
    requires EndsOpen(s, base, ts)
    ensures EndsOpen(s, base, [x] + ts)
  {
    hide PieceAt;
    assert ([x] + ts)[|ts|] == ts[|ts| - 1];
  }

  lemma {:induction false} DanglingLast(s: string, base: nat, depth: nat)
    requires Dangles(MySql, s)
    ensures EndsOpen(s, base, Scan(MySql, s, base, depth).value)
    decreases |s|
  {
    hide PieceAt; hide Scan; hide NextDepth; hide TokenOf; hide EndsOpen;
    var p, n := PieceAt(MySql, s), Len(PieceAt(MySql, s));
    if p.Dangling? {
      OpenHere(s, base, depth);
      return;
    }
    ScanStep(MySql, s, base, depth);
    if p.Skip? {
      DanglingLast(s[n..], base + n, depth);
      OpenLater(s, base, n, Scan(MySql, s[n..], base + n, depth).value);
    } else {
      var t := TokenOf(MySql, p, s, base, depth);
      var next := NextDepth(MySql, t, depth).value;
      DanglingLast(s[n..], base + n, next);
      OpenLater(s, base, n, Scan(MySql, s[n..], base + n, next).value);
      OpenBehind(s, base, t, Scan(MySql, s[n..], base + n, next).value);
    }
  }

  /** A clause inside an open quote belongs to the quote. */
  lemma QuoteSwallows(sql: string, at: nat)
    requires ClausePoint(MySql, sql, at) && Dangles(MySql, sql)
    ensures !InsertedExactly(MySql, sql, at, PARAMETER)
  {
    hide Scan; hide PieceAt; hide Marks; hide Moved; hide DepthAfter; hide LimitWord; hide Dangles;
    var ts := Scan(MySql, sql, 0, 0).value;
    var k, t := FirstSemicolon(ts), Insert(sql, at, " LIMIT " + PARAMETER);
    DanglingLast(sql, 0, 0);
    assert k == |ts| && at == |sql|;
    var from := ts[k - 1].start;
    assert t[from..] == sql[from..] + (" LIMIT " + PARAMETER);
    DanglingPiece(sql[from..], " LIMIT " + PARAMETER);
    var r := Scan(MySql, t, 0, 0);
    if k - 1 < |r.value| { TokensStand(MySql, t, 0, 0, k - 1); }
  }

  lemma DanglingPiece(s: string, r: string)
    requires s != "" && PieceAt(MySql, s).Dangling? && r == " LIMIT " + PARAMETER
    ensures PieceAt(MySql, s + r) == Dangling(|s| + |r|)
  {
    DanglingMore(s, r);
  }

  /**
   * A prepared MySQL text lexes to the statement's own tokens, then LIMIT and the parameter mark, then the semicolon if there
   * was one, exactly when no quote is left open and the statement does not end in two dashes.
   */
  lemma PrepareIsExactIff(sql: string, limit: int)
    requires PreparePoint(sql).Some?
    ensures ClausePoint(MySql, sql, PreparePoint(sql).value)
    ensures PrepareMysqlQuery(sql, limit) == Prepared(Insert(sql, PreparePoint(sql).value, " LIMIT " + PARAMETER), [limit + 1])
    ensures InsertedExactly(MySql, sql, PreparePoint(sql).value, PARAMETER)
            <==> !Dangles(MySql, sql) && !EndsDashed(sql, PreparePoint(sql).value)
  {
    hide PreparePoint; hide InsertedExactly; hide Dangles;
    PreparePointIs(sql);
    var at := PreparePoint(sql).value;
    if Dangles(MySql, sql) { QuoteSwallows(sql, at); }
    else if EndsDashed(sql, at) { DashesSwallow(sql, at, PARAMETER); }
    else { InsertIsExact(MySql, sql, at, PARAMETER); }
  }

  // ----- an input the cap is lost on -----

  lemma ExampleWord(rest: string)
    requires rest != "" && !InWord(rest[0])
    ensures PieceAt(MySql, "SELECT" + rest) == Word(6) && Lexer.Upper(("SELECT" + rest)[..6]) == "SELECT"
  {
    hide QuoteEnd;
    var w := "ELECT";
    assert ("SELECT" + rest)[1..] == w + rest && ("SELECT" + rest)[..6] == "SELECT";
    RunOver(InWord, w, rest);
    assert Lexer.Upper("SELECT") == "SELECT";
  }

  lemma ExampleDashes()
    ensures PieceAt(MySql, "--;") == Symbol && PieceAt(MySql, "-;") == Symbol && PieceAt(MySql, ";") == Symbol
  {
    assert "--;"[2] == ';';
  }

  lemma SymbolScan(s: string, base: nat)
    requires s != "" && PieceAt(MySql, s) == Symbol && s[0] != '(' && s[0] != ')'
    ensures Scan(MySql, s, base, 0) == Cons(Token(false, [s[0]], base, base + 1, 0), Scan(MySql, s[1..], base + 1, 0))
  {
    hide PieceAt; hide Scan;
    ScanStep(MySql, s, base, 0);
    var t := TokenOf(MySql, Symbol, s, base, 0);
    assert t == Token(false, [s[0]], base, base + 1, 0);
    assert t.value[0] == s[0] && "("[0] == '(' && ")"[0] == ')';
    assert NextDepth(MySql, t, 0) == Some(0);
  }

  lemma ExampleTokens()
    ensures Scan(MySql, "SELECT--;", 0, 0)
            == Some([Token(true, "SELECT", 0, 6, 0), Token(false, "-", 6, 7, 0), Token(false, "-", 7, 8, 0), Token(false, ";", 8, 9, 0)])
  {
    hide PieceAt; hide Scan;
    var a, b, c, e := "SELECT--;", "--;", "-;", ";";
    assert a == "SELECT" + b && a[6..] == b && b[1..] == c && c[1..] == e && e[1..] == "";
    ExampleWord(b);
    ExampleDashes();
    assert [b[0]] == "-" && [c[0]] == "-" && [e[0]] == ";";
    var x, y, z := Token(false, "-", 6, 7, 0), Token(false, "-", 7, 8, 0), Token(false, ";", 8, 9, 0);
    SymbolScan(e, 8);
    ScanEmpty(MySql, 9, 0);
    assert [z] + [] == [z];
    assert Scan(MySql, e, 8, 0) == Some([z]);
    SymbolScan(c, 7);
    assert [y] + [z] == [y, z];
    assert Scan(MySql, c, 7, 0) == Some([y, z]);
    SymbolScan(b, 6);
    assert [x] + [y, z] == [x, y, z];
    ScanStep(MySql, a, 0, 0);
    var w := Token(true, "SELECT", 0, 6, 0);
    assert TokenOf(MySql, Word(6), a, 0, 0) == w && NextDepth(MySql, w, 0) == Some(0);
    assert Scan(MySql, b, 6, 0) == Some([x, y, z]);
    assert [w] + [x, y, z] == [w, x, y, z];
  }

  /** The clause that is added here turns the two dashes into a comment and disappears in it. */
  lemma DashExample(limit: int)
    ensures PrepareMysqlQuery("SELECT--;", limit) == Prepared("SELECT-- LIMIT ?;", [limit + 1])
    ensures ClausePoint(MySql, "SELECT--;", 8) && !InsertedExactly(MySql, "SELECT--;", 8, PARAMETER)
  {
    hide Scan; hide InsertedExactly; hide Dangles; hide DepthAfter;
    var sql := "SELECT--;";
    ExampleTokens();
    var ts := Scan(MySql, sql, 0, 0).value;
    assert OnlyStatement(ts) == Some(ts[..3]);
    assert IsReadQuery(ts) && !HasTopLevel(ts, "LIMIT");
    assert PreparePoint(sql) == Some(8);
    PrepareIsExactIff(sql, limit);
    assert sql[..8] == "SELECT--" && sql[8..] == ";";
  }
}
