/** What the row caps' tokenizers take, and which texts are capped, said of characters and words. */
module RowCapGrammar {
  import opened Values
  import Lexer
  import G = TokenGrammar
  import opened RowCap
  import opened RowCapCorrect

  // ----- quotes and comments -----

  /** Quoted text ends with the first quote that is neither paired nor behind a backslash, and is unclosed without one. */
  lemma {:induction false} QuoteEndIff(quote: char, s: string, n: nat)
    requires quote != '\\'
    ensures G.ClosesAt(true, quote, s, n) <==> QuoteEnd(quote, s) == Some(n)
    ensures G.NeverCloses(true, quote, s) <==> QuoteEnd(quote, s).None?
    decreases |s|
  {
    hide G.ClosesAt; hide G.NeverCloses;
    var u := G.Unit(true, quote, s);
    if u == 0 {
      QuoteEndHere(quote, s, n);
    } else {
      G.CloseStep(true, quote, s, n);
      G.NeverStep(true, quote, s);
      if n >= u { QuoteEndIff(quote, s[u..], n - u); } else { QuoteEndIff(quote, s[u..], 0); }
    }
  }

  lemma QuoteEndHere(quote: char, s: string, n: nat)
    requires quote != '\\' && G.Unit(true, quote, s) == 0
    ensures G.ClosesAt(true, quote, s, n) <==> QuoteEnd(quote, s) == Some(n)
    ensures G.NeverCloses(true, quote, s) <==> QuoteEnd(quote, s).None?
  {
    if s != "" {
      assert s[..0] == "";
      if n > 1 && n <= |s| { assert s[..n - 1][0] == s[0] && (n > 2 ==> s[..n - 1][1] == s[1]); }
      if |s| > 1 { assert s[..|s| - 1][0] == s[0] && (|s| > 2 ==> s[..|s| - 1][1] == s[1]); }
    }
  }

  /** The two block comment scanners agree: this one gives up where the lexer takes the rest. */
  lemma {:induction false} CommentEndIff(s: string, depth: nat, n: nat)
    ensures n <= |s| && G.ClosesAll(true, s[..n], depth) <==> CommentEnd(s, depth) == Some(n)
    decreases |s|
  {
    hide G.ClosesAll;
    if depth == 0 || s == "" {
      CommentEndHere(s, depth, n);
    } else {
      G.NoCloseAtOnce(true, s, depth);
      var two := "/*" <= s || "*/" <= s;
      var u, d := if two then 2 else 1, if "/*" <= s then depth + 1 else if "*/" <= s then depth - 1 else depth;
      if u <= n <= |s| { CommentEndIff(s[u..], d, n - u); } else { CommentEndIff(s[u..], d, |s|); }
      if n <= |s| { G.ClosesStep(true, s, depth, n); }
      if n == 1 { assert s[..n] == s[..1]; }
      if n == 0 { assert s[..n] == ""; }
    }
  }

  lemma CommentEndHere(s: string, depth: nat, n: nat)
    requires depth == 0 || s == ""
    ensures n <= |s| && G.ClosesAll(true, s[..n], depth) <==> CommentEnd(s, depth) == Some(n)
  {
    if n == 0 { assert s[..n] == ""; }
  }

  // ----- pieces -----

  /** What PostgreSQL's tokenizer finds at the front of `s`, said without its scanners. */
  ghost predicate IsPgPiece(s: string, p: Piece)
    requires s != ""
  {
    if Lexer.IsSpace(s[0]) then p == Skip(1)
    else if "--" <= s then p.Skip? && G.Longest(Lexer.NotNewline, s, p.len)
    else if "/*" <= s then
      if p.Skip? then 2 <= p.len <= |s| && G.ClosesAll(true, s[2..][..p.len - 2], 1) else p.Unclosed? && NoClose(s[2..])
    else if s[0] == '\'' || s[0] == '"' then
      if p.Opaque? then 1 <= p.len <= |s| && G.ClosesAt(true, s[0], s[1..], p.len - 1) else p.Unclosed? && G.NeverCloses(true, s[0], s[1..])
    else if G.Tagged(s) then IsTaggedPiece(s, p)
    else if Lexer.IsLetter(s[0]) then p.Word? && G.Longest(Lexer.IsIdentCont, s, p.len)
    else p.Symbol?
  }

  ghost predicate NoClose(s: string) { forall n | 0 <= n <= |s| :: !G.ClosesAll(true, s[..n], 1) }

  /** From a tag to its next occurrence. */
  ghost predicate IsTaggedPiece(s: string, p: Piece) {
    exists n | 0 <= n <= |s| :: G.IsTag(s[..n]) && TagCloses(s[..n], s[n..], n, p)
  }

  ghost predicate TagCloses(tag: string, s: string, n: nat, p: Piece) {
    if p.Opaque? then exists i | 0 <= i <= |s| :: p.len == n + i + |tag| && FirstAt(tag, s, i) else p.Unclosed? && Nowhere(tag, s)
  }

  ghost predicate FirstAt(t: string, s: string, i: nat) { G.OccursAt(t, s, i) && forall j | 0 <= j < i :: !G.OccursAt(t, s, j) }

  ghost predicate Nowhere(t: string, s: string) { forall j | 0 <= j < |s| :: !G.OccursAt(t, s, j) }

  lemma NoCloseIff(s: string)
    ensures NoClose(s) <==> CommentEnd(s, 1).None?
  {
    hide G.ClosesAll;
    forall n | 0 <= n <= |s| ensures G.ClosesAll(true, s[..n], 1) <==> CommentEnd(s, 1) == Some(n) { CommentEndIff(s, 1, n); }
    if CommentEnd(s, 1).Some? { assert G.ClosesAll(true, s[..CommentEnd(s, 1).value], 1); }
  }

  lemma TagClosesIff(tag: string, s: string, n: nat, p: Piece)
    requires tag != ""
    ensures TagCloses(tag, s, n, p) <==> match Lexer.IndexOfText(s, tag) case Some(i) => p == Opaque(n + i + |tag|) case None => p == Unclosed
  {
    hide G.OccursAt;
    G.IndexOfTextIs(s, tag);
    var r := Lexer.IndexOfText(s, tag);
    if r.Some? {
      assert FirstAt(tag, s, r.value);
      OccursInside(tag, s, r.value);
    }
    if p.Opaque? && TagCloses(tag, s, n, p) {
      var i :| 0 <= i <= |s| && p.len == n + i + |tag| && FirstAt(tag, s, i);
      OccursInside(tag, s, i);
      assert r.Some? && r.value == i;
    }
  }

  lemma OccursInside(t: string, s: string, i: nat)
    requires t != "" && G.OccursAt(t, s, i)
    ensures i < |s|
  {
  }

  lemma TaggedPieceIff(s: string, p: Piece)
    requires Lexer.DollarTag(s) > 0
    ensures IsTaggedPiece(s, p) <==> p == match DollarEnd(s) case Some(n) => Opaque(n) case None => Unclosed
  {
    hide Lexer.DollarTag; hide G.IsTag; hide TagCloses;
    var n := Lexer.DollarTag(s);
    G.TaggedIff(s);
    G.TagIff(s, s[..n]);
    TagClosesIff(s[..n], s[n..], n, p);
    if p == match DollarEnd(s) case Some(k) => Opaque(k) case None => Unclosed { assert G.IsTag(s[..n]) && TagCloses(s[..n], s[n..], n, p); }
  }

  lemma PgPieceIff(s: string, p: Piece)
    requires s != ""
    ensures IsPgPiece(s, p) <==> p == PgPiece(s)
  {
    hide CommentEnd; hide QuoteEnd; hide G.ClosesAt; hide G.NeverCloses; hide G.ClosesAll; hide NoClose; hide IsTaggedPiece; hide DollarEnd;
    hide Lexer.DollarTag; hide Lexer.IsSpace; hide Lexer.Run; hide G.Longest; hide G.Tagged;
    var c := s[0];
    if Lexer.IsSpace(c) {
    } else if "--" <= s {
      DashesLine(s, p);
    } else if "/*" <= s {
      NoCloseIff(s[2..]);
      if p.Skip? && p.len >= 2 { CommentEndIff(s[2..], 1, p.len - 2); }
    } else if c == '\'' || c == '"' {
      if p.Opaque? && p.len >= 1 { QuoteEndIff(c, s[1..], p.len - 1); } else { QuoteEndIff(c, s[1..], 0); }
    } else {
      G.TaggedIff(s);
      if G.Tagged(s) { TaggedPieceIff(s, p); }
      else if IsLetter(c) { WordIff(s, p); }
    }
  }

  lemma DashesLine(s: string, p: Piece)
    requires "--" <= s
    ensures p.Skip? && G.Longest(Lexer.NotNewline, s, p.len) <==> p == Skip(2 + Lexer.Run(Lexer.NotNewline, s[2..]))
  {
    assert s[0] == "--"[0] && s[1] == "--"[1];
    if p.Skip? && p.len >= 2 { G.LineIff(s, p.len); }
  }

  lemma WordIff(s: string, p: Piece)
    requires s != "" && Lexer.IsLetter(s[0])
    ensures p.Word? && G.Longest(Lexer.IsIdentCont, s, p.len) <==> p == Word(1 + Lexer.Run(InWord, s[1..]))
  {
    if p.Word? { G.LongestIff(Lexer.IsIdentCont, s, p.len); }
    RunSame(s[1..]);
  }

  lemma {:induction false} RunSame(s: string)
    ensures Lexer.Run(InWord, s) == Lexer.Run(Lexer.IsIdentCont, s)
  {
    if s != "" && InWord(s[0]) { RunSame(s[1..]); }
  }

  /** What MySQL's tokenizer finds at the front of `s`, said without its scanners. */
  ghost predicate IsMySqlPiece(s: string, p: Piece)
    requires s != ""
  {
    if Lexer.IsSpace(s[0]) then p == Skip(1)
    else if s[0] == '#' || ("--" <= s && (|s| == 2 || Lexer.IsSpace(s[2]))) then
      && p.Skip? && 1 <= p.len <= |s|
      && (forall i | 0 <= i < p.len - 1 :: s[i] != '\n') && (p.len < |s| ==> s[p.len - 1] == '\n')
    else if "/*" <= s then
      && p.Skip? && if Nowhere("*/", s[2..]) then p.len == |s| else 4 <= p.len <= |s| && FirstAt("*/", s[2..], p.len - 4)
    else if s[0] in "'\"`" then
      if p.Opaque? then 1 <= p.len <= |s| && G.ClosesAt(true, s[0], s[1..], p.len - 1)
      else p == Dangling(|s|) && G.NeverCloses(true, s[0], s[1..])
    else if Lexer.IsLetter(s[0]) then p.Word? && G.Longest(Lexer.IsIdentCont, s, p.len)
    else p.Symbol?
  }

  lemma MySqlPieceIff(s: string, p: Piece)
    requires s != ""
    ensures IsMySqlPiece(s, p) <==> p == MySqlPiece(s)
  {
    hide QuoteEnd; hide G.ClosesAt; hide G.NeverCloses; hide Lexer.IsSpace; hide Lexer.Run; hide G.Longest; hide Lexer.IndexOfText;
    hide Nowhere; hide FirstAt; hide LineEnd;
    var c := s[0];
    if Lexer.IsSpace(c) {
    } else if IsLineComment(s) {
      LineEndIff(s, if p.Skip? then p.len else 0);
    } else if "/*" <= s {
      FirstIff("*/", s[2..], if p.Skip? && p.len >= 4 then p.len - 4 else 0);
    } else if c in "'\"`" {
      if p.Opaque? && p.len >= 1 { QuoteEndIff(c, s[1..], p.len - 1); } else { QuoteEndIff(c, s[1..], 0); }
    } else if IsLetter(c) {
      WordIff(s, p);
    }
  }

  lemma FirstIff(t: string, s: string, i: nat)
    requires t != ""
    ensures FirstAt(t, s, i) <==> Lexer.IndexOfText(s, t) == Some(i)
    ensures Nowhere(t, s) <==> Lexer.IndexOfText(s, t).None?
  {
    hide G.OccursAt;
    G.IndexOfTextIs(s, t);
    var r := Lexer.IndexOfText(s, t);
    if r.Some? { OccursInside(t, s, r.value); }
    if FirstAt(t, s, i) { OccursInside(t, s, i); }
  }

  lemma LineEndIff(s: string, n: nat)
    requires s != "" && IsLineComment(s)
    ensures 1 <= n <= |s| && (forall i | 0 <= i < n - 1 :: s[i] != '\n') && (n < |s| ==> s[n - 1] == '\n') <==> n == LineEnd(s)
  {
    hide Lexer.Run;
    var from := if s[0] == '#' then 1 else 2;
    var r := from + Lexer.Run(Lexer.NotNewline, s[from..]);
    if s[0] != '#' { assert s[0] == "--"[0] && s[1] == "--"[1]; }
    forall i | from <= i < r ensures s[i] != '\n' { assert Lexer.NotNewline(s[from..][i - from]); }
    if r < |s| { assert !Lexer.NotNewline(s[from..][r - from]); }
  }

  // ----- depth -----

  /** Parentheses opened and not yet closed. */
  function Open(ts: seq<Token>): int {
    if ts == [] then 0
    else Open(ts[..|ts| - 1]) + (if ts[|ts| - 1].word then 0 else if ts[|ts| - 1].value == "(" then 1 else if ts[|ts| - 1].value == ")" then -1 else 0)
  }

  predicate Closes(t: Token) { !t.word && t.value == ")" }

  lemma {:induction false} OpenCons(t: Token, ts: seq<Token>)
    ensures Open([t] + ts) == Open([t]) + Open(ts)
  {
    if ts == [] {
      assert [t] + ts == [t];
    } else {
      var n := |ts| - 1;
      assert ([t] + ts)[..n + 1] == [t] + ts[..n];
      OpenCons(t, ts[..n]);
    }
  }

  /** A PostgreSQL token's depth is the number of parentheses open where it stands, its own closing one left out. */
  lemma {:induction false} DepthIsOpen(s: string, base: nat, depth: nat, k: nat)
    requires Scan(Pg, s, base, depth).Some? && k < |Scan(Pg, s, base, depth).value|
    ensures var ts := Scan(Pg, s, base, depth).value; ts[k].depth == depth + Open(ts[..k]) - (if Closes(ts[k]) then 1 else 0)
    decreases |s|
  {
    hide PieceAt; hide Scan; hide TokenOf;
    var ts := Scan(Pg, s, base, depth).value;
    if s == "" {
      ScanEmpty(Pg, base, depth);
    } else {
      ScanStep(Pg, s, base, depth);
      var p := PieceAt(Pg, s);
      if p.Skip? {
        DepthIsOpen(s[p.len..], base + p.len, depth, k);
      } else {
        var t := TokenOf(Pg, p, s, base, depth);
        var next := NextDepth(Pg, t, depth).value;
        var rest := Scan(Pg, s[Len(p)..], base + Len(p), next).value;
        assert ts == [t] + rest;
        TokenDepth(s, base, depth);
        if k > 0 {
          DepthIsOpen(s[Len(p)..], base + Len(p), next, k - 1);
          assert ts[..k] == [t] + rest[..k - 1];
          OpenCons(t, rest[..k - 1]);
          OpenOne(t, depth);
        }
      }
    }
  }

  lemma TokenDepth(s: string, base: nat, depth: nat)
    requires s != "" && !PieceAt(Pg, s).Skip? && !PieceAt(Pg, s).Unclosed? && NextDepth(Pg, TokenOf(Pg, PieceAt(Pg, s), s, base, depth), depth).Some?
    ensures var t := TokenOf(Pg, PieceAt(Pg, s), s, base, depth); t.depth == depth - (if Closes(t) then 1 else 0)
  {
    hide PieceAt;
  }

  lemma OpenOne(t: Token, depth: nat)
    requires NextDepth(Pg, t, depth).Some?
    ensures NextDepth(Pg, t, depth).value == depth + Open([t])
  {
    assert [t][..0] == [];
  }

  // ----- which texts are capped -----

  predicate HasValue(ts: seq<Token>, value: string, depth: nat) { exists i | 0 <= i < |ts| :: ts[i].value == value && ts[i].depth == depth }

  /** `ts` is one statement of `k` tokens: no top-level semicolon but, perhaps, one at the very end. */
  predicate OneStatement(ts: seq<Token>, k: nat) {
    && 0 < k <= |ts| <= k + 1
    && (forall i | 0 <= i < k :: !(ts[i].value == ";" && ts[i].depth == 0))
    && (k < |ts| ==> ts[k].value == ";" && ts[k].depth == 0)
  }

  predicate IsOneOf(t: Token, values: set<string>) { t.word && t.value in values }

  /** The first `k` tokens are a query: how it starts, a top-level command in it, and no word that limits rows or writes. */
  predicate IsQuery(ts: seq<Token>, k: nat)
    requires 0 < k <= |ts|
  {
    && ts[0].value in {"select", "with", "values", "table"}
    && (exists i | 0 <= i < k :: ts[i].depth == 0 && IsOneOf(ts[i], {"select", "values", "table"}))
    && forall i | 0 <= i < k :: !IsOneOf(ts[i], {"limit", "fetch", "insert", "update", "delete", "merge", "into"})
  }

  ghost predicate CapsAt(sql: string, k: nat, at: nat) {
    var ts := Scan(Pg, sql, 0, 0);
    ts.Some? && OneStatement(ts.value, k) && IsQuery(ts.value, k) && at == ts.value[k - 1].end
  }

  lemma OneStatementIff(ts: seq<Token>, k: nat)
    ensures OneStatement(ts, k) <==> OnlyStatement(ts).Some? && OnlyStatement(ts).value != [] && k == FirstSemicolon(ts)
  {
    var f := FirstSemicolon(ts);
    if OneStatement(ts, k) { assert forall i | 0 <= i < k :: !IsSemicolon(ts[i]); assert !(f < k) && !(k < f); }
    if OnlyStatement(ts).Some? && k == f { assert forall i | 0 <= i < f :: !(ts[i].value == ";" && ts[i].depth == 0) by { assert forall i | 0 <= i < f :: !IsSemicolon(ts[i]); } }
  }

  lemma QueryIff(ts: seq<Token>, k: nat)
    requires 0 < k <= |ts|
    ensures IsQuery(ts, k) <==> Cappable(ts[..k])
  {
    var stmt := ts[..k];
    assert stmt[0] == ts[0];
    forall i | 0 <= i < k
      ensures IsCommand(stmt[i]) <==> ts[i].depth == 0 && IsOneOf(ts[i], {"select", "values", "table"})
      ensures IsWord(stmt[i], CAPS) || IsWord(stmt[i], WRITES)
              <==> IsOneOf(ts[i], {"limit", "fetch", "insert", "update", "delete", "merge", "into"})
    {
      ListedIff(ts[i].value);
    }
    ListedIff(ts[0].value);
    if IsQuery(ts, k) {
      var i :| 0 <= i < k && ts[i].depth == 0 && IsOneOf(ts[i], {"select", "values", "table"});
      assert IsCommand(stmt[i]);
    }
    if Cappable(stmt) {
      var i :| 0 <= i < |stmt| && IsCommand(stmt[i]);
      assert ts[i].depth == 0 && IsOneOf(ts[i], {"select", "values", "table"});
    }
  }

  lemma ListedIff(v: string)
    ensures v in OPENERS <==> v in {"select", "with", "values", "table"}
    ensures v in COMMANDS <==> v in {"select", "values", "table"}
    ensures v in CAPS || v in WRITES <==> v in {"limit", "fetch", "insert", "update", "delete", "merge", "into"}
  {
    assert OPENERS[0] == "select" && OPENERS[1] == "with" && OPENERS[2] == "values" && OPENERS[3] == "table";
    assert COMMANDS[0] == "select" && COMMANDS[1] == "values" && COMMANDS[2] == "table";
    assert CAPS[0] == "limit" && CAPS[1] == "fetch";
    assert WRITES[0] == "insert" && WRITES[1] == "update" && WRITES[2] == "delete" && WRITES[3] == "merge" && WRITES[4] == "into";
  }

  /** A text is capped exactly when it is one query that neither limits itself nor may write; the clause goes after its last token. */
  lemma CapPointIff(sql: string, at: nat)
    ensures CapPoint(sql) == Some(at) <==> exists k: nat :: CapsAt(sql, k, at)
  {
    hide Scan; hide Cappable; hide IsQuery; hide OneStatement;
    var ts := Scan(Pg, sql, 0, 0);
    if ts.Some? {
      var f := FirstSemicolon(ts.value);
      OneStatementIff(ts.value, f);
      if CapPoint(sql) == Some(at) {
        CapPointStatement(sql);
        QueryIff(ts.value, f);
        assert CapsAt(sql, f, at);
      }
      if k: nat :| CapsAt(sql, k, at) {
        OneStatementIff(ts.value, k);
        QueryIff(ts.value, k);
      }
    }
  }

  lemma CapPointStatement(sql: string)
    requires CapPoint(sql).Some?
    ensures var ts := Scan(Pg, sql, 0, 0).value;
            OnlyStatement(ts).Some? && OnlyStatement(ts).value != [] && Cappable(OnlyStatement(ts).value)
  {
    hide Scan;
  }

  /** A single SELECT without such words comes back with the clause after its last token, for every limit a query can have. */
  lemma QueryIsCapped(sql: string, k: nat, limit: nat)
    requires var ts := Scan(Pg, sql, 0, 0); ts.Some? && OneStatement(ts.value, k)
    requires var ts := Scan(Pg, sql, 0, 0).value; ts[0].word && ts[0].value == "select" && ts[0].depth == 0
    requires var ts := Scan(Pg, sql, 0, 0).value;
             forall i | 0 <= i < k :: !IsOneOf(ts[i], {"limit", "fetch", "insert", "update", "delete", "merge", "into"})
    requires 0 < limit <= 0x1F_FFFF_FFFF_FFFF
    ensures var e := Scan(Pg, sql, 0, 0).value[k - 1].end;
            e <= |sql| && ApplyServerRowCap(sql, limit) == sql[..e] + " LIMIT " + Dec(limit + 1) + sql[e..]
  {
    hide Scan; hide Dec;
    var ts := Scan(Pg, sql, 0, 0).value;
    assert IsOneOf(ts[0], {"select", "values", "table"});
    assert CapsAt(sql, k, ts[k - 1].end);
    CapPointIff(sql, ts[k - 1].end);
    CapPointIs(sql);
    assert sql[..ts[k - 1].end] + LimitText(limit + 1) == sql[..ts[k - 1].end] + " LIMIT " + Dec(limit + 1);
  }

  // ----- MySQL -----

  /** What keeps a MySQL query from being limited: a clause of its own, INTO, PROCEDURE, or a locking read. */
  predicate Refused(ts: seq<Token>) {
    || HasValue(ts, "LIMIT", 0) || HasValue(ts, "INTO", 0) || HasValue(ts, "PROCEDURE", 0)
    || (exists i | 0 <= i < |ts| - 1 :: ts[i].value == "FOR" && ts[i].depth == 0 && ts[i + 1].value in {"UPDATE", "SHARE"})
    || (exists i | 0 <= i < |ts| - 2 :: ts[i].value == "LOCK" && ts[i + 1].value == "IN" && ts[i + 2].value == "SHARE"
                                        && ts[i].depth == ts[i + 1].depth == ts[i + 2].depth == 0)
  }

  lemma TopLevelIff(ts: seq<Token>, value: string)
    ensures HasTopLevel(ts, value) <==> HasValue(ts, value, 0)
  {
    if HasTopLevel(ts, value) { var i :| 0 <= i < |ts| && TopLevel(ts, i, value); assert ts[i].value == value; }
    if HasValue(ts, value, 0) { var i :| 0 <= i < |ts| && ts[i].value == value && ts[i].depth == 0; assert TopLevel(ts, i, value); }
  }

  lemma LocksIff(ts: seq<Token>)
    ensures (exists i | 0 <= i < |ts| :: LocksAt(ts, i))
            <==> (exists i | 0 <= i < |ts| - 1 :: ts[i].value == "FOR" && ts[i].depth == 0 && ts[i + 1].value in {"UPDATE", "SHARE"})
                 || (exists i | 0 <= i < |ts| - 2 :: ts[i].value == "LOCK" && ts[i + 1].value == "IN" && ts[i + 2].value == "SHARE"
                                                     && ts[i].depth == ts[i + 1].depth == ts[i + 2].depth == 0)
  {
    if i :| 0 <= i < |ts| && LocksAt(ts, i) {
      assert ts[i].value == "FOR" || ts[i].value == "LOCK";
    }
    if i :| 0 <= i < |ts| - 1 && ts[i].value == "FOR" && ts[i].depth == 0 && ts[i + 1].value in {"UPDATE", "SHARE"} { assert LocksAt(ts, i); }
    if i :| 0 <= i < |ts| - 2 && ts[i].value == "LOCK" && ts[i + 1].value == "IN" && ts[i + 2].value == "SHARE"
            && ts[i].depth == ts[i + 1].depth == ts[i + 2].depth == 0 {
      assert LocksAt(ts, i);
    }
  }

  ghost predicate PreparesAt(sql: string, k: nat, at: nat) {
    var ts := Scan(MySql, sql, 0, 0).value;
    && OneStatement(ts, k) && ts[k - 1].value != ";" && at == ts[k - 1].end && !Refused(ts)
    && (ts[0].value == "SELECT" || (ts[0].value == "WITH" && WithMainStatement(ts) == Some("SELECT")))
  }

  /** A text is prepared with a limit exactly when it is one SELECT, perhaps behind common table expressions, that nothing refuses. */
  lemma PreparePointIff(sql: string, at: nat)
    ensures PreparePoint(sql) == Some(at) <==> exists k: nat :: PreparesAt(sql, k, at)
  {
    hide Scan; hide WithMainStatement; hide HasTopLevel; hide Refused; hide IsReadQuery; hide FirstSemicolon;
    var ts := Scan(MySql, sql, 0, 0).value;
    RefusedIff(ts);
    TopLevelIff(ts, "LIMIT");
    var f := FirstSemicolon(ts);
    OneStatementIff(ts, f);
    if k: nat :| PreparesAt(sql, k, at) { OneStatementIff(ts, k); }
    if PreparePoint(sql) == Some(at) { assert PreparesAt(sql, f, at); }
  }

  lemma RefusedIff(ts: seq<Token>)
    ensures IsReadQuery(ts) && !HasTopLevel(ts, "LIMIT")
            <==> ts != [] && !Refused(ts) && (ts[0].value == "SELECT" || (ts[0].value == "WITH" && WithMainStatement(ts) == Some("SELECT")))
  {
    hide WithMainStatement; hide HasTopLevel; hide HasValue; hide LocksAt;
    TopLevelIff(ts, "LIMIT");
    TopLevelIff(ts, "INTO");
    TopLevelIff(ts, "PROCEDURE");
    LocksIff(ts);
  }
}
