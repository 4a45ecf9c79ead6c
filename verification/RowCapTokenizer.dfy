/** The row caps' tokenizers as the loops they are. */
module RowCapTokenizer {
  import opened Values
  import Lexer
  import T = Tokenizer
  import opened RowCap
  import opened RowCapCorrect
  import opened RowCapGrammar

  lemma CommentStep(s: string, i: nat, depth: nat)
    requires s != "" && depth > 0
    ensures Plus(i, CommentEnd(s, depth))
            == if "/*" <= s then Plus(i + 2, CommentEnd(s[2..], depth + 1))
               else if "*/" <= s then Plus(i + 2, CommentEnd(s[2..], depth - 1))
               else Plus(i + 1, CommentEnd(s[1..], depth))
  {
  }

  lemma CommentDone(s: string, i: nat, depth: nat)
    requires s == "" || depth == 0
    ensures Plus(i, CommentEnd(s, depth)) == if depth > 0 then None else Some(i)
  {
  }

  method SkipComment(sql: string, from: nat) returns (end: Option<nat>)
    requires from <= |sql|
    ensures end == Plus(from, CommentEnd(sql[from..], 1))
  {
    hide CommentEnd;
    var i, depth: nat := from, 1;
    while i < |sql| && depth > 0
      invariant from <= i <= |sql| && Plus(i, CommentEnd(sql[i..], depth)) == Plus(from, CommentEnd(sql[from..], 1))
      decreases |sql| - i
    {
      var rest := sql[i..];
      assert rest[1..] == sql[i + 1..] && (|rest| > 1 ==> rest[2..] == sql[i + 2..]);
      CommentStep(rest, i, depth);
      if "/*" <= rest { depth, i := depth + 1, i + 2; }
      else if "*/" <= rest { depth, i := depth - 1, i + 2; }
      else { i := i + 1; }
    }
    CommentDone(sql[i..], i, depth);
    return if depth > 0 then None else Some(i);
  }

  lemma QuoteStep(quote: char, s: string, i: nat)
    requires s != ""
    ensures Plus(i, QuoteEnd(quote, s))
            == if s[0] == '\\' then (if |s| < 2 then None else Plus(i + 2, QuoteEnd(quote, s[2..])))
               else if s[0] == quote then (if |s| > 1 && s[1] == quote then Plus(i + 2, QuoteEnd(quote, s[2..])) else Some(i + 1))
               else Plus(i + 1, QuoteEnd(quote, s[1..]))
    ensures s == "\\" ==> QuoteEnd(quote, s).None?
  {
  }

  lemma NoQuoteLeft(quote: char)
    ensures QuoteEnd(quote, "").None?
  {
  }

  method SkipQuote(quote: char, sql: string, from: nat) returns (end: Option<nat>)
    requires from <= |sql|
    ensures end == Plus(from, QuoteEnd(quote, sql[from..]))
  {
    hide QuoteEnd;
    var i := from;
    NoQuoteLeft(quote);
    while i < |sql|
      invariant from <= i
      invariant i <= |sql| ==> Plus(i, QuoteEnd(quote, sql[i..])) == Plus(from, QuoteEnd(quote, sql[from..]))
      invariant i > |sql| ==> Plus(from, QuoteEnd(quote, sql[from..])).None?
    {
      QuoteStep(quote, sql[i..], i);
      assert sql[i..][1..] == sql[i + 1..] && (i + 1 < |sql| ==> sql[i..][2..] == sql[i + 2..]);
      if sql[i] == '\\' { i := i + 2; }
      else if sql[i] == quote {
        if i + 1 < |sql| && sql[i + 1] == quote { i := i + 2; }
        else { return Some(i + 1); }
      } else { i := i + 1; }
    }
    return None;
  }

  /** One pass of the main loop, up to what the piece is. */
  method ScanPgPiece(sql: string, i: nat) returns (p: Piece)
    requires i < |sql|
    ensures p == PgPiece(sql[i..]) && IsPgPiece(sql[i..], p)
  {
    hide IsPgPiece; hide CommentEnd; hide QuoteEnd; hide Lexer.Run; hide Lexer.DollarTag; hide Lexer.IsSpace;
    var c, rest := sql[i], sql[i..];
    assert rest[1..] == sql[i + 1..] && (|rest| > 1 ==> rest[2..] == sql[i + 2..]);
    PgPieceIff(rest, PgPiece(rest));
    if Lexer.IsSpace(c) { return Skip(1); }
    if "--" <= rest {
      var j := T.SkipRun(Lexer.NotNewline, sql, i + 2);
      return Skip(j - i);
    }
    if "/*" <= rest {
      var end := SkipComment(sql, i + 2);
      return if end.Some? then Skip(end.value - i) else Unclosed;
    }
    if c == '\'' || c == '"' {
      var end := SkipQuote(c, sql, i + 1);
      return if end.Some? then Opaque(end.value - i) else Unclosed;
    }
    if Lexer.DollarTag(rest) > 0 {
      var end := DollarEnd(rest);
      return if end.Some? then Opaque(end.value) else Unclosed;
    }
    if IsLetter(c) {
      var j := T.SkipRun(InWord, sql, i + 1);
      return Word(j - i);
    }
    return Symbol;
  }

  method TokenizeSql(sql: string) returns (tokens: Option<seq<Token>>)
    ensures tokens == Scan(Pg, sql, 0, 0)
  {
    hide PgPiece; hide Scan; hide TokenOf; hide NextDepth;
    var ts: seq<Token> := [];
    var depth: nat := 0;
    var i := 0;
    assert sql[0..] == sql;
    BeforeNothing(Scan(Pg, sql, 0, 0));
    while i < |sql|
      invariant i <= |sql| && Before(ts, Scan(Pg, sql[i..], i, depth)) == Scan(Pg, sql, 0, 0)
    {
      var p := ScanPgPiece(sql, i);
      ScanStep(Pg, sql[i..], i, depth);
      if p.Unclosed? { return None; }
      TailOf(sql, i, Len(p));
      if !p.Skip? {
        var t := TokenOf(Pg, p, sql[i..], i, depth);
        var next := NextDepth(Pg, t, depth);
        if next.None? { return None; }
        BeforeMore(ts, t, Scan(Pg, sql[i + Len(p)..], i + Len(p), next.value));
        ts, depth := ts + [t], next.value;
      }
      i := i + Len(p);
    }
    ScanEmpty(Pg, i, depth);
    assert sql[i..] == "" && ts + [] == ts;
    return if depth == 0 then Some(ts) else None;
  }

  method ScanMySqlPiece(sql: string, i: nat) returns (p: Piece)
    requires i < |sql|
    ensures p == MySqlPiece(sql[i..]) && IsMySqlPiece(sql[i..], p)
  {
    hide IsMySqlPiece; hide QuoteEnd; hide Lexer.Run; hide Lexer.IsSpace; hide Lexer.IndexOfText; hide IsLineComment; hide LineEnd;
    var c, rest := sql[i], sql[i..];
    assert rest[1..] == sql[i + 1..] && (|rest| > 1 ==> rest[2..] == sql[i + 2..]);
    MySqlPieceIff(rest, MySqlPiece(rest));
    if Lexer.IsSpace(c) { return Skip(1); }
    if IsLineComment(rest) {
      var end := SkipLine(sql, i);
      return Skip(end - i);
    }
    if "/*" <= rest {
      var end := Lexer.IndexOfText(rest[2..], "*/");
      return Skip(if end.Some? then 2 + end.value + 2 else |rest|);
    }
    if c == '\'' || c == '"' || c == '`' {
      var end := SkipQuote(c, sql, i + 1);
      return if end.Some? then Opaque(end.value - i) else Dangling(|rest|);
    }
    if IsLetter(c) {
      var j := T.SkipRun(InWord, sql, i + 1);
      return Word(j - i);
    }
    return Symbol;
  }

  method SkipLine(sql: string, i: nat) returns (end: nat)
    requires i < |sql|
    ensures i <= end && end - i == LineEnd(sql[i..])
  {
    hide Lexer.Run;
    var rest := sql[i..];
    var from := if rest[0] == '#' then 1 else if |rest| > 1 then 2 else 1;
    assert rest[from..] == sql[i + from..];
    var j := T.SkipRun(Lexer.NotNewline, sql, i + from);
    return if j < |sql| then j + 1 else j;
  }

  method TokenizeMysqlSql(sql: string) returns (tokens: seq<Token>)
    ensures Some(tokens) == Scan(MySql, sql, 0, 0)
  {
    hide MySqlPiece; hide Scan; hide TokenOf; hide NextDepth;
    tokens := [];
    var depth: nat := 0;
    var i := 0;
    assert sql[0..] == sql;
    BeforeNothing(Scan(MySql, sql, 0, 0));
    while i < |sql|
      invariant i <= |sql| && Before(tokens, Scan(MySql, sql[i..], i, depth)) == Scan(MySql, sql, 0, 0)
    {
      var p := ScanMySqlPiece(sql, i);
      ScanStep(MySql, sql[i..], i, depth);
      TailOf(sql, i, Len(p));
      if !p.Skip? {
        var t := TokenOf(MySql, p, sql[i..], i, depth);
        MySqlDepth(t, depth);
        var next := NextDepth(MySql, t, depth).value;
        BeforeMore(tokens, t, Scan(MySql, sql[i + Len(p)..], i + Len(p), next));
        tokens, depth := tokens + [t], next;
      }
      i := i + Len(p);
    }
    ScanEmpty(MySql, i, depth);
    assert sql[i..] == "" && tokens + [] == tokens;
  }

  lemma MySqlDepth(t: Token, depth: nat)
    ensures NextDepth(MySql, t, depth).Some?
  {
  }

  /** The statement after the common table expressions of a WITH query. */
  method FindMainStatement(ts: seq<Token>) returns (main: Option<string>)
    ensures main == WithMainStatement(ts)
  {
    var i := 1;
    if i < |ts| && ts[i].value == "RECURSIVE" { i := 2; }
    while i < |ts|
      invariant MainFrom(ts, i) == WithMainStatement(ts)
      decreases |ts| - i
    {
      var a := SkipTo(ts, i, "AS", 0);
      if a >= |ts| || a + 1 >= |ts| || ts[a + 1].value != "(" { return None; }
      var close := SkipTo(ts, a + 2, ")", ts[a + 1].depth);
      if close >= |ts| { return None; }
      if close + 1 < |ts| && ts[close + 1].value == "," && ts[close + 1].depth == 0 { i := close + 2; }
      else { return if close + 1 < |ts| then Some(ts[close + 1].value) else None; }
    }
    return None;
  }

  method SkipTo(ts: seq<Token>, from: nat, value: string, depth: nat) returns (i: nat)
    ensures i == NextAt(ts, from, value, depth)
  {
    i := from;
    while i < |ts| && !(ts[i].value == value && ts[i].depth == depth)
      invariant from <= i && NextAt(ts, i, value, depth) == NextAt(ts, from, value, depth)
      decreases |ts| - i
    {
      i := i + 1;
    }
  }

  lemma TailOf(s: string, i: nat, n: nat)
    requires i + n <= |s|
    ensures s[i..][n..] == s[i + n..]
  {
  }

  lemma BeforeMore(ts: seq<Token>, t: Token, r: Option<seq<Token>>)
    ensures Before(ts, Cons(t, r)) == Before(ts + [t], r)
  {
    if r.Some? { assert ts + ([t] + r.value) == ts + [t] + r.value; }
  }
}
