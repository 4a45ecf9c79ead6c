/** The server-side row caps of PostgreSQL and MySQL: a small tokenizer each, and the place where a LIMIT clause goes. */
module RowCap {
  import opened Values
  import Lexer

  datatype Flavor = Pg | MySql

  /** A word is in one case; quoted text has no value of its own; every other character stands for itself. */
  datatype Token = Token(word: bool, value: string, start: nat, end: nat, depth: nat)

  /** What is at the front of the text. PostgreSQL's tokenizer gives up on unclosed quotes, MySQL's lets them run to the end. */
  datatype Piece = Skip(len: nat) | Word(len: nat) | Opaque(len: nat) | Dangling(len: nat) | Symbol | Unclosed

  predicate IsLetter(c: char) { Lexer.IsLetter(c) }

  predicate InWord(c: char) { Lexer.IsIdentCont(c) }

  // ----- one piece -----

  /** The rest of a nested block comment. */
  function CommentEnd(s: string, depth: nat): (r: Option<nat>)
    ensures r.Some? ==> r.value <= |s|
    decreases |s|
  {
    if depth == 0 then Some(0)
    else if s == "" then None
    else if "/*" <= s then Plus(2, CommentEnd(s[2..], depth + 1))
    else if "*/" <= s then Plus(2, CommentEnd(s[2..], depth - 1))
    else Plus(1, CommentEnd(s[1..], depth))
  }

  function Plus(n: nat, r: Option<nat>): Option<nat> { if r.Some? then Some(n + r.value) else None }

  /** The rest of a quoted text, from after its opening quote; a backslash hides the next character. */
  function QuoteEnd(quote: char, s: string): (r: Option<nat>)
    ensures r.Some? ==> 0 < r.value <= |s|
  {
    if s == "" then None
    else if s[0] == '\\' then (if |s| < 2 then None else Plus(2, QuoteEnd(quote, s[2..])))
    else if s[0] == quote then (if |s| > 1 && s[1] == quote then Plus(2, QuoteEnd(quote, s[2..])) else Some(1))
    else Plus(1, QuoteEnd(quote, s[1..]))
  }

  function DollarEnd(s: string): (r: Option<nat>)
    requires Lexer.DollarTag(s) > 0
    ensures r.Some? ==> 0 < r.value <= |s|
  {
    var t := Lexer.DollarTag(s);
    var r := Lexer.IndexOfText(s[t..], s[..t]);
    if r.Some? then Some(t + r.value + t) else None
  }

  function PgPiece(s: string): (p: Piece)
    requires s != ""
    ensures p.Skip? || p.Word? || p.Opaque? ==> 1 <= p.len <= |s|
    ensures !p.Dangling?
  {
    var c := s[0];
    if Lexer.IsSpace(c) then Skip(1)
    else if "--" <= s then Skip(2 + Lexer.Run(Lexer.NotNewline, s[2..]))
    else if "/*" <= s then (var r := CommentEnd(s[2..], 1); if r.Some? then Skip(2 + r.value) else Unclosed)
    else if c == '\'' || c == '"' then (var r := QuoteEnd(c, s[1..]); if r.Some? then Opaque(1 + r.value) else Unclosed)
    else if Lexer.DollarTag(s) > 0 then (var r := DollarEnd(s); if r.Some? then Opaque(r.value) else Unclosed)
    else if IsLetter(c) then Word(1 + Lexer.Run(InWord, s[1..]))
    else Symbol
  }

  predicate IsLineComment(s: string)
    requires s != ""
  {
    s[0] == '#' || ("--" <= s && (|s| == 2 || Lexer.IsSpace(s[2])))
  }

  /** A line comment with its newline. */
  function LineEnd(s: string): (n: nat)
    requires s != ""
    ensures 1 <= n <= |s|
  {
    var from := if s[0] == '#' then 1 else if |s| > 1 then 2 else 1;
    var n := from + Lexer.Run(Lexer.NotNewline, s[from..]);
    if n < |s| then n + 1 else n
  }

  function MySqlPiece(s: string): (p: Piece)
    requires s != ""
    ensures p.Skip? || p.Word? || p.Opaque? ==> 1 <= p.len <= |s|
    ensures !p.Unclosed? && (p.Dangling? ==> p.len == |s|)
  {
    var c := s[0];
    if Lexer.IsSpace(c) then Skip(1)
    else if IsLineComment(s) then Skip(LineEnd(s))
    else if "/*" <= s then (var r := Lexer.IndexOfText(s[2..], "*/"); Skip(if r.Some? then 2 + r.value + 2 else |s|))
    else if c == '\'' || c == '"' || c == '`' then (var r := QuoteEnd(c, s[1..]); if r.Some? then Opaque(1 + r.value) else Dangling(|s|))
    else if IsLetter(c) then Word(1 + Lexer.Run(InWord, s[1..]))
    else Symbol
  }

  function PieceAt(f: Flavor, s: string): (p: Piece)
    requires s != ""
    ensures p.Skip? || p.Word? || p.Opaque? || p.Dangling? ==> 1 <= p.len <= |s|
    ensures p.Dangling? ==> f.MySql? && p.len == |s|
    ensures p.Unclosed? ==> f.Pg?
  {
    if f.Pg? then PgPiece(s) else MySqlPiece(s)
  }

  function Len(p: Piece): nat { if p.Symbol? || p.Unclosed? then 1 else p.len }

  // ----- the token list -----

  /** The token a piece gives, standing at `base` in parenthesis depth `depth`; a closing parenthesis counts as outside. */
  function TokenOf(f: Flavor, p: Piece, s: string, base: nat, depth: nat): Token
    requires s != "" && p == PieceAt(f, s)
  {
    match p
    case Word(n) => Token(true, if f.Pg? then Lexer.Lower(s[..n]) else Lexer.Upper(s[..n]), base, base + n, depth)
    case Opaque(n) => Token(false, if f.Pg? then "" else "<quoted>", base, base + n, depth)
    case Dangling(n) => Token(false, "<quoted>", base, base + n, depth)
    case _ => Token(false, [s[0]], base, base + 1, if s[0] == ')' && depth > 0 then depth - 1 else depth)
  }

  /** PostgreSQL's tokenizer gives up on a parenthesis that closes nothing. */
  function NextDepth(f: Flavor, t: Token, depth: nat): Option<nat> {
    if t.word || (t.value != "(" && t.value != ")") then Some(depth)
    else if t.value == "(" then Some(depth + 1)
    else if depth > 0 then Some(depth - 1)
    else if f.Pg? then None else Some(0)
  }

  function Cons(t: Token, r: Option<seq<Token>>): Option<seq<Token>> { if r.Some? then Some([t] + r.value) else None }

  /** The tokens of `s`; for PostgreSQL None if quotes or comments are unclosed or parentheses unbalanced. */
  function Scan(f: Flavor, s: string, base: nat, depth: nat): (r: Option<seq<Token>>)
    ensures f.MySql? ==> r.Some?
    decreases |s|
  {
    if s == "" then (if f.MySql? || depth == 0 then Some([]) else None)
    else
      var p := PieceAt(f, s);
      if p.Unclosed? then None
      else if p.Skip? then Scan(f, s[p.len..], base + p.len, depth)
      else
        var t := TokenOf(f, p, s, base, depth);
        var next := NextDepth(f, t, depth);
        if next.None? then None else Cons(t, Scan(f, s[Len(p)..], base + Len(p), next.value))
  }

  /** Whether the text ends inside a quote. */
  predicate Dangles(f: Flavor, s: string)
    decreases |s|
  {
    s != "" && (PieceAt(f, s).Dangling? || (!PieceAt(f, s).Unclosed? && Dangles(f, s[Len(PieceAt(f, s))..])))
  }

  // ----- the cap -----

  predicate IsSemicolon(t: Token) { t.value == ";" && t.depth == 0 }

  /** Position of the first top-level semicolon. */
  function FirstSemicolon(ts: seq<Token>): (k: nat)
    ensures k <= |ts| && (forall i | 0 <= i < k :: !IsSemicolon(ts[i])) && (k < |ts| ==> IsSemicolon(ts[k]))
  {
    if ts == [] || IsSemicolon(ts[0]) then 0 else 1 + FirstSemicolon(ts[1..])
  }

  predicate IsWord(t: Token, values: seq<string>) { t.word && t.value in values }

  predicate HasWord(ts: seq<Token>, values: seq<string>) { exists i | 0 <= i < |ts| :: IsWord(ts[i], values) }

  const COMMANDS: seq<string> := ["select", "values", "table"]
  const OPENERS: seq<string> := ["select", "with", "values", "table"]
  const CAPS: seq<string> := ["limit", "fetch"]
  const WRITES: seq<string> := ["insert", "update", "delete", "merge", "into"]

  predicate IsCommand(t: Token) { t.depth == 0 && IsWord(t, COMMANDS) }

  /** A single top-level query that neither limits itself nor may write. */
  predicate Cappable(stmt: seq<Token>) {
    && stmt != []
    && !HasWord(stmt, CAPS) && !HasWord(stmt, WRITES)
    && (exists i | 0 <= i < |stmt| :: IsCommand(stmt[i]))
    && stmt[0].value in OPENERS
  }

  /** The tokens of the only statement, None when there is more than one or text follows its semicolon. */
  function OnlyStatement(ts: seq<Token>): Option<seq<Token>> {
    var k := FirstSemicolon(ts);
    if k < |ts| && |ts| > k + 1 then None else Some(ts[..k])
  }

  const MAX_SAFE_INTEGER: int := 0x1F_FFFF_FFFF_FFFF

  /** Where PostgreSQL's LIMIT clause goes. */
  function CapPoint(sql: string): Option<nat> {
    var ts := Scan(Pg, sql, 0, 0);
    if ts.None? then None
    else
      var stmt := OnlyStatement(ts.value);
      if stmt.None? || !Cappable(stmt.value) then None else Some(stmt.value[|stmt.value| - 1].end)
  }

  function Insert(sql: string, at: nat, text: string): string
    requires at <= |sql|
  {
    sql[..at] + text + sql[at..]
  }

  function LimitText(n: nat): string { " LIMIT " + Dec(n) }

  function ApplyServerRowCap(sql: string, limit: int): string {
    var at := CapPoint(sql);
    if !(0 < limit <= MAX_SAFE_INTEGER) || at.None? || at.value > |sql| then sql else Insert(sql, at.value, LimitText(limit + 1))
  }

  // ----- MySQL -----

  function ValueAt(ts: seq<Token>, i: nat): Option<string> { if i < |ts| then Some(ts[i].value) else None }

  predicate TopLevel(ts: seq<Token>, i: nat, value: string) { i < |ts| && ts[i].depth == 0 && ts[i].value == value }

  predicate HasTopLevel(ts: seq<Token>, value: string) { exists i | 0 <= i < |ts| :: TopLevel(ts, i, value) }

  /** The first token from `i` on with this value and depth. */
  function NextAt(ts: seq<Token>, i: nat, value: string, depth: nat): (k: nat)
    ensures i <= k && (k < |ts| ==> ts[k].value == value && ts[k].depth == depth)
    decreases |ts| - i
  {
    if i >= |ts| || (ts[i].value == value && ts[i].depth == depth) then i else NextAt(ts, i + 1, value, depth)
  }

  /** The word after the common table expressions that start at token `i`. */
  function MainFrom(ts: seq<Token>, i: nat): Option<string>
    decreases |ts| - i
  {
    if i >= |ts| then None
    else
      var a := NextAt(ts, i, "AS", 0);
      if a >= |ts| || ValueAt(ts, a + 1) != Some("(") then None
      else
        var close := NextAt(ts, a + 2, ")", ts[a + 1].depth);
        if close >= |ts| then None
        else if TopLevel(ts, close + 1, ",") then MainFrom(ts, close + 2)
        else ValueAt(ts, close + 1)
  }

  function WithMainStatement(ts: seq<Token>): Option<string> { MainFrom(ts, if ValueAt(ts, 1) == Some("RECURSIVE") then 2 else 1) }

  predicate LocksAt(ts: seq<Token>, i: nat) {
    || (TopLevel(ts, i, "FOR") && (ValueAt(ts, i + 1) == Some("UPDATE") || ValueAt(ts, i + 1) == Some("SHARE")))
    || (TopLevel(ts, i, "LOCK") && TopLevel(ts, i + 1, "IN") && TopLevel(ts, i + 2, "SHARE"))
  }

  predicate IsReadQuery(ts: seq<Token>) {
    && (ValueAt(ts, 0) == Some("SELECT") || (ValueAt(ts, 0) == Some("WITH") && WithMainStatement(ts) == Some("SELECT")))
    && !HasTopLevel(ts, "INTO") && !HasTopLevel(ts, "PROCEDURE")
    && forall i | 0 <= i < |ts| :: !LocksAt(ts, i)
  }

  /** Where MySQL's LIMIT clause goes. */
  function PreparePoint(sql: string): Option<nat> {
    var ts := Scan(MySql, sql, 0, 0).value;
    var stmt := OnlyStatement(ts);
    if ts == [] || stmt.None? || !IsReadQuery(ts) || HasTopLevel(ts, "LIMIT") || stmt.value == []
       || stmt.value[|stmt.value| - 1].value == ";" then None
    else Some(stmt.value[|stmt.value| - 1].end)
  }

  const PARAMETER: string := "?"

  /** The text to run, with the value of its parameter when a limit was added. */
  datatype Prepared = Prepared(sql: string, values: seq<int>)

  function PrepareMysqlQuery(sql: string, limit: int): Prepared {
    var at := PreparePoint(sql);
    if at.None? || at.value > |sql| then Prepared(sql, []) else Prepared(Insert(sql, at.value, " LIMIT " + PARAMETER), [limit + 1])
  }
}
