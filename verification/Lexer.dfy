/**
 * The tolerant SQL lexer: what one step takes off the front of the remaining text, and the token list this gives.
 * All dialects of the registry share the comment markers and the `;` separator.
 */
module Lexer {
  import opened Values

  datatype DialectId = Postgres | MySql | MariaDb | SqlServer | Oracle | JdbcGeneric | Odbc | S3 | DuckDb | MongoDb

  datatype Dialect = Dialect(id: DialectId, keywords: set<string>)

  function QuotePairs(id: DialectId): (r: seq<(char, char)>)
    ensures forall i | 0 <= i < |r| :: QuotesOnly(r[i].0)
  {
    match id
    case MySql => [('`', '`'), ('"', '"')]
    case MariaDb => [('`', '`'), ('"', '"')]
    case SqlServer => [('[', ']')]
    case _ => [('"', '"')]
  }

  predicate QuotesOnly(c: char) { c == '`' || c == '"' || c == '[' }

  datatype Kind = Identifier | Keyword | Punct | Text | Number | Comment | Whitespace | Eof

  datatype Token = Token(kind: Kind, value: string, start: nat, end: nat)

  /** A token without its position. */
  datatype Lexeme = Lexeme(kind: Kind, value: string, len: nat)

  // ----- characters -----

  predicate IsSpace(c: char) {
    || '\t' <= c <= '\r' || c == ' ' || c == '\U{00A0}' || c == '\U{1680}' || '\U{2000}' <= c <= '\U{200A}'
    || c == '\U{2028}' || c == '\U{2029}' || c == '\U{202F}' || c == '\U{205F}' || c == '\U{3000}' || c == '\U{FEFF}'
  }

  predicate IsDigit(c: char) { '0' <= c <= '9' }

  predicate IsLetter(c: char) { 'A' <= c <= 'Z' || 'a' <= c <= 'z' || c == '_' }

  predicate IsIdentStart(c: char) { IsLetter(c) || c == '$' }

  predicate IsIdentCont(c: char) { IsLetter(c) || IsDigit(c) || c == '$' }

  predicate IsTagChar(c: char) { IsLetter(c) || IsDigit(c) }

  predicate NotNewline(c: char) { c != '\n' }

  predicate IsPunct(c: char) { c in ".,();+-*/<>=!%" }

  function UpperChar(c: char): char { if 'a' <= c <= 'z' then (c as int - 32) as char else c }

  function LowerChar(c: char): char { if 'A' <= c <= 'Z' then (c as int + 32) as char else c }

  function Upper(s: string): (r: string)
    ensures |r| == |s| && forall i | 0 <= i < |s| :: r[i] == UpperChar(s[i])
  {
    seq(|s|, i requires 0 <= i < |s| => UpperChar(s[i]))
  }

  function Lower(s: string): (r: string)
    ensures |r| == |s| && forall i | 0 <= i < |s| :: r[i] == LowerChar(s[i])
  {
    seq(|s|, i requires 0 <= i < |s| => LowerChar(s[i]))
  }

  // ----- scanners: how much of `s` belongs to the token -----

  function Run(p: char -> bool, s: string): (n: nat)
    ensures n <= |s| && (forall i | 0 <= i < n :: p(s[i])) && (n < |s| ==> !p(s[n]))
  {
    if s == "" || !p(s[0]) then 0 else 1 + Run(p, s[1..])
  }

  /** The rest of a block comment, from inside `depth` openings. */
  function BlockEnd(nested: bool, s: string, depth: nat): (n: nat)
    ensures n <= |s| && (depth > 0 && s != "" ==> n > 0)
    decreases |s|
  {
    if s == "" || depth == 0 then 0
    else if nested && "/*" <= s then 2 + BlockEnd(nested, s[2..], depth + 1)
    else if "*/" <= s then 2 + BlockEnd(nested, s[2..], depth - 1)
    else 1 + BlockEnd(nested, s[1..], depth)
  }

  /** Length of the dollar-quote delimiter at the front of `s`, 0 if there is none. */
  function DollarTag(s: string): (n: nat)
    ensures n <= |s| && (n > 0 ==> n >= 2 && s[0] == '$' && s[n - 1] == '$')
  {
    if |s| < 2 || s[0] != '$' then 0
    else if s[1] == '$' then 2
    else if !IsLetter(s[1]) then 0
    else
      var k := 2 + Run(IsTagChar, s[2..]);
      if k < |s| && s[k] == '$' then k + 1 else 0
  }

  /** Where `pattern` first occurs in `s`. */
  function IndexOfText(s: string, pattern: string): (r: Option<nat>)
    requires pattern != ""
    ensures r.Some? ==> r.value + |pattern| <= |s|
  {
    if |s| < |pattern| then None
    else if pattern <= s then Some(0)
    else
      var r := IndexOfText(s[1..], pattern);
      if r.None? then None else Some(r.value + 1)
  }

  /** The rest of a string literal, from after its opening quote. */
  function StringEnd(escape: bool, s: string): (n: nat)
    ensures n <= |s|
  {
    if s == "" then 0
    else if escape && s[0] == '\\' then (if |s| < 2 then 1 else 2 + StringEnd(escape, s[2..]))
    else if s[0] == '\'' then (if |s| > 1 && s[1] == '\'' then 2 + StringEnd(escape, s[2..]) else 1)
    else 1 + StringEnd(escape, s[1..])
  }

  datatype Quoted = Quoted(len: nat, closed: bool)

  /** The rest of a quoted identifier, from after its opening quote. */
  function QuotedEnd(close: char, s: string): (q: Quoted)
    ensures q.len <= |s| && (q.closed ==> q.len > 0) && (!q.closed ==> q.len == |s|)
  {
    if s == "" then Quoted(0, false)
    else if s[0] != close then
      var q := QuotedEnd(close, s[1..]);
      Quoted(q.len + 1, q.closed)
    else if |s| > 1 && s[1] == close then
      var q := QuotedEnd(close, s[2..]);
      Quoted(q.len + 2, q.closed)
    else Quoted(1, true)
  }

  /** Doubled closing quotes read as one. */
  function Undouble(close: char, s: string): string {
    if s == "" then ""
    else if |s| > 1 && s[0] == close && s[1] == close then [close] + Undouble(close, s[2..])
    else [s[0]] + Undouble(close, s[1..])
  }

  predicate IsExponent(c: char) { c == 'e' || c == 'E' }

  predicate InNumber(prev: char, c: char) { IsDigit(c) || c == '.' || IsExponent(c) || ((c == '+' || c == '-') && IsExponent(prev)) }

  function NumberRun(prev: char, s: string): (n: nat)
    ensures n <= |s|
    decreases |s|
  {
    if s == "" || !InNumber(prev, s[0]) then 0 else 1 + NumberRun(s[0], s[1..])
  }

  // ----- one token -----

  function DollarLen(s: string): (n: nat)
    requires DollarTag(s) > 0
    ensures DollarTag(s) <= n <= |s|
  {
    var t := DollarTag(s);
    var r := IndexOfText(s[t..], s[..t]);
    if r.None? then |s| else t + r.value + t
  }

  predicate IsEscapeString(d: Dialect, s: string)
    requires s != ""
  {
    d.id.Postgres? && IsExponent(s[0]) && |s| > 1 && s[1] == '\''
  }

  function PairFor(pairs: seq<(char, char)>, c: char): (r: Option<char>)
    ensures r.Some? ==> (c, r.value) in pairs
  {
    if pairs == [] then None else if pairs[0].0 == c then Some(pairs[0].1) else PairFor(pairs[1..], c)
  }

  function QuotedLexeme(close: char, s: string): Lexeme
    requires s != ""
  {
    var q := QuotedEnd(close, s[1..]);
    Lexeme(Identifier, Undouble(close, s[1..1 + (if q.closed then q.len - 1 else q.len)]), 1 + q.len)
  }

  function Spanning(kind: Kind, s: string, len: nat): (x: Lexeme)
    requires len <= |s|
    ensures x.len == len
  {
    Lexeme(kind, s[..len], len)
  }

  /** A token that is neither space, comment nor dollar-quoted string. */
  function FirstPlain(d: Dialect, s: string): (x: Lexeme)
    requires s != ""
    ensures 1 <= x.len <= |s|
  {
    var c := s[0];
    if IsEscapeString(d, s) then Spanning(Text, s, 2 + StringEnd(true, s[2..]))
    else if c == '\'' then Spanning(Text, s, 1 + StringEnd(false, s[1..]))
    else if PairFor(QuotePairs(d.id), c).Some? then QuotedLexeme(PairFor(QuotePairs(d.id), c).value, s)
    else if IsDigit(c) then Spanning(Number, s, 1 + NumberRun(c, s[1..]))
    else if IsIdentStart(c) then
      var n := 1 + Run(IsIdentCont, s[1..]);
      Spanning(if Upper(s[..n]) in d.keywords then Keyword else Identifier, s, n)
    else Spanning(if IsPunct(c) then Punct else Identifier, s, 1)
  }

  /** The token at the front of `s`; `after` says that an identifier character came just before. */
  function First(d: Dialect, after: bool, s: string): (x: Lexeme)
    requires s != ""
    ensures 1 <= x.len <= |s|
  {
    if IsSpace(s[0]) then Spanning(Whitespace, s, 1 + Run(IsSpace, s[1..]))
    else if "/*" <= s then Spanning(Comment, s, 2 + BlockEnd(d.id.Postgres?, s[2..], 1))
    else if "--" <= s then Spanning(Comment, s, 2 + Run(NotNewline, s[2..]))
    else if d.id.Postgres? && !after && DollarTag(s) > 0 then Spanning(Text, s, DollarLen(s))
    else FirstPlain(d, s)
  }

  // ----- the token list -----

  function Lex(d: Dialect, after: bool, s: string, base: nat): seq<Token>
    decreases |s|
  {
    if s == "" then [] else
      var x := First(d, after, s);
      [Token(x.kind, x.value, base, base + x.len)] + Lex(d, IsIdentCont(s[x.len - 1]), s[x.len..], base + x.len)
  }

  function Tokenize(d: Dialect, input: string): seq<Token> {
    Lex(d, false, input, 0) + [Token(Eof, "", |input|, |input|)]
  }

  /** `b` is where some token of `s` starts or ends. */
  predicate IsBoundary(d: Dialect, after: bool, s: string, b: nat)
    decreases |s|
  {
    b == 0 || (s != "" && First(d, after, s).len <= b
               && IsBoundary(d, IsIdentCont(s[First(d, after, s).len - 1]), s[First(d, after, s).len..], b - First(d, after, s).len))
  }

  /** Whether an identifier character comes just before position `b`. */
  predicate AfterAt(after: bool, s: string, b: nat)
    requires b <= |s|
  {
    if b == 0 then after else IsIdentCont(s[b - 1])
  }

  predicate NotBefore(ts: seq<Token>, p: int) { forall i | 0 <= i < |ts| :: ts[i].start >= p && ts[i].end >= p }

  function Move(t: Token, delta: int): Token
    requires t.start + delta >= 0 && t.end + delta >= 0
  {
    Token(t.kind, t.value, t.start + delta, t.end + delta)
  }

  function Shift(ts: seq<Token>, delta: int): (r: seq<Token>)
    requires NotBefore(ts, -delta)
    ensures |r| == |ts| && forall i | 0 <= i < |ts| :: r[i] == Move(ts[i], delta)
  {
    seq(|ts|, i requires 0 <= i < |ts| => Move(ts[i], delta))
  }
}
