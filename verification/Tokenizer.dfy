/** The lexer's loops, proved to produce the token list of `Lexer.Tokenize`. */
module Tokenizer {
  import opened Values
  import opened Lexer
  import opened LexerCorrect
  import opened TokenGrammar

  /** Whitespace, a line comment's text, and an unquoted identifier are each skipped by such a loop. */
  method SkipRun(p: char -> bool, input: string, from: nat) returns (j: nat)
    requires from <= |input|
    ensures from <= j <= |input| && j == from + Run(p, input[from..])
  {
    j := from;
    while j < |input| && p(input[j])
      invariant from <= j <= |input| && j + Run(p, input[j..]) == from + Run(p, input[from..])
    {
      assert input[j..][1..] == input[j + 1..];
      j := j + 1;
    }
  }

  lemma BlockEndStep(nested: bool, input: string, j: nat, depth: nat)
    requires j < |input| && depth > 0
    ensures BlockEnd(nested, input[j..], depth) ==
            if j + 1 < |input| && nested && input[j] == '/' && input[j + 1] == '*' then 2 + BlockEnd(nested, input[j + 2..], depth + 1)
            else if j + 1 < |input| && input[j] == '*' && input[j + 1] == '/' then 2 + BlockEnd(nested, input[j + 2..], depth - 1)
            else 1 + BlockEnd(nested, input[j + 1..], depth)
  {
    var rest := input[j..];
    assert rest[1..] == input[j + 1..] && (|rest| > 1 ==> rest[2..] == input[j + 2..] && rest[1] == input[j + 1]);
  }

  lemma OpensBlock(rest: string)
    ensures "/*" <= rest <==> |rest| > 1 && rest[0] == '/' && rest[1] == '*'
    ensures "*/" <= rest <==> |rest| > 1 && rest[0] == '*' && rest[1] == '/'
  {
  }

  lemma BlockEndDone(nested: bool, s: string, depth: nat)
    requires s == "" || depth == 0
    ensures BlockEnd(nested, s, depth) == 0
  {
  }

  method SkipBlockComment(nested: bool, input: string, from: nat) returns (j: nat)
    requires from <= |input|
    ensures from <= j <= |input| && j == from + BlockEnd(nested, input[from..], 1)
  {
    hide BlockEnd;
    j := from;
    var depth: nat := 1;
    while j < |input| && depth > 0
      invariant from <= j <= |input| && j + BlockEnd(nested, input[j..], depth) == from + BlockEnd(nested, input[from..], 1)
      decreases |input| - j
    {
      var rest := input[j..];
      BlockEndStep(nested, input, j, depth);
      OpensBlock(rest);
      if nested && "/*" <= rest { depth, j := depth + 1, j + 2; }
      else if "*/" <= rest { depth, j := depth - 1, j + 2; }
      else { j := j + 1; }
    }
    BlockEndDone(nested, input[j..], depth);
  }

  method SkipString(escape: bool, input: string, from: nat) returns (j: nat)
    requires from <= |input|
    ensures from <= j <= |input| && j == from + StringEnd(escape, input[from..])
  {
    j := from;
    while j < |input|
      invariant from <= j <= |input| && j + StringEnd(escape, input[j..]) == from + StringEnd(escape, input[from..])
    {
      assert input[j..][1..] == input[j + 1..] && (j + 1 < |input| ==> input[j..][2..] == input[j + 2..]);
      if escape && input[j] == '\\' { j := if j + 2 < |input| then j + 2 else |input|; }
      else if input[j] == '\'' {
        if j + 1 < |input| && input[j + 1] == '\'' { j := j + 2; }
        else { return j + 1; }
      } else { j := j + 1; }
    }
  }

  method SkipQuoted(close: char, input: string, from: nat) returns (j: nat, closed: bool)
    requires from <= |input|
    ensures from <= j <= |input| && Quoted(j - from, closed) == QuotedEnd(close, input[from..])
  {
    j, closed := from, false;
    while j < |input|
      invariant from <= j <= |input| && !closed
      invariant QuotedEnd(close, input[from..])
             == Quoted(j - from + QuotedEnd(close, input[j..]).len, QuotedEnd(close, input[j..]).closed)
    {
      assert input[j..][1..] == input[j + 1..] && (j + 1 < |input| ==> input[j..][2..] == input[j + 2..]);
      if input[j] == close {
        if j + 1 < |input| && input[j + 1] == close { j := j + 2; }
        else { return j + 1, true; }
      } else { j := j + 1; }
    }
  }

  method SkipNumber(input: string, from: nat) returns (j: nat)
    requires 0 < from <= |input|
    ensures from <= j <= |input| && j == from + NumberRun(input[from - 1], input[from..])
  {
    j := from;
    while j < |input| && InNumber(input[j - 1], input[j])
      invariant from <= j <= |input|
      invariant j + NumberRun(input[j - 1], input[j..]) == from + NumberRun(input[from - 1], input[from..])
    {
      assert input[j..][1..] == input[j + 1..];
      j := j + 1;
    }
  }

  /** A quoted identifier without its quotes. */
  method ScanQuoted(close: char, input: string, i: nat) returns (x: Lexeme)
    requires i < |input|
    ensures x == QuotedLexeme(close, input[i..])
  {
    hide Undouble; hide QuotedEnd;
    var rest := input[i..];
    assert rest[1..] == input[i + 1..];
    var j, closed := SkipQuoted(close, input, i + 1);
    var raw := input[i + 1..if closed then j - 1 else |input|];
    assert raw == rest[1..1 + (if closed then j - i - 2 else j - i - 1)];
    return Lexeme(Identifier, Undouble(close, raw), j - i);
  }

  /** One pass of the main loop for what is neither space, comment nor dollar-quoted string. */
  method ScanPlain(d: Dialect, input: string, i: nat) returns (x: Lexeme)
    requires i < |input|
    ensures x == FirstPlain(d, input[i..]) && IsPlainToken(d, input[i..], x)
  {
    hide QuotedLexeme; hide QuotePairs; hide Upper; hide StringEnd; hide NumberRun; hide Run; hide IsPlainToken;
    var c, rest := input[i], input[i..];
    PlainTokenIff(d, rest, FirstPlain(d, rest));
    assert rest[1..] == input[i + 1..] && (|rest| > 1 ==> rest[2..] == input[i + 2..]);
    var escape := d.id.Postgres? && IsExponent(c) && i + 1 < |input| && input[i + 1] == '\'';
    if c == '\'' || escape {
      var j := SkipString(escape, input, if escape then i + 2 else i + 1);
      return Lexeme(Text, rest[..j - i], j - i);
    }
    var close := PairFor(QuotePairs(d.id), c);
    if close.Some? {
      x := ScanQuoted(close.value, input, i);
      return;
    }
    if IsDigit(c) {
      var j := SkipNumber(input, i + 1);
      return Lexeme(Number, rest[..j - i], j - i);
    }
    if IsIdentStart(c) {
      var j := SkipRun(IsIdentCont, input, i + 1);
      return Lexeme(if Upper(rest[..j - i]) in d.keywords then Keyword else Identifier, rest[..j - i], j - i);
    }
    return Lexeme(if IsPunct(c) then Punct else Identifier, rest[..1], 1);
  }

  method Scan(d: Dialect, input: string, i: nat) returns (x: Lexeme)
    requires i < |input|
    ensures x == First(d, AfterAt(false, input, i), input[i..]) && IsToken(d, AfterAt(false, input, i), input[i..], x)
  {
    hide FirstPlain; hide BlockEnd; hide Run; hide IsSpace; hide DollarTag; hide IsToken;
    var rest := input[i..];
    TokenIff(d, AfterAt(false, input, i), rest, First(d, AfterAt(false, input, i), rest));
    assert rest[1..] == input[i + 1..] && (|rest| > 1 ==> rest[2..] == input[i + 2..]);
    if IsSpace(input[i]) {
      var j := SkipRun(IsSpace, input, i + 1);
      return Lexeme(Whitespace, rest[..j - i], j - i);
    }
    if "/*" <= rest {
      var j := SkipBlockComment(d.id.Postgres?, input, i + 2);
      return Lexeme(Comment, rest[..j - i], j - i);
    }
    if "--" <= rest {
      var j := SkipRun(NotNewline, input, i + 2);
      return Lexeme(Comment, rest[..j - i], j - i);
    }
    if d.id.Postgres? && (i == 0 || !IsIdentCont(input[i - 1])) {
      var t := DollarTag(rest);
      if t > 0 {
        var end := IndexOfText(rest[t..], rest[..t]);
        var j := if end.None? then |rest| else t + end.value + t;
        return Lexeme(Text, rest[..j], j);
      }
    }
    x := ScanPlain(d, input, i);
  }

  /** The main loop: its tokens cover the input, each is what the grammar says where it stands, and the end marker is last. */
  method Tokenize(d: Dialect, input: string) returns (tokens: seq<Token>)
    ensures tokens == Lexer.Tokenize(d, input)
    ensures tokens != [] && tokens[|tokens| - 1] == Token(Eof, "", |input|, |input|)
    ensures AreTokens(d, false, input, 0, tokens[..|tokens| - 1])
  {
    hide First; hide Lex; hide AreTokens;
    tokens := [];
    var i := 0;
    assert input[0..] == input;
    while i < |input|
      invariant i <= |input| && tokens + Lex(d, AfterAt(false, input, i), input[i..], i) == Lex(d, false, input, 0)
    {
      var x := Scan(d, input, i);
      LexStep(d, AfterAt(false, input, i), input[i..], i);
      assert input[i..][x.len..] == input[i + x.len..] && input[i..][x.len - 1] == input[i + x.len - 1];
      tokens := tokens + [Token(x.kind, x.value, i, i + x.len)];
      i := i + x.len;
    }
    LexNothing(d, AfterAt(false, input, i), i);
    tokens := tokens + [Token(Eof, "", |input|, |input|)];
    TokenizeIff(d, input, tokens);
  }
}
