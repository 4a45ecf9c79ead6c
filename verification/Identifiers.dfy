/** Quoting an identifier and lexing it back. */
module Identifiers {
  import opened Values
  import opened Lexer
  import opened LexerCorrect

  /** Every `c` written twice, as a global replace does. */
  function Double(c: char, s: string): string {
    if s == "" then "" else (if s[0] == c then [c, c] else [s[0]]) + Double(c, s[1..])
  }

  function Open(id: DialectId): char { if id.SqlServer? then '[' else if id.MySql? || id.MariaDb? then '`' else '"' }

  function Close(id: DialectId): char { if id.SqlServer? then ']' else if id.MySql? || id.MariaDb? then '`' else '"' }

  function QuoteIdentifier(id: DialectId, name: string): string { [Open(id)] + Double(Close(id), name) + [Close(id)] }

  predicate PlainName(name: string) { name != "" && IsIdentStart(name[0]) && forall i | 0 <= i < |name| :: IsIdentCont(name[i]) }

  predicate NeedsQuote(d: Dialect, name: string, metadata: bool) {
    if !PlainName(name) || Upper(name) in d.keywords then true
    else if !metadata then false
    else if d.id.Postgres? then name != Lower(name)
    else if d.id.Oracle? then name != Upper(name)
    else false
  }

  function FormatIdentifier(d: Dialect, name: string, metadata: bool): string {
    if NeedsQuote(d, name, metadata) then QuoteIdentifier(d.id, name) else name
  }

  // ----- quoting -----

  lemma {:induction false} UndoubleDouble(c: char, s: string)
    ensures Undouble(c, Double(c, s)) == s
  {
    if s != "" {
      UndoubleDouble(c, s[1..]);
      var rest := Double(c, s[1..]);
      if s[0] == c {
        assert Double(c, s) == [c, c] + rest && ([c, c] + rest)[2..] == rest;
      } else {
        assert Double(c, s) == [s[0]] + rest && ([s[0]] + rest)[1..] == rest;
      }
    }
  }

  lemma {:induction false} QuotedEndOfDouble(c: char, s: string, r: string)
    requires r == "" || r[0] != c
    ensures QuotedEnd(c, Double(c, s) + [c] + r) == Quoted(|Double(c, s)| + 1, true)
  {
    var all := Double(c, s) + [c] + r;
    if s == "" {
      assert all == [c] + r;
    } else {
      QuotedEndOfDouble(c, s[1..], r);
      var tail := Double(c, s[1..]) + [c] + r;
      if s[0] == c {
        assert all == [c, c] + tail && ([c, c] + tail)[2..] == tail;
      } else {
        assert all == [s[0]] + tail && ([s[0]] + tail)[1..] == tail;
      }
    }
  }

  lemma CanonicalPair(id: DialectId)
    ensures PairFor(QuotePairs(id), Open(id)) == Some(Close(id))
  {
  }

  /** The quoted name is one token, whatever comes before it and whatever follows but another closing quote. */
  lemma QuotedIsOneToken(d: Dialect, after: bool, name: string, r: string)
    requires r == "" || r[0] != Close(d.id)
    ensures First(d, after, QuoteIdentifier(d.id, name) + r) == Lexeme(Identifier, name, |QuoteIdentifier(d.id, name)|)
  {
    hide Undouble; hide QuotedEnd; hide Double; hide DollarLen; hide QuotePairs;
    var body, s := Double(Close(d.id), name), QuoteIdentifier(d.id, name) + r;
    assert s[0] == Open(d.id) && s[1..] == body + [Close(d.id)] + r;
    QuotedEndOfDouble(Close(d.id), name, r);
    UndoubleDouble(Close(d.id), name);
    CanonicalPair(d.id);
    assert s[1..1 + |body|] == body;
    assert First(d, after, s) == FirstPlain(d, s);
    assert FirstPlain(d, s) == QuotedLexeme(Close(d.id), s);
  }

  lemma OneTokenLexed(d: Dialect, s: string, x: Lexeme)
    requires s != "" && First(d, false, s) == x && x.len == |s|
    ensures Tokenize(d, s) == [Token(x.kind, x.value, 0, |s|), Token(Eof, "", |s|, |s|)]
  {
    hide First;
    LexStep(d, false, s, 0);
    assert s[|s|..] == "";
  }

  /** For every dialect and every string, the quoted form lexes to one identifier with that value. */
  lemma QuoteRoundTrip(d: Dialect, name: string)
    ensures var s := QuoteIdentifier(d.id, name);
            Tokenize(d, s) == [Token(Identifier, name, 0, |s|), Token(Eof, "", |s|, |s|)]
  {
    var s := QuoteIdentifier(d.id, name);
    QuotedIsOneToken(d, false, name, "");
    assert s + "" == s;
    OneTokenLexed(d, s, Lexeme(Identifier, name, |s|));
  }

  // ----- formatting -----

  lemma PlainFirst(d: Dialect, name: string)
    requires PlainName(name) && Upper(name) !in d.keywords
    ensures First(d, false, name) == if d.id.Postgres? && DollarTag(name) > 0 then Spanning(Text, name, DollarLen(name))
                                     else Lexeme(Identifier, name, |name|)
  {
    hide DollarTag; hide DollarLen; hide Upper;
    assert IsIdentCont(name[0]) && (|name| > 1 ==> IsIdentCont(name[1]));
    RunAll(IsIdentCont, name[1..]);
    assert name[..|name|] == name;
    assert PairFor(QuotePairs(d.id), name[0]).None?;
  }

  /**
   * The formatted name lexes to one identifier with that value, except an unquoted PostgreSQL name that starts with a
   * dollar-quote delimiter.
   */
  lemma FormatRoundTripIff(d: Dialect, name: string, metadata: bool)
    ensures var s := FormatIdentifier(d, name, metadata);
            Tokenize(d, s) == [Token(Identifier, name, 0, |s|), Token(Eof, "", |s|, |s|)]
            <==> NeedsQuote(d, name, metadata) || !(d.id.Postgres? && DollarTag(name) > 0)
  {
    hide First; hide DollarTag; hide DollarLen; hide Lex;
    if NeedsQuote(d, name, metadata) {
      QuoteRoundTrip(d, name);
    } else {
      PlainFirst(d, name);
      LexStep(d, false, name, 0);
      if !(d.id.Postgres? && DollarTag(name) > 0) {
        OneTokenLexed(d, name, Lexeme(Identifier, name, |name|));
      } else {
        assert Tokenize(d, name)[0].kind.Text?;
      }
    }
  }

  lemma DollarExample()
    ensures DollarTag("$a$") > 0 && PlainName("$a$") && Upper("$a$") == "$A$" && Lower("$a$") == "$a$"
  {
    assert "$a$"[2..] == "$" && Run(IsTagChar, "$") == 0;
  }

  /** The exception is met: this name is left unquoted and is not read back as an identifier. */
  lemma DollarNameIsLost(keywords: set<string>)
    requires "$A$" !in keywords
    ensures var d := Dialect(Postgres, keywords);
            FormatIdentifier(d, "$a$", true) == "$a$"
            && Tokenize(d, "$a$") != [Token(Identifier, "$a$", 0, 3), Token(Eof, "", 3, 3)]
  {
    hide Tokenize; hide DollarTag; hide Upper; hide Lower; hide PlainName;
    DollarExample();
    FormatRoundTripIff(Dialect(Postgres, keywords), "$a$", true);
  }

  /** The name the database resolves: unquoted names fold to lower case in PostgreSQL and to upper case in Oracle. */
  function Resolved(id: DialectId, written: string, value: string): string {
    if written != "" && written[0] == Open(id) then value
    else if id.Postgres? then Lower(value)
    else if id.Oracle? then Upper(value)
    else value
  }

  /** A name from metadata keeps its case; one typed by the user keeps it unless the database folds it. */
  lemma FormatKeepsCase(d: Dialect, name: string, metadata: bool)
    ensures Resolved(d.id, FormatIdentifier(d, name, metadata), name) == name
            <==> metadata || NeedsQuote(d, name, false) || Resolved(d.id, "", name) == name
  {
    if PlainName(name) { assert IsIdentStart(name[0]) && name[0] != Open(d.id); }
  }

  /** Letters, digits, underscores and dollar signs, not starting with a digit. */
  predicate IsBareWord(name: string) {
    && name != "" && !('0' <= name[0] <= '9')
    && forall i | 0 <= i < |name| ::
         'A' <= name[i] <= 'Z' || 'a' <= name[i] <= 'z' || '0' <= name[i] <= '9' || name[i] == '_' || name[i] == '$'
  }

  predicate HasNone(name: string, lo: char, hi: char) { forall i | 0 <= i < |name| :: !(lo <= name[i] <= hi) }

  lemma FoldIff(name: string)
    ensures Lower(name) == name <==> HasNone(name, 'A', 'Z')
    ensures Upper(name) == name <==> HasNone(name, 'a', 'z')
  {
    forall i | 0 <= i < |name| ensures LowerChar(name[i]) == name[i] <==> !('A' <= name[i] <= 'Z') {}
    forall i | 0 <= i < |name| ensures UpperChar(name[i]) == name[i] <==> !('a' <= name[i] <= 'z') {}
    if HasNone(name, 'A', 'Z') { assert forall i | 0 <= i < |name| :: Lower(name)[i] == name[i]; }
    if HasNone(name, 'a', 'z') { assert forall i | 0 <= i < |name| :: Upper(name)[i] == name[i]; }
  }

  /**
   * A name is left as it is exactly when it is a bare word and no keyword and, for a metadata name, has no letter that PostgreSQL
   * or Oracle would fold; otherwise it is quoted.
   */
  lemma FormatIff(d: Dialect, name: string, metadata: bool)
    ensures FormatIdentifier(d, name, metadata)
            == if IsBareWord(name) && Upper(name) !in d.keywords && (metadata && d.id == Postgres ==> HasNone(name, 'A', 'Z'))
                  && (metadata && d.id == Oracle ==> HasNone(name, 'a', 'z')) then name else QuoteIdentifier(d.id, name)
  {
    hide Upper; hide Lower; hide QuoteIdentifier;
    FoldIff(name);
  }
}
