/** What separates statements, said of the characters of the text. */
module StatementMarks {
  import opened Values
  import opened Lexer
  import opened Slices
  import opened Statements
  import opened TokenGrammar

  /** No newline lies between positions `p` and `o`. */
  predicate SameLine(s: string, p: nat, o: nat) {
    p < |s| && o <= |s| && (forall i | p <= i < o :: s[i] != '\n') && (forall i | o <= i <= p :: s[i] != '\n')
  }

  lemma {:induction false} LineStartIs(s: string, o: nat)
    requires o <= |s|
    ensures var r := LineStart(s, o); (r > 0 ==> s[r - 1] == '\n') && forall i | r <= i < o :: s[i] != '\n'
  {
    if o > 0 && s[o - 1] != '\n' { LineStartIs(s, o - 1); }
  }

  lemma {:induction false} LineEndIs(s: string, o: nat)
    requires o <= |s|
    ensures var r := LineEnd(s, o); (r < |s| ==> s[r] == '\n') && forall i | o <= i < r :: s[i] != '\n'
    decreases |s| - o
  {
    if o < |s| && s[o] != '\n' { LineEndIs(s, o + 1); }
  }

  lemma SameLineIff(s: string, p: nat, o: nat)
    requires o <= |s|
    ensures LineStart(s, o) <= p < LineEnd(s, o) ==> SameLine(s, p, o)
    ensures SameLine(s, p, o) && (p < o ==> o < |s| && s[o] != '\n') ==> LineStart(s, o) <= p < LineEnd(s, o)
  {
    hide LineStart; hide LineEnd;
    LineStartIs(s, o);
    LineEndIs(s, o);
  }

  /** No other token that is neither space nor comment starts on the line of token `k`. */
  ghost predicate AloneOnLine(s: string, ts: seq<Token>, k: nat)
    requires k < |ts|
  {
    forall i | 0 <= i < |ts| && i != k && ts[i].kind !in {Whitespace, Comment, Eof} :: !SameLine(s, ts[i].start, ts[k].start)
  }

  /** A separator: a `;` for every dialect, a `/` alone on its line for Oracle, GO in any case alone on its line for SQL Server. */
  ghost predicate Separates(d: Dialect, s: string, ts: seq<Token>, k: nat)
    requires k < |ts|
  {
    var t := ts[k];
    || (t.kind == Punct && t.value == ";")
    || (d.id == Oracle && t.value == "/" && AloneOnLine(s, ts, k))
    || (d.id == SqlServer && t.kind == Keyword && t.value in {"GO", "Go", "gO", "go"} && AloneOnLine(s, ts, k))
  }

  lemma GoIff(v: string)
    ensures Upper(v) == "GO" <==> v in {"GO", "Go", "gO", "go"}
  {
    if Upper(v) == "GO" {
      assert Upper(v)[0] == 'G' && Upper(v)[1] == 'O';
      assert v == [v[0], v[1]];
    }
    if v in {"GO", "Go", "gO", "go"} { assert |v| == 2 && UpperChar(v[0]) == 'G' && UpperChar(v[1]) == 'O'; assert Upper(v) == ['G', 'O']; }
  }

  lemma AloneIff(s: string, ts: seq<Token>, k: nat)
    requires k < |ts| && ts[k].start < |s| && s[ts[k].start] != '\n'
    ensures AloneOnLine(s, ts, k) <==> LineIsolated(s, ts, k)
  {
    hide LineStart; hide LineEnd; hide SameLine;
    var o := ts[k].start;
    forall i | 0 <= i < |ts|
      ensures SharesLine(s, ts[k], ts[i]) <==> ts[i].kind !in {Whitespace, Comment, Eof} && SameLine(s, ts[i].start, o)
    {
      SameLineIff(s, ts[i].start, o);
    }
  }

  lemma NoNewlineStart(d: Dialect, s: string, k: nat)
    requires k < |Tokenize(d, s)| && Tokenize(d, s)[k].value in {"/", "GO", "Go", "gO", "go"}
    ensures Tokenize(d, s)[k].start < |s| && s[Tokenize(d, s)[k].start] != '\n'
  {
    hide Lex; hide IsToken;
    if k < |Tokenize(d, s)| - 1 {
      TokensStand(d, s, k);
      var t := Tokenize(d, s)[k];
      SpaceSpelled(d, AfterAt(false, s, t.start), s[t.start..], LexemeOf(t));
    }
  }

  lemma SpaceSpelled(d: Dialect, after: bool, s: string, x: Lexeme)
    requires s != "" && IsToken(d, after, s, x)
    ensures s[0] == '\n' ==> x.value != "" && x.value[0] == '\n'
  {
    hide CommentRest; hide IsPlainToken; hide DollarQuoted; hide Tagged;
  }

  /** The finder's separators are these and no other tokens. */
  lemma SeparatorIff(d: Dialect, s: string, k: nat)
    requires k < |Tokenize(d, s)|
    ensures Inside(Tokenize(d, s), s) && (IsSeparator(d, s, Tokenize(d, s), k) <==> Separates(d, s, Tokenize(d, s), k))
  {
    hide LineIsolated; hide AloneOnLine; hide Tokenize; hide Upper;
    var ts := Tokenize(d, s);
    TokensInside(d, s);
    GoIff(ts[k].value);
    if ts[k].value in {"/", "GO", "Go", "gO", "go"} {
      NoNewlineStart(d, s, k);
      AloneIff(s, ts, k);
    }
  }

  /** Every semicolon in the statement found is covered by a literal, a comment or a quoted name. */
  lemma SemicolonsCovered(d: Dialect, s: string, cursor: int, p: nat) returns (k: nat)
    requires Statement(d, s, cursor).start <= p < Statement(d, s, cursor).end && p < |s| && s[p] == ';'
    ensures var ts := Tokenize(d, s); k < |ts| && ts[k].start <= p < ts[k].end <= |s| && Covers(d, s, ts[k])
  {
    hide Tokenize; hide Statement; hide Covers; hide Whole;
    k := SemicolonToken(d, s, p);
    StatementIs(d, s, cursor);
    SeparatorIff(d, s, k);
  }
}
