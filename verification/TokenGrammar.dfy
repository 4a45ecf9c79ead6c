/**
 * Where literals, comments and quoted names end, said of their characters: a body is a sequence of units, and a token goes up to
 * the first closing mark that no unit takes.
 */
module TokenGrammar {
  import opened Values
  import opened Lexer
  import opened LexerCorrect
  import opened Identifiers

  // ----- quotes -----

  /** Characters that are no mark, doubled closing marks and, with escapes, a backslash with the character it hides. */
  predicate Body(escape: bool, close: char, w: string) {
    || w == ""
    || (w[0] != close && !(escape && w[0] == '\\') && Body(escape, close, w[1..]))
    || (|w| >= 2 && w[0] == close && w[1] == close && !(escape && close == '\\') && Body(escape, close, w[2..]))
    || (|w| >= 2 && escape && w[0] == '\\' && Body(escape, close, w[2..]))
  }

  /** After an opening mark: a body, then a closing mark that is not doubled. */
  predicate ClosesAt(escape: bool, close: char, s: string, n: nat) {
    0 < n <= |s| && s[n - 1] == close && Body(escape, close, s[..n - 1]) && !(n < |s| && s[n] == close)
  }

  /** After an opening mark: nothing but a body, perhaps with a last backslash that has nothing to hide. */
  predicate NeverCloses(escape: bool, close: char, s: string) {
    Body(escape, close, s) || (escape && s != "" && s[|s| - 1] == '\\' && Body(escape, close, s[..|s| - 1]))
  }

  /** The literal opened just before `s` takes `n` characters of it. */
  predicate LiteralRest(escape: bool, close: char, s: string, n: nat) {
    ClosesAt(escape, close, s, n) || (n == |s| && NeverCloses(escape, close, s))
  }

  /** How much of `s` its first unit takes; 0 when the first character closes, or cannot start a unit. */
  function Unit(escape: bool, close: char, s: string): (n: nat)
    ensures n <= |s|
  {
    if s == "" then 0
    else if escape && s[0] == '\\' then (if |s| < 2 then 0 else 2)
    else if s[0] == close then (if |s| > 1 && s[1] == close then 2 else 0)
    else 1
  }

  lemma UnitOfPrefix(escape: bool, close: char, s: string, m: nat)
    requires close != '\\' && 0 < m <= |s| && Body(escape, close, s[..m])
    ensures var n := Unit(escape, close, s); 0 < n <= m && Body(escape, close, s[n..][..m - n])
  {
    var w, n := s[..m], Unit(escape, close, s);
    assert w[0] == s[0] && (m > 1 ==> w[1] == s[1]);
    if n > 0 && n <= m { assert w[n..] == s[n..][..m - n]; }
  }

  lemma UnitBefore(escape: bool, close: char, s: string, m: nat)
    requires close != '\\' && var n := Unit(escape, close, s); 0 < n <= m <= |s| && Body(escape, close, s[n..][..m - n])
    ensures Body(escape, close, s[..m])
  {
    var w, n := s[..m], Unit(escape, close, s);
    assert w[0] == s[0] && (m > 1 ==> w[1] == s[1]);
    assert w[n..] == s[n..][..m - n];
  }

  lemma NotAtOnce(escape: bool, close: char, s: string)
    requires close != '\\' && Unit(escape, close, s) > 0
    ensures !ClosesAt(escape, close, s, 1)
  {
  }

  /** Closing marks are found behind the first unit. */
  lemma CloseStep(escape: bool, close: char, s: string, n: nat)
    requires close != '\\' && Unit(escape, close, s) > 0
    ensures ClosesAt(escape, close, s, n)
            <==> n >= Unit(escape, close, s) && ClosesAt(escape, close, s[Unit(escape, close, s)..], n - Unit(escape, close, s))
  {
    hide Body;
    var u := Unit(escape, close, s);
    var r := s[u..];
    NotAtOnce(escape, close, s);
    if ClosesAt(escape, close, s, n) {
      UnitOfPrefix(escape, close, s, n - 1);
      assert r[..n - u - 1] == r[..n - 1 - u];
    }
    if n >= u && ClosesAt(escape, close, r, n - u) { UnitBefore(escape, close, s, n - 1); }
  }

  lemma NeverStep(escape: bool, close: char, s: string)
    requires close != '\\' && Unit(escape, close, s) > 0
    ensures NeverCloses(escape, close, s) <==> NeverCloses(escape, close, s[Unit(escape, close, s)..])
  {
    hide Body;
    var u := Unit(escape, close, s);
    var r := s[u..];
    assert s[..|s|] == s && r[..|s| - u] == r;
    if NeverCloses(escape, close, s) {
      if Body(escape, close, s) { UnitOfPrefix(escape, close, s, |s|); } else { UnitOfLastHidden(escape, close, s); }
    }
    if NeverCloses(escape, close, r) {
      if Body(escape, close, r) {
        UnitBefore(escape, close, s, |s|);
      } else {
        assert r[..|r| - 1] == r[..|s| - 1 - u];
        UnitBefore(escape, close, s, |s| - 1);
      }
    }
  }

  /** A literal's rest goes on behind its first unit. */
  lemma RestStep(escape: bool, close: char, s: string, n: nat)
    requires close != '\\' && Unit(escape, close, s) > 0
    ensures LiteralRest(escape, close, s, n)
            <==> n >= Unit(escape, close, s) && LiteralRest(escape, close, s[Unit(escape, close, s)..], n - Unit(escape, close, s))
  {
    hide ClosesAt; hide NeverCloses;
    CloseStep(escape, close, s, n);
    NeverStep(escape, close, s);
  }

  lemma UnitOfLastHidden(escape: bool, close: char, s: string)
    requires close != '\\' && escape && s != "" && s[|s| - 1] == '\\' && Body(escape, close, s[..|s| - 1])
    requires Unit(escape, close, s) > 0
    ensures var u := Unit(escape, close, s); u < |s| && NeverCloses(escape, close, s[u..])
  {
    hide Body;
    var u, m := Unit(escape, close, s), |s| - 1;
    assert m > 0;
    UnitOfPrefix(escape, close, s, m);
    assert s[u..][..|s[u..]| - 1] == s[u..][..m - u];
  }

  /** Without a first unit the literal ends here: at a closing mark, at a backslash that hides nothing, or at the end of the text. */
  lemma RestHere(escape: bool, close: char, s: string, n: nat)
    requires close != '\\' && Unit(escape, close, s) == 0
    ensures LiteralRest(escape, close, s, n) <==> n == if s == "" then 0 else 1
  {
    if s != "" {
      assert s[..0] == "";
      if n > 1 && n <= |s| { assert s[..n - 1][0] == s[0] && (n > 2 ==> s[..n - 1][1] == s[1]); }
      if |s| > 1 { assert s[..|s| - 1][0] == s[0] && (|s| > 2 ==> s[..|s| - 1][1] == s[1]); }
    }
  }

  /** The lexer ends string literals there and nowhere else. */
  lemma {:induction false} StringEndIff(escape: bool, s: string, n: nat)
    ensures LiteralRest(escape, '\'', s, n) <==> n == StringEnd(escape, s)
    decreases |s|
  {
    hide LiteralRest;
    var u := Unit(escape, '\'', s);
    if u == 0 {
      RestHere(escape, '\'', s, n);
    } else {
      RestStep(escape, '\'', s, n);
      if n >= u { StringEndIff(escape, s[u..], n - u); } else { StringEndIff(escape, s[u..], 0); }
    }
  }

  /** Quoted names end there too, and tell whether they were closed. */
  lemma {:induction false} QuotedEndIff(close: char, s: string, n: nat)
    requires close != '\\'
    ensures LiteralRest(false, close, s, n) <==> n == QuotedEnd(close, s).len
    ensures QuotedEnd(close, s).closed <==> ClosesAt(false, close, s, QuotedEnd(close, s).len)
    decreases |s|
  {
    var u := Unit(false, close, s);
    if u == 0 {
      RestHere(false, close, s, n);
      if s != "" { assert s[..0] == ""; }
    } else {
      RestStep(false, close, s, n);
      if n >= u { QuotedEndIff(close, s[u..], n - u); } else { QuotedEndIff(close, s[u..], 0); }
      CloseStep(false, close, s, QuotedEnd(close, s).len);
    }
  }

  // ----- comments -----

  /** `w`, read inside `depth` open comments, closes the last of them with its last two characters. */
  predicate ClosesAll(nested: bool, w: string, depth: nat)
    decreases |w|
  {
    if w == "" then depth == 0
    else depth > 0 &&
         if nested && "/*" <= w then ClosesAll(nested, w[2..], depth + 1)
         else if "*/" <= w then ClosesAll(nested, w[2..], depth - 1)
         else ClosesAll(nested, w[1..], depth)
  }

  /** The comment opened just before `s` takes `n` characters: up to its closing mark, or all if no prefix closes it. */
  ghost predicate CommentRest(nested: bool, s: string, depth: nat, n: nat) {
    n <= |s| && (ClosesAll(nested, s[..n], depth) || (n == |s| && forall m | 0 <= m <= |s| :: !ClosesAll(nested, s[..m], depth)))
  }

  lemma ClosesStep(nested: bool, s: string, depth: nat, m: nat)
    requires s != "" && depth > 0 && m <= |s|
    ensures ClosesAll(nested, s[..m], depth) <==>
            if nested && "/*" <= s && m >= 2 then ClosesAll(nested, s[2..][..m - 2], depth + 1)
            else if "*/" <= s && !(nested && "/*" <= s) && m >= 2 then ClosesAll(nested, s[2..][..m - 2], depth - 1)
            else m >= 1 && ClosesAll(nested, s[1..][..m - 1], depth)
  {
    PrefixCut("/*", s, m);
    PrefixCut("*/", s, m);
    if m >= 2 { assert s[..m][2..] == s[2..][..m - 2]; }
    if m >= 1 { assert s[..m][1..] == s[1..][..m - 1]; }
  }

  lemma {:induction false} NoCloseAtOnce(nested: bool, s: string, depth: nat)
    requires depth > 0
    ensures !ClosesAll(nested, "", depth) && (s != "" ==> !ClosesAll(nested, s[..1], depth))
  {
    if s != "" { assert |s[..1]| == 1 && s[..1][1..] == ""; }
  }

  lemma {:induction false} BlockEndCloses(nested: bool, s: string, depth: nat)
    ensures CommentRest(nested, s, depth, BlockEnd(nested, s, depth))
    decreases |s|
  {
    hide ClosesAll;
    if s == "" || depth == 0 {
      AtOnce(nested, s, depth);
    } else {
      var two := ("/*" <= s && nested) || "*/" <= s;
      var u, d := if two then 2 else 1, if nested && "/*" <= s then depth + 1 else if "*/" <= s then depth - 1 else depth;
      BlockEndCloses(nested, s[u..], d);
      NoCloseAtOnce(nested, s, depth);
      forall m | 0 <= m <= |s|
        ensures ClosesAll(nested, s[..m], depth) <==> m >= u && ClosesAll(nested, s[u..][..m - u], d)
      {
        ClosesStep(nested, s, depth, m);
        if m == 1 && two { assert s[..1] == s[..m]; }
        if m == 0 { assert s[..m] == ""; }
      }
      if forall m | 0 <= m <= |s[u..]| :: !ClosesAll(nested, s[u..][..m], d) {
        forall m | 0 <= m <= |s| ensures !ClosesAll(nested, s[..m], depth) {
          if m >= u { assert !ClosesAll(nested, s[u..][..m - u], d); }
        }
      }
    }
  }

  lemma AtOnce(nested: bool, s: string, depth: nat)
    requires s == "" || depth == 0
    ensures CommentRest(nested, s, depth, 0)
  {
    assert s[..0] == "";
    forall m | 0 <= m <= |s| && depth > 0 ensures !ClosesAll(nested, s[..m], depth) { assert s[..m] == ""; }
  }

  /** No two prefixes close the same comment. */
  lemma {:induction false} ClosesOnce(nested: bool, s: string, depth: nat, m: nat, n: nat)
    requires m <= |s| && n <= |s| && ClosesAll(nested, s[..m], depth) && ClosesAll(nested, s[..n], depth)
    ensures m == n
    decreases |s|
  {
    if m > 0 && n > 0 {
      ClosesStep(nested, s, depth, m);
      ClosesStep(nested, s, depth, n);
      NoCloseAtOnce(nested, s, depth);
      if nested && "/*" <= s { ClosesOnce(nested, s[2..], depth + 1, m - 2, n - 2); }
      else if "*/" <= s { ClosesOnce(nested, s[2..], depth - 1, m - 2, n - 2); }
      else { ClosesOnce(nested, s[1..], depth, m - 1, n - 1); }
    }
  }

  /** The lexer ends block comments there and nowhere else. */
  lemma BlockEndIff(nested: bool, s: string, depth: nat, n: nat)
    ensures CommentRest(nested, s, depth, n) <==> n == BlockEnd(nested, s, depth)
  {
    hide ClosesAll;
    BlockEndCloses(nested, s, depth);
    var e := BlockEnd(nested, s, depth);
    if CommentRest(nested, s, depth, n) && ClosesAll(nested, s[..n], depth) && ClosesAll(nested, s[..e], depth) {
      ClosesOnce(nested, s, depth, n, e);
    }
  }

  // ----- dollar quotes -----

  /** `$$`, or `$name$` with a name of letters, digits and underscores that starts with no digit. */
  predicate IsTag(t: string) {
    && |t| >= 2 && t[0] == '$' && t[|t| - 1] == '$'
    && (forall i | 0 < i < |t| - 1 :: IsLetter(t[i]) || (i > 1 && IsDigit(t[i])))
  }

  ghost predicate OccursAt(t: string, s: string, i: nat) { i + |t| <= |s| && s[i..i + |t|] == t }

  /** After the opening tag `t`: up to and including its next occurrence, or everything if there is none. */
  ghost predicate DollarRest(t: string, s: string, n: nat) {
    || (|t| <= n <= |s| && OccursAt(t, s, n - |t|) && forall i | 0 <= i < n - |t| :: !OccursAt(t, s, i))
    || (n == |s| && forall i | 0 <= i < |s| :: !OccursAt(t, s, i))
  }

  lemma {:induction false} RunIs(p: char -> bool, s: string, n: nat)
    requires n <= |s| && (forall i | 0 <= i < n :: p(s[i])) && (n < |s| ==> !p(s[n]))
    ensures n == Run(p, s)
  {
    if n > 0 { RunIs(p, s[1..], n - 1); }
  }

  lemma TagRun(s: string, n: nat)
    requires 2 <= n < |s| && s[n] == '$' && forall i | 2 <= i < n :: IsTagChar(s[i])
    ensures n == 2 + Run(IsTagChar, s[2..])
  {
    RunIs(IsTagChar, s[2..], n - 2);
  }

  lemma TagIff(s: string, t: string)
    ensures IsTag(t) && t <= s <==> DollarTag(s) > 0 && t == s[..DollarTag(s)]
  {
    var n := DollarTag(s);
    if n > 2 { forall i | 2 <= i < n - 1 ensures IsTagChar(s[i]) { assert s[2..][i - 2] == s[i]; } }
    if IsTag(t) && t <= s {
      assert forall i | 0 <= i < |t| :: t[i] == s[i];
      if |t| > 2 {
        TagRun(s, |t| - 1);
      }
    }
  }

  lemma OccursTail(t: string, s: string, j: nat)
    requires 0 < j < |s|
    ensures OccursAt(t, s, j) <==> OccursAt(t, s[1..], j - 1)
  {
    if j + |t| <= |s| { assert s[j..j + |t|] == s[1..][j - 1..j - 1 + |t|]; }
  }

  lemma {:induction false} IndexOfTextIs(s: string, t: string)
    requires t != ""
    ensures match IndexOfText(s, t)
            case Some(i) => OccursAt(t, s, i) && forall j | 0 <= j < i :: !OccursAt(t, s, j)
            case None => forall j | 0 <= j < |s| :: !OccursAt(t, s, j)
  {
    if |s| >= |t| {
      assert t <= s <==> s[0..0 + |t|] == t;
      if !(t <= s) {
        IndexOfTextIs(s[1..], t);
        forall j | 0 < j < |s| ensures OccursAt(t, s, j) <==> OccursAt(t, s[1..], j - 1) { OccursTail(t, s, j); }
      }
    }
  }

  lemma DollarLenIs(s: string)
    requires DollarTag(s) > 0
    ensures DollarRest(s[..DollarTag(s)], s[DollarTag(s)..], DollarLen(s) - DollarTag(s))
  {
    IndexOfTextIs(s[DollarTag(s)..], s[..DollarTag(s)]);
  }

  lemma DollarRestOnce(t: string, s: string, m: nat, n: nat)
    requires t != "" && DollarRest(t, s, m) && DollarRest(t, s, n)
    ensures m == n
  {
  }

  // ----- quoted names -----

  /** What opens a quoted name, and what closes it. */
  predicate OpensName(id: DialectId, c: char) {
    if id.SqlServer? then c == '[' else c == '"' || (c == '`' && (id.MySql? || id.MariaDb?))
  }

  function Closing(c: char): char { if c == '[' then ']' else c }

  lemma PairIff(id: DialectId, c: char)
    ensures PairFor(QuotePairs(id), c) == if OpensName(id, c) then Some(Closing(c)) else None
  {
  }

  /** The name is what its characters between the marks say, with closing marks doubled. */
  predicate IsName(close: char, s: string, x: Lexeme)
    requires s != "" && 1 <= x.len <= |s|
  {
    && x.kind == Identifier && LiteralRest(false, close, s[1..], x.len - 1)
    && Double(close, x.value) == s[1..if ClosesAt(false, close, s[1..], x.len - 1) then x.len - 1 else x.len]
  }

  lemma {:induction false} DoubleUndouble(close: char, w: string)
    requires Body(false, close, w)
    ensures Double(close, Undouble(close, w)) == w
  {
    if w != "" {
      var u := if w[0] == close then 2 else 1;
      DoubleUndouble(close, w[u..]);
      DoubleFirst(close, w[0], Undouble(close, w[u..]));
    }
  }

  lemma DoubleFirst(close: char, c: char, v: string)
    ensures Double(close, [c] + v) == (if c == close then [c, c] else [c]) + Double(close, v)
  {
    assert ([c] + v)[1..] == v;
  }

  lemma NameIff(close: char, s: string, x: Lexeme)
    requires close != '\\' && s != "" && 1 <= x.len <= |s|
    ensures IsName(close, s, x) <==> x == QuotedLexeme(close, s)
  {
    hide Undouble; hide Double; hide Body; hide QuotedEnd;
    var q, r := QuotedEnd(close, s[1..]), s[1..];
    QuotedEndIff(close, r, x.len - 1);
    QuotedEndIff(close, r, q.len);
    var w := s[1..1 + (if q.closed then q.len - 1 else q.len)];
    assert r[..|w|] == w && r[..|r|] == r;
    DoubleUndouble(close, w);
    UndoubleDouble(close, x.value);
  }

  // ----- one token -----

  predicate Longest(p: char -> bool, s: string, n: nat) { n <= |s| && (forall i | 0 <= i < n :: p(s[i])) && (n < |s| ==> !p(s[n])) }

  /** What goes on a number: digits, points, exponent letters, and a sign right after one of those letters. */
  predicate NumberGoesOn(s: string, i: nat)
    requires 0 < i < |s|
  {
    s[i] in "0123456789.eE" || (s[i] in "+-" && s[i - 1] in "eE")
  }

  predicate NumberTakes(s: string, n: nat) {
    0 < n <= |s| && (forall i | 0 < i < n :: NumberGoesOn(s, i)) && (n < |s| ==> !NumberGoesOn(s, n))
  }

  ghost predicate Tagged(s: string) { exists n | 0 <= n <= |s| :: IsTag(s[..n]) }

  ghost predicate DollarQuoted(s: string, len: nat) {
    exists n | 0 <= n <= |s| :: IsTag(s[..n]) && n <= len && DollarRest(s[..n], s[n..], len - n)
  }

  predicate Spells(x: Lexeme, kind: Kind, s: string) { x.len <= |s| && x == Lexeme(kind, s[..x.len], x.len) }

  predicate IsWord(d: Dialect, s: string, x: Lexeme) {
    && x.len <= |s| && Longest(IsIdentCont, s, x.len)
    && Spells(x, if Upper(s[..x.len]) in d.keywords then Keyword else Identifier, s)
  }

  /** `x` is the token at the front of `s`, said without any scanner. */
  ghost predicate IsToken(d: Dialect, after: bool, s: string, x: Lexeme)
    requires s != ""
  {
    && 1 <= x.len <= |s|
    && if IsSpace(s[0]) then Spells(x, Whitespace, s) && Longest(IsSpace, s, x.len)
       else if "/*" <= s then Spells(x, Comment, s) && x.len >= 2 && CommentRest(d.id.Postgres?, s[2..], 1, x.len - 2)
       else if "--" <= s then Spells(x, Comment, s) && x.len >= 2 && Longest(NotNewline, s, x.len)
       else if d.id.Postgres? && !after && Tagged(s) then Spells(x, Text, s) && DollarQuoted(s, x.len)
       else IsPlainToken(d, s, x)
  }

  predicate IsPlainToken(d: Dialect, s: string, x: Lexeme)
    requires s != "" && 1 <= x.len <= |s|
  {
    if d.id.Postgres? && s[0] in "eE" && |s| > 1 && s[1] == '\'' then
      Spells(x, Text, s) && x.len >= 2 && LiteralRest(true, '\'', s[2..], x.len - 2)
    else if s[0] == '\'' then Spells(x, Text, s) && LiteralRest(false, '\'', s[1..], x.len - 1)
    else if OpensName(d.id, s[0]) then IsName(Closing(s[0]), s, x)
    else if s[0] in "0123456789" then Spells(x, Number, s) && NumberTakes(s, x.len)
    else if IsIdentStart(s[0]) then IsWord(d, s, x)
    else x.len == 1 && Spells(x, if s[0] in ".,();+-*/<>=!%" then Punct else Identifier, s)
  }

  lemma LongestIff(p: char -> bool, s: string, n: nat)
    requires s != "" && p(s[0])
    ensures Longest(p, s, n) <==> n == 1 + Run(p, s[1..])
  {
    hide Run;
    var r := 1 + Run(p, s[1..]);
    forall i | 1 <= i < r ensures p(s[i]) { assert p(s[1..][i - 1]); }
    if r < |s| { assert !p(s[1..][r - 1]); }
  }

  lemma LineIff(s: string, n: nat)
    requires "--" <= s && n >= 2
    ensures Longest(NotNewline, s, n) <==> n == 2 + Run(NotNewline, s[2..])
  {
    hide Run;
    var r := 2 + Run(NotNewline, s[2..]);
    assert s[0] == "--"[0] && s[1] == "--"[1];
    forall i | 2 <= i < r ensures NotNewline(s[i]) { assert NotNewline(s[2..][i - 2]); }
    if r < |s| { assert !NotNewline(s[2..][r - 2]); }
  }

  lemma {:induction false} NumberRunTakes(s: string, k: nat)
    requires 0 < k <= |s|
    ensures var n := k + NumberRun(s[k - 1], s[k..]);
            && n <= |s| && (forall i | k <= i < n :: NumberGoesOn(s, i)) && (n < |s| ==> !NumberGoesOn(s, n))
    decreases |s| - k
  {
    if k < |s| {
      assert s[k..][0] == s[k] && s[k..][1..] == s[k + 1..];
      if InNumber(s[k - 1], s[k]) { NumberRunTakes(s, k + 1); }
    }
  }

  lemma TaggedIff(s: string)
    ensures Tagged(s) <==> DollarTag(s) > 0
    ensures forall n | 0 <= n <= |s| && IsTag(s[..n]) :: n == DollarTag(s)
  {
    hide IsTag; hide DollarTag;
    forall n | 0 <= n <= |s| ensures IsTag(s[..n]) <==> n == DollarTag(s) > 0 {
      TagIff(s, s[..n]);
      TagIff(s, s[..DollarTag(s)]);
      if n != DollarTag(s) { assert |s[..n]| != |s[..DollarTag(s)]|; }
    }
    if DollarTag(s) > 0 { assert IsTag(s[..DollarTag(s)]); }
  }

  lemma DollarQuotedIff(s: string, len: nat)
    requires DollarTag(s) > 0
    ensures DollarQuoted(s, len) <==> len == DollarLen(s)
  {
    hide IsTag; hide DollarTag; hide DollarRest; hide DollarLen;
    var t := DollarTag(s);
    TaggedIff(s);
    DollarLenIs(s);
    assert IsTag(s[..t]);
    if DollarQuoted(s, len) { DollarRestOnce(s[..t], s[t..], len - t, DollarLen(s) - t); }
  }

  lemma PlainTokenIff(d: Dialect, s: string, x: Lexeme)
    requires s != "" && 1 <= x.len <= |s|
    ensures IsPlainToken(d, s, x) <==> x == FirstPlain(d, s)
  {
    hide LiteralRest; hide QuotedLexeme; hide IsName; hide QuotePairs; hide PairFor; hide Run; hide NumberRun; hide StringEnd; hide Upper;
    hide Longest;
    var c := s[0];
    PairIff(d.id, c);
    if IsEscapeString(d, s) {
      if x.len >= 2 { StringEndIff(true, s[2..], x.len - 2); }
    } else if c == '\'' {
      StringEndIff(false, s[1..], x.len - 1);
    } else if OpensName(d.id, c) {
      NameIff(Closing(c), s, x);
    } else if IsDigit(c) {
      NumberRunTakes(s, 1);
    } else if IsIdentStart(c) {
      LongestIff(IsIdentCont, s, x.len);
      LongestIff(IsIdentCont, s, 1 + Run(IsIdentCont, s[1..]));
    }
  }

  /** The lexer's token is the one the grammar says, and no other lexeme is. */
  lemma TokenIff(d: Dialect, after: bool, s: string, x: Lexeme)
    requires s != ""
    ensures IsToken(d, after, s, x) <==> x == First(d, after, s)
  {
    hide CommentRest; hide BlockEnd; hide DollarQuoted; hide Tagged; hide DollarTag; hide DollarLen; hide IsPlainToken; hide FirstPlain;
    hide IsSpace; hide Run; hide Longest;
    if 1 <= x.len <= |s| {
      if IsSpace(s[0]) {
        LongestIff(IsSpace, s, x.len);
      } else if "/*" <= s {
        if x.len >= 2 { BlockEndIff(d.id.Postgres?, s[2..], 1, x.len - 2); }
      } else if "--" <= s {
        if x.len >= 2 { LineIff(s, x.len); }
      } else {
        TaggedIff(s);
        if d.id.Postgres? && !after && Tagged(s) { DollarQuotedIff(s, x.len); } else { PlainTokenIff(d, s, x); }
      }
    }
  }

  // ----- the token list -----

  function LexemeOf(t: Token): Lexeme
    requires t.start <= t.end
  {
    Lexeme(t.kind, t.value, t.end - t.start)
  }

  /** `t` is a token of `input` where it stands. */
  ghost predicate StandsIn(d: Dialect, after: bool, s: string, base: nat, t: Token) {
    && base <= t.start < t.end <= base + |s|
    && IsToken(d, AfterAt(after, s, t.start - base), s[t.start - base..], LexemeOf(t))
  }

  ghost predicate AreTokens(d: Dialect, after: bool, s: string, base: nat, ts: seq<Token>) {
    Tiles(ts, base, base + |s|) && forall i | 0 <= i < |ts| :: StandsIn(d, after, s, base, ts[i])
  }

  lemma StandsInTail(d: Dialect, after: bool, s: string, base: nat, n: nat, t: Token)
    requires 0 < n <= |s| && base + n <= t.start
    ensures StandsIn(d, after, s, base, t) <==> StandsIn(d, IsIdentCont(s[n - 1]), s[n..], base + n, t)
  {
    hide IsToken;
    if t.start - base <= |s| { assert s[n..][t.start - base - n..] == s[t.start - base..]; }
  }

  lemma StandsFirst(d: Dialect, after: bool, s: string, base: nat, t: Token)
    requires s != "" && t.start == base && t.start < t.end
    ensures StandsIn(d, after, s, base, t) <==> LexemeOf(t) == First(d, after, s)
  {
    hide First;
    assert s[0..] == s;
    TokenIff(d, after, s, LexemeOf(t));
  }

  lemma TilesTail(ts: seq<Token>, lo: nat, hi: nat)
    requires ts != [] && ts[0].start < ts[0].end
    ensures Tiles(ts, lo, hi) <==> ts[0].start == lo && Tiles(ts[1..], ts[0].end, hi)
  {
    var r := ts[1..];
    assert forall i | 0 <= i < |r| :: r[i] == ts[i + 1];
    if Tiles(r, ts[0].end, hi) && ts[0].start == lo {
      forall i | 0 <= i < |ts| ensures ts[i].start < ts[i].end { if i > 0 { assert r[i - 1].start < r[i - 1].end; } }
      forall i | 0 < i < |ts| ensures ts[i].start == ts[i - 1].end { if i > 1 { assert r[i - 1].start == r[i - 2].end; } }
    }
  }

  /** Only one list of tokens covers the text and follows the grammar: the lexer's. */
  lemma {:induction false} TokensIff(d: Dialect, after: bool, s: string, base: nat, ts: seq<Token>)
    ensures AreTokens(d, after, s, base, ts) <==> ts == Lex(d, after, s, base)
    decreases |s|
  {
    hide StandsIn; hide First; hide Tiles; hide Lex;
    LexTiles(d, after, s, base);
    if s == "" {
      LexNothing(d, after, base);
      OnlyNothing(ts, base);
    } else {
      LexStep(d, after, s, base);
      var x := First(d, after, s);
      var t := Token(x.kind, x.value, base, base + x.len);
      if Tiles(ts, base, base + |s|) { SomethingTiles(ts, base, base + |s|); }
      if ts != [] && ts[0].start == base && ts[0].start < ts[0].end {
        StandsFirst(d, after, s, base, ts[0]);
        TilesTail(ts, base, base + |s|);
        if ts[0] == t {
          TokensIff(d, IsIdentCont(s[x.len - 1]), s[x.len..], base + x.len, ts[1..]);
          if Tiles(ts[1..], base + x.len, base + |s|) { TailStands(d, after, s, base, x.len, ts); }
          assert ts == [t] + ts[1..];
        }
      }
    }
  }

  lemma OnlyNothing(ts: seq<Token>, base: nat)
    ensures Tiles(ts, base, base) <==> ts == []
  {
    if Tiles(ts, base, base) && ts != [] { TilesIncreasing(ts, base, base); }
  }

  lemma SomethingTiles(ts: seq<Token>, lo: nat, hi: nat)
    requires lo < hi && Tiles(ts, lo, hi)
    ensures ts != [] && ts[0].start == lo && ts[0].start < ts[0].end
  {
  }

  lemma TailStands(d: Dialect, after: bool, s: string, base: nat, n: nat, ts: seq<Token>)
    requires ts != [] && 0 < n <= |s| && Tiles(ts[1..], base + n, base + |s|)
    ensures (forall i | 0 < i < |ts| :: StandsIn(d, after, s, base, ts[i]))
            <==> forall i | 0 <= i < |ts| - 1 :: StandsIn(d, IsIdentCont(s[n - 1]), s[n..], base + n, ts[1..][i])
  {
    hide StandsIn;
    var r := ts[1..];
    TilesIncreasing(r, base + n, base + |s|);
    forall i | 0 < i < |ts|
      ensures StandsIn(d, after, s, base, ts[i]) <==> StandsIn(d, IsIdentCont(s[n - 1]), s[n..], base + n, r[i - 1])
    {
      StandsInTail(d, after, s, base, n, ts[i]);
    }
    if forall i | 0 <= i < |ts| - 1 :: StandsIn(d, IsIdentCont(s[n - 1]), s[n..], base + n, r[i]) {
      forall i | 0 < i < |ts| ensures StandsIn(d, after, s, base, ts[i]) {
        assert StandsIn(d, IsIdentCont(s[n - 1]), s[n..], base + n, r[i - 1]);
      }
    }
    if forall i | 0 < i < |ts| :: StandsIn(d, after, s, base, ts[i]) {
      forall i | 0 <= i < |ts| - 1 ensures StandsIn(d, IsIdentCont(s[n - 1]), s[n..], base + n, r[i]) {
        assert StandsIn(d, after, s, base, ts[i + 1]);
      }
    }
  }

  // ----- what this means for a text -----

  /** A list of tokens is the lexer's exactly when it covers the text, every token is what the grammar says, and the end marker is last. */
  lemma TokenizeIff(d: Dialect, input: string, ts: seq<Token>)
    ensures ts == Tokenize(d, input)
            <==> ts != [] && ts[|ts| - 1] == Token(Eof, "", |input|, |input|) && AreTokens(d, false, input, 0, ts[..|ts| - 1])
  {
    hide AreTokens; hide Lex;
    var eof := Token(Eof, "", |input|, |input|);
    var own := Lex(d, false, input, 0);
    assert (own + [eof])[..|own|] == own;
    if ts != [] {
      TokensIff(d, false, input, 0, ts[..|ts| - 1]);
      assert ts == ts[..|ts| - 1] + [ts[|ts| - 1]];
    }
  }

  /** Every token but the end marker stands in the text; no two of them overlap. */
  lemma TokensStand(d: Dialect, input: string, k: nat)
    requires k < |Tokenize(d, input)| - 1
    ensures var ts := Tokenize(d, input);
            StandsIn(d, false, input, 0, ts[k]) && forall i | 0 <= i < |ts| && i != k :: ts[i].end <= ts[k].start || ts[k].end <= ts[i].start
  {
    hide StandsIn; hide Lex;
    var ts := Tokenize(d, input);
    var own := Lex(d, false, input, 0);
    TokensIff(d, false, input, 0, own);
    assert own[k] == ts[k];
    TilesIncreasing(own, 0, |input|);
  }

  lemma NoCommentMark(s: string)
    requires s != "" && s[0] != '/' && s[0] != '-'
    ensures !("/*" <= s) && !("--" <= s)
  {
  }

  /**
   * A token that starts at a quote is one string literal: it ends with the first later quote that is not paired with a quote right
   * after it, or with the text. No other token lies in it.
   */
  lemma LiteralToken(d: Dialect, input: string, k: nat)
    requires k < |Tokenize(d, input)| - 1
    ensures var t := Tokenize(d, input)[k];
            && t.start < t.end <= |input|
            && (input[t.start] == '\'' ==> t.kind == Text && LiteralRest(false, '\'', input[t.start + 1..], t.end - t.start - 1))
            && (d.id.Postgres? && input[t.start] in "eE" && t.start + 1 < |input| && input[t.start + 1] == '\'' ==>
                  t.kind == Text && t.end >= t.start + 2 && LiteralRest(true, '\'', input[t.start + 2..], t.end - t.start - 2))
    ensures var ts := Tokenize(d, input); forall i | 0 <= i < |ts| && i != k :: ts[i].end <= ts[k].start || ts[k].end <= ts[i].start
  {
    hide LiteralRest; hide IsName; hide CommentRest; hide DollarQuoted; hide IsWord; hide Longest; hide NumberTakes; hide Lex;
    TokensStand(d, input, k);
    var t := Tokenize(d, input)[k];
    var s := input[t.start..];
    if s[0] != '$' && s[0] != '/' && s[0] != '-' {
      NotTagged(s);
      NoCommentMark(s);
    }
    if t.start + 2 <= |input| { assert s[1..] == input[t.start + 1..] && s[2..] == input[t.start + 2..]; }
    else { assert s[1..] == input[t.start + 1..]; }
  }

  lemma NotTagged(s: string)
    requires s != "" && s[0] != '$'
    ensures !Tagged(s)
  {
    forall n | 0 <= n <= |s| ensures !IsTag(s[..n]) { if n > 0 { assert s[..n][0] == s[0]; } }
  }

  /** A token that starts with a comment mark is one comment: to its closing mark, to the end of its line, or to the end of the text. */
  lemma CommentToken(d: Dialect, input: string, k: nat)
    requires k < |Tokenize(d, input)| - 1
    ensures var t := Tokenize(d, input)[k];
            && t.start < t.end <= |input|
            && ("/*" <= input[t.start..] ==>
                  t.kind == Comment && t.end >= t.start + 2 && CommentRest(d.id.Postgres?, input[t.start + 2..], 1, t.end - t.start - 2))
            && ("--" <= input[t.start..] ==>
                  t.kind == Comment && (forall i | t.start <= i < t.end :: input[i] != '\n') && (t.end < |input| ==> input[t.end] == '\n'))
  {
    hide CommentRest; hide IsPlainToken; hide DollarQuoted; hide Tagged; hide Lex;
    TokensStand(d, input, k);
    var t := Tokenize(d, input)[k];
    var s, n := input[t.start..], t.end - t.start;
    if "/*" <= s {
      assert s[0] == "/*"[0];
      assert s[2..] == input[t.start + 2..];
    } else if "--" <= s {
      assert s[0] == "--"[0] && s[1] == "--"[1];
      assert Longest(NotNewline, s, n);
      forall i | t.start <= i < t.end ensures input[i] != '\n' { assert NotNewline(s[i - t.start]); }
    }
  }

  /** In PostgreSQL a token that starts with a tag is one string: to the next occurrence of that tag, or to the end of the text. */
  lemma DollarToken(d: Dialect, input: string, k: nat, n: nat)
    requires k < |Tokenize(d, input)| - 1 && d.id.Postgres?
    requires var p := Tokenize(d, input)[k].start; p + n <= |input| && IsTag(input[p..p + n]) && (p > 0 ==> !IsIdentCont(input[p - 1]))
    ensures var t := Tokenize(d, input)[k];
            && t.kind == Text && t.start + n <= t.end <= |input|
            && DollarRest(input[t.start..t.start + n], input[t.start + n..], t.end - t.start - n)
  {
    hide IsToken; hide DollarRest; hide Lex; hide IsTag;
    TokensStand(d, input, k);
    var t := Tokenize(d, input)[k];
    var s := input[t.start..];
    assert s[..n] == input[t.start..t.start + n] && s[n..] == input[t.start + n..];
    TagStart(s[..n]);
    DollarFirst(d, s, LexemeOf(t), n);
  }

  lemma DollarFirst(d: Dialect, s: string, x: Lexeme, n: nat)
    requires d.id.Postgres? && s != "" && IsToken(d, false, s, x) && n <= |s| && IsTag(s[..n])
    ensures x.kind == Text && n <= x.len <= |s| && DollarRest(s[..n], s[n..], x.len - n)
  {
    hide DollarRest; hide IsPlainToken; hide IsTag;
    TagStart(s[..n]);
    assert s[0] == s[..n][0] == '$' && Tagged(s) && !IsSpace(s[0]);
    NoCommentMark(s);
    TaggedIff(s);
  }

  lemma TagStart(t: string)
    requires IsTag(t)
    ensures |t| >= 2 && t[0] == '$'
  {
  }

  lemma {:induction false} TilesCover(ts: seq<Token>, lo: nat, hi: nat, p: nat) returns (k: nat)
    requires Tiles(ts, lo, hi) && lo <= p < hi
    ensures k < |ts| && ts[k].start <= p < ts[k].end
    decreases |ts|
  {
    if p < ts[0].end {
      k := 0;
    } else {
      TilesTail(ts, lo, hi);
      k := TilesCover(ts[1..], ts[0].end, hi, p);
      k := k + 1;
    }
  }

  /** What may hold characters that mean nothing: string literals, comments and quoted names. */
  predicate Covers(d: Dialect, input: string, t: Token)
    requires t.start < |input|
  {
    t.kind == Text || t.kind == Comment || OpensName(d.id, input[t.start])
  }

  /** A semicolon is a token of its own wherever no literal, comment or quoted name covers it. */
  lemma SemicolonToken(d: Dialect, input: string, p: nat) returns (k: nat)
    requires p < |input| && input[p] == ';'
    ensures var ts := Tokenize(d, input);
            && k < |ts| - 1 && ts[k].start <= p < ts[k].end <= |input|
            && (Covers(d, input, ts[k]) || ts[k] == Token(Punct, ";", p, p + 1))
  {
    hide Lex; hide StandsIn; hide Covers;
    var own := Lex(d, false, input, 0);
    TokensIff(d, false, input, 0, own);
    TilesIncreasing(own, 0, |input|);
    k := TilesCover(own, 0, |input|, p);
    assert Tokenize(d, input)[k] == own[k];
    SemicolonIn(d, false, input, own[k], p);
  }

  lemma SemicolonIn(d: Dialect, after: bool, s: string, t: Token, p: nat)
    requires StandsIn(d, after, s, 0, t) && t.start <= p < t.end && p < |s| && s[p] == ';'
    ensures Covers(d, s, t) || t == Token(Punct, ";", p, p + 1)
  {
    hide IsToken;
    var r := s[t.start..];
    if p == t.start { SemicolonFirst(d, AfterAt(after, s, t.start), r, LexemeOf(t)); }
    else { SemicolonInside(d, AfterAt(after, s, t.start), r, LexemeOf(t), p - t.start); }
  }

  lemma SemicolonFirst(d: Dialect, after: bool, s: string, x: Lexeme)
    requires s != "" && s[0] == ';' && IsToken(d, after, s, x)
    ensures x == Lexeme(Punct, ";", 1)
  {
    hide LiteralRest; hide IsName; hide CommentRest; hide DollarQuoted; hide Tagged; hide Longest; hide NumberTakes; hide IsWord;
    NoCommentMark(s);
    NotTagged(s);
    assert ".,();+-*/<>=!%"[4] == ';' && s[..1] == ";";
  }

  lemma SemicolonInside(d: Dialect, after: bool, s: string, x: Lexeme, i: nat)
    requires s != "" && 0 < i < x.len && IsToken(d, after, s, x) && i < |s| && s[i] == ';'
    ensures x.kind == Text || x.kind == Comment || OpensName(d.id, s[0])
  {
    hide LiteralRest; hide IsName; hide CommentRest; hide DollarQuoted; hide Tagged;
    assert !IsSpace(s[i]) && !IsIdentCont(s[i]) && !NumberGoesOn(s, i);
  }
}
