/**
 * The slicing part of context resolution: the statement under the cursor, then the innermost subquery of it that holds the
 * cursor, lexed anew at every level.
 */
module ContextSlices {
  import opened Values
  import opened Lexer
  import opened LexerCorrect
  import opened Slices
  import opened Statements
  import T = Tokenizer

  function Significant(ts: seq<Token>): seq<Token> {
    if ts == [] then [] else (if IsSignificant(ts[0]) then [ts[0]] else []) + Significant(ts[1..])
  }

  predicate IsOpen(t: Token) { t.kind.Punct? && t.value == "(" }

  predicate IsClose(t: Token) { t.kind.Punct? && t.value == ")" }

  /** The stack of open parentheses, as token indices, after token `k`. */
  function Track(sig: seq<Token>, k: nat, stack: seq<nat>): seq<nat>
    requires k < |sig|
  {
    if IsOpen(sig[k]) then stack + [k] else if IsClose(sig[k]) && stack != [] then stack[..|stack| - 1] else stack
  }

  /** The same when the first token at or after `c` is met. */
  function OpenParens(sig: seq<Token>, k: nat, c: int, stack: seq<nat>): seq<nat>
    requires k <= |sig|
    decreases |sig| - k
  {
    if k == |sig| || sig[k].start >= c then stack else OpenParens(sig, k + 1, c, Track(sig, k, stack))
  }

  predicate StartsQuery(sig: seq<Token>, k: nat) {
    k < |sig| && sig[k].kind.Keyword? && (Upper(sig[k].value) == "SELECT" || Upper(sig[k].value) == "WITH")
  }

  /** The innermost open parenthesis that starts a query. */
  function ActiveOpen(sig: seq<Token>, stack: seq<nat>): (r: Option<nat>)
    ensures r.Some? ==> r.value in stack && StartsQuery(sig, r.value + 1)
  {
    if stack == [] then None
    else if StartsQuery(sig, stack[|stack| - 1] + 1) then Some(stack[|stack| - 1])
    else ActiveOpen(sig, stack[..|stack| - 1])
  }

  /** Where the parenthesis that is `depth` levels up closes, `end` if it does not. */
  function CloseOf(sig: seq<Token>, k: nat, depth: nat, end: nat): nat
    requires k <= |sig|
    decreases |sig| - k
  {
    if k == |sig| then end
    else if IsOpen(sig[k]) then CloseOf(sig, k + 1, depth + 1, end)
    else if IsClose(sig[k]) then (if depth <= 1 then sig[k].start else CloseOf(sig, k + 1, depth - 1, end))
    else CloseOf(sig, k + 1, depth, end)
  }

  /** The inside of the subquery of `text` that holds position `c`. */
  function Subquery(d: Dialect, text: string, c: int): Option<Span> {
    var sig := Significant(Tokenize(d, text));
    var open := ActiveOpen(sig, OpenParens(sig, 0, c, []));
    if open.None? || open.value >= |sig| then None else Some(Span(sig[open.value].end, CloseOf(sig, open.value, 0, |text|)))
  }

  // ----- tokens of the slice -----

  ghost predicate AllFrom(sig: seq<Token>, ts: seq<Token>) { forall i | 0 <= i < |sig| :: sig[i] in ts }

  lemma {:induction false} SignificantFrom(ts: seq<Token>)
    ensures AllFrom(Significant(ts), ts)
  {
    if ts != [] {
      SignificantFrom(ts[1..]);
      assert forall t :: t in ts[1..] ==> t in ts;
    }
  }

  ghost predicate LaterThan(ts: seq<Token>, p: nat) { forall i | 0 <= i < |ts| :: p <= ts[i].start }

  lemma {:induction false} SignificantLater(ts: seq<Token>, p: nat)
    requires LaterThan(ts, p)
    ensures LaterThan(Significant(ts), p)
  {
    if ts != [] { SignificantLater(ts[1..], p); }
  }

  lemma OrderTail(t: Token, rest: seq<Token>)
    requires InOrder([t] + rest)
    ensures t.start <= t.end && LaterThan(rest, t.end) && InOrder(rest)
  {
    var ts := [t] + rest;
    assert ts[0] == t;
    forall i | 0 <= i < |rest| ensures rest[i].start <= rest[i].end && t.end <= rest[i].start { assert rest[i] == ts[i + 1]; }
    forall i, j | 0 <= i < j < |rest| ensures rest[i].end <= rest[j].start { assert rest[i] == ts[i + 1] && rest[j] == ts[j + 1]; }
  }

  lemma OrderCons(t: Token, rest: seq<Token>)
    requires t.start <= t.end && LaterThan(rest, t.end) && InOrder(rest)
    ensures InOrder([t] + rest)
  {
    var ts := [t] + rest;
    assert ts[0] == t && forall i | 0 < i < |ts| :: ts[i] == rest[i - 1];
    forall i | 0 <= i < |ts| ensures ts[i].start <= ts[i].end {
      if i > 0 { assert rest[i - 1].start <= rest[i - 1].end; }
    }
    forall i, j | 0 <= i < j < |ts| ensures ts[i].end <= ts[j].start {
      if i > 0 { assert rest[i - 1].end <= rest[j - 1].start; } else { assert t.end <= rest[j - 1].start; }
    }
  }

  lemma {:induction false} SignificantInOrder(ts: seq<Token>)
    requires InOrder(ts)
    ensures InOrder(Significant(ts))
  {
    hide InOrder; hide LaterThan;
    if ts == [] {
      NothingInOrder();
    } else {
      assert ts == [ts[0]] + ts[1..];
      OrderTail(ts[0], ts[1..]);
      SignificantInOrder(ts[1..]);
      SignificantLater(ts[1..], ts[0].end);
      OrderCons(ts[0], Significant(ts[1..]));
      assert [] + Significant(ts[1..]) == Significant(ts[1..]);
    }
  }

  lemma NothingInOrder()
    ensures InOrder([])
  {
  }

  /** A stack of earlier open parentheses, outermost first. */
  ghost predicate GoodStack(sig: seq<Token>, stack: seq<nat>, k: nat, c: int) {
    && (forall i | 0 <= i < |stack| :: stack[i] < k <= |sig| && sig[stack[i]].start < c)
    && (forall i, j | 0 <= i < j < |stack| :: stack[i] < stack[j])
  }

  lemma TrackKeepsGood(sig: seq<Token>, k: nat, stack: seq<nat>, c: int)
    requires k < |sig| && sig[k].start < c && GoodStack(sig, stack, k, c)
    ensures GoodStack(sig, Track(sig, k, stack), k + 1, c)
  {
  }

  lemma {:induction false} OpenParensGood(sig: seq<Token>, k: nat, c: int, stack: seq<nat>)
    requires k <= |sig| && GoodStack(sig, stack, k, c)
    ensures GoodStack(sig, OpenParens(sig, k, c, stack), |sig|, c)
    decreases |sig| - k
  {
    hide Track;
    if k < |sig| && sig[k].start < c {
      TrackKeepsGood(sig, k, stack, c);
      OpenParensGood(sig, k + 1, c, Track(sig, k, stack));
    }
  }

  lemma {:induction false} CloseIs(sig: seq<Token>, k: nat, depth: nat, end: nat)
    requires k <= |sig|
    ensures CloseOf(sig, k, depth, end) == end || exists i | k <= i < |sig| :: IsClose(sig[i]) && sig[i].start == CloseOf(sig, k, depth, end)
    decreases |sig| - k
  {
    hide IsOpen; hide IsClose;
    if k < |sig| {
      if IsOpen(sig[k]) { CloseIs(sig, k + 1, depth + 1, end); }
      else if IsClose(sig[k]) { if depth > 1 { CloseIs(sig, k + 1, depth - 1, end); } }
      else { CloseIs(sig, k + 1, depth, end); }
    }
  }

  /** What is on the stack was there before, or is a later token. */
  lemma {:induction false} StackOrigin(sig: seq<Token>, k: nat, c: int, stack: seq<nat>, id: nat)
    requires k <= |sig| && id in OpenParens(sig, k, c, stack)
    ensures id in stack || (k <= id < |sig| && IsOpen(sig[id]))
    decreases |sig| - k
  {
    hide IsOpen; hide IsClose;
    if k < |sig| && sig[k].start < c { StackOrigin(sig, k + 1, c, Track(sig, k, stack), id); }
  }

  /** After popping, the popped parenthesis never comes back. */
  lemma PoppedForGood(sig: seq<Token>, k: nat, c: int, stack: seq<nat>)
    requires k <= |sig| && GoodStack(sig, stack, k, c) && stack != []
    ensures stack[|stack| - 1] !in OpenParens(sig, k, c, stack[..|stack| - 1])
  {
    var id, popped := stack[|stack| - 1], stack[..|stack| - 1];
    if id in OpenParens(sig, k, c, popped) {
      StackOrigin(sig, k, c, popped, id);
      assert false;
    }
  }

  lemma StartsGrow(sig: seq<Token>, k: nat, c: int, depth: nat, end: nat)
    requires k <= |sig| && InOrder(sig) && end >= c && (k < |sig| ==> sig[k].start >= c)
    ensures CloseOf(sig, k, depth, end) >= c
  {
    hide CloseOf; hide IsClose;
    CloseIs(sig, k, depth, end);
    if k < |sig| { assert forall i | k <= i < |sig| :: sig[i].start >= sig[k].start; }
  }

  lemma TrackShape(sig: seq<Token>, k: nat, stack: seq<nat>, j: nat)
    requires k < |sig| && j < |stack|
    ensures var next := Track(sig, k, stack);
            && |next| == (if IsOpen(sig[k]) then |stack| + 1 else if IsClose(sig[k]) then |stack| - 1 else |stack|)
            && (j < |next| ==> next[j] == stack[j])
            && (j == |next| ==> next == stack[..|stack| - 1])
  {
    hide IsOpen; hide IsClose;
  }

  /** A parenthesis still on the stack at `c` closes at or after `c`. */
  lemma {:induction false} ClosesLater(sig: seq<Token>, k: nat, c: int, stack: seq<nat>, j: nat, end: nat)
    requires k <= |sig| && GoodStack(sig, stack, k, c) && InOrder(sig) && j < |stack|
    requires stack[j] in OpenParens(sig, k, c, stack) && end >= c
    ensures CloseOf(sig, k, |stack| - j, end) >= c
    decreases |sig| - k
  {
    hide GoodStack; hide InOrder; hide IsOpen; hide IsClose; hide Track;
    if k < |sig| && sig[k].start < c {
      TrackKeepsGood(sig, k, stack, c);
      TrackShape(sig, k, stack, j);
      var next := Track(sig, k, stack);
      if j == |next| {
        TrackedStack(sig, stack, k, c);
        PoppedForGood(sig, k + 1, c, stack);
      } else {
        ClosesLater(sig, k + 1, c, next, j, end);
      }
    } else {
      StartsGrow(sig, k, c, |stack| - j, end);
    }
  }

  lemma TrackedStack(sig: seq<Token>, stack: seq<nat>, k: nat, c: int)
    requires GoodStack(sig, stack, k, c) && k < |sig|
    ensures GoodStack(sig, stack, k + 1, c)
  {
  }

  lemma NotYetPushed(sig: seq<Token>, stack: seq<nat>, k: nat, c: int)
    requires GoodStack(sig, stack, k, c)
    ensures forall id | k <= id :: id !in stack
  {
  }

  /** The same, counted from the parenthesis itself, just before it is pushed. */
  lemma OpensHere(sig: seq<Token>, k: nat, c: int, stack: seq<nat>, end: nat)
    requires k < |sig| && sig[k].start < c && GoodStack(sig, stack, k, c) && InOrder(sig) && end >= c
    requires k in OpenParens(sig, k, c, stack) && IsOpen(sig[k])
    ensures CloseOf(sig, k, 0, end) >= c
  {
    hide GoodStack; hide InOrder; hide IsOpen; hide IsClose;
    TrackKeepsGood(sig, k, stack, c);
    var next := stack + [k];
    assert next[|stack|] == k;
    ClosesLater(sig, k + 1, c, next, |stack|, end);
  }

  lemma {:induction false} ActiveClosesLater(sig: seq<Token>, k: nat, c: int, stack: seq<nat>, open: nat, end: nat)
    requires k <= open < |sig| && GoodStack(sig, stack, k, c) && InOrder(sig) && open in OpenParens(sig, k, c, stack) && end >= c
    ensures IsOpen(sig[open]) && CloseOf(sig, open, 0, end) >= c
    decreases |sig| - k
  {
    hide GoodStack; hide InOrder; hide IsOpen; hide IsClose; hide CloseOf; hide Track;
    NotYetPushed(sig, stack, k, c);
    StackOrigin(sig, k, c, stack, open);
    if sig[k].start < c {
      if k == open {
        OpensHere(sig, k, c, stack, end);
      } else {
        TrackKeepsGood(sig, k, stack, c);
        ActiveClosesLater(sig, k + 1, c, Track(sig, k, stack), open, end);
      }
    }
  }

  lemma CloseAfterOpen(sig: seq<Token>, open: nat, end: nat)
    requires open < |sig| && IsOpen(sig[open]) && InOrder(sig) && sig[open].end <= end
    ensures sig[open].end <= CloseOf(sig, open, 0, end)
  {
    hide IsOpen; hide IsClose;
    CloseIs(sig, open + 1, 1, end);
  }

  /** The significant tokens are tokens of the text, so their edges are boundaries of it. */
  lemma SignificantTokens(d: Dialect, text: string)
    ensures var sig := Significant(Tokenize(d, text));
            InOrder(sig) && forall i | 0 <= i < |sig| :: sig[i].end <= |text| && IsBoundary(d, false, text, sig[i].start)
                                                         && IsBoundary(d, false, text, sig[i].end)
  {
    hide IsBoundary; hide Tokenize; hide InOrder;
    var ts := Tokenize(d, text);
    var sig := Significant(ts);
    TokensInOrder(d, text);
    SignificantInOrder(ts);
    SignificantFrom(ts);
    forall i | 0 <= i < |sig| ensures sig[i].end <= |text| && IsBoundary(d, false, text, sig[i].start) && IsBoundary(d, false, text, sig[i].end) {
      var j :| 0 <= j < |ts| && ts[j] == sig[i];
      TokenBoundaries(d, text, j);
    }
  }

  lemma OpenTokenText(d: Dialect, text: string, t: Token)
    requires t in Tokenize(d, text) && IsOpen(t)
    ensures t.end == t.start + 1 <= |text| && text[t.start] == '('
  {
    hide Lex;
    var ts := Lex(d, false, text, 0);
    PunctText(d, false, text, 0);
    assert t in ts;
    var i :| 0 <= i < |ts| && ts[i] == t;
  }

  /**
   * The slice a subquery is resolved in: it follows its parenthesis, its tokens are the text's tokens there, and it holds
   * the cursor.
   */
  lemma SubqueryIs(d: Dialect, text: string, c: int)
    requires Subquery(d, text, c).Some?
    ensures var q := Subquery(d, text, c).value;
            && Whole(d, text, q) && 0 < q.start && text[q.start - 1] == '('
            && q.start <= c && (c <= |text| ==> c <= q.end)
  {
    hide IsBoundary; hide Tokenize; hide Significant; hide InOrder; hide GoodStack; hide CloseOf; hide IsOpen; hide IsClose; hide OpenParens;
    var sig := Significant(Tokenize(d, text));
    SignificantTokens(d, text);
    SignificantFrom(Tokenize(d, text));
    EmptyStackGood(sig, c);
    var stack := OpenParens(sig, 0, c, []);
    var open := ActiveOpen(sig, stack).value;
    StackOrigin(sig, 0, c, [], open);
    OpenParensGood(sig, 0, c, []);
    StackBefore(sig, stack, |sig|, c, open);
    OpenTokenText(d, text, sig[open]);
    CloseAfterOpen(sig, open, |text|);
    CloseIsBoundary(d, text, sig, open, 0);
    if c <= |text| { ActiveClosesLater(sig, 0, c, [], open, |text|); }
    assert !IsIdentCont('(');
  }

  lemma EmptyStackGood(sig: seq<Token>, c: int)
    ensures GoodStack(sig, [], 0, c)
  {
  }

  lemma StackBefore(sig: seq<Token>, stack: seq<nat>, k: nat, c: int, id: nat)
    requires GoodStack(sig, stack, k, c) && id in stack
    ensures id < |sig| && sig[id].start < c
  {
    var i :| 0 <= i < |stack| && stack[i] == id;
  }

  lemma CloseIsBoundary(d: Dialect, text: string, sig: seq<Token>, k: nat, depth: nat)
    requires k <= |sig| && forall i | 0 <= i < |sig| :: sig[i].end <= |text| && IsBoundary(d, false, text, sig[i].start)
    requires InOrder(sig)
    ensures CloseOf(sig, k, depth, |text|) <= |text| && IsBoundary(d, false, text, CloseOf(sig, k, depth, |text|))
  {
    hide IsBoundary; hide IsClose; hide CloseOf;
    CloseIs(sig, k, depth, |text|);
    InputEndIsBoundary(d, text);
  }

  // ----- the recursion -----

  lemma StatementWhole(d: Dialect, s: string, cursor: int)
    ensures var r := Statement(d, s, cursor); r.start <= r.end <= |s| && Whole(d, s, r)
  {
    hide Statement; hide Whole; hide Splits; hide Tokenize; hide IsSeparator; hide Clamp;
    StatementIs(d, s, cursor);
  }

  lemma SubqueryWhole(d: Dialect, text: string, c: int)
    ensures Subquery(d, text, c).Some? ==> var q := Subquery(d, text, c).value; 0 < q.start <= q.end <= |text| && Whole(d, text, q)
  {
    hide Subquery; hide IsBoundary;
    if Subquery(d, text, c).Some? { SubqueryIs(d, text, c); }
  }

  function Offset(p: Span, k: nat): Span { Span(k + p.start, k + p.end) }

  /** The slice the clause at the cursor is resolved in. */
  function ActiveSpan(d: Dialect, s: string, cursor: int): Span
    decreases |s|
  {
    hide Statement; hide Subquery; hide Whole;
    StatementWhole(d, s, cursor);
    var st := Statement(d, s, cursor);
    var text := s[st.start..st.end];
    SubqueryWhole(d, text, cursor - st.start);
    var q := Subquery(d, text, cursor - st.start);
    if q.None? then st
    else Offset(ActiveSpan(d, text[q.value.start..q.value.end], cursor - st.start - q.value.start), st.start + q.value.start)
  }

  lemma NestTwice(d: Dialect, s: string, st: Span, q: Span, inner: Span)
    requires Whole(d, s, st) && Whole(d, s[st.start..st.end], q) && Whole(d, s[st.start..st.end][q.start..q.end], inner)
    ensures Whole(d, s, Offset(inner, st.start + q.start))
  {
    hide IsBoundary; hide AfterAt;
    WholeNested(d, s[st.start..st.end], q, inner);
    WholeNested(d, s, st, Span(q.start + inner.start, q.start + inner.end));
  }

  /**
   * However deep the recursion goes, lexing the slice on its own gives the input's own tokens there, moved to the slice's
   * position.
   */
  lemma {:induction false} ActiveSpanIsWhole(d: Dialect, s: string, cursor: int)
    ensures Whole(d, s, ActiveSpan(d, s, cursor))
    decreases |s|
  {
    hide Whole; hide Statement; hide Subquery; hide Offset;
    StatementWhole(d, s, cursor);
    var st := Statement(d, s, cursor);
    var text := s[st.start..st.end];
    var q := Subquery(d, text, cursor - st.start);
    if q.Some? {
      SubqueryWhole(d, text, cursor - st.start);
      var sub := text[q.value.start..q.value.end];
      ActiveSpanIsWhole(d, sub, cursor - st.start - q.value.start);
      NestTwice(d, s, st, q.value, ActiveSpan(d, sub, cursor - st.start - q.value.start));
    }
  }

  /** The tokens of slice `p`, moved to its place, with the input's tokens before and after, are the input's token list. */
  ghost predicate TokensAgree(d: Dialect, s: string, p: Span) {
    && p.start <= p.end <= |s|
    && NotBefore(Lex(d, false, s[p.start..p.end], 0), -(p.start as int))
    && Tokenize(d, s)
       == Lex(d, false, s[..p.start], 0) + Shift(Lex(d, false, s[p.start..p.end], 0), p.start)
          + (Lex(d, AfterAt(false, s, p.end), s[p.end..], p.end) + [Token(Eof, "", |s|, |s|)])
  }

  lemma WholeTokensAgree(d: Dialect, s: string, p: Span)
    requires Whole(d, s, p)
    ensures TokensAgree(d, s, p)
  {
    hide Lex; hide Shift; hide IsBoundary;
    WholeAgrees(d, s, p);
    LexShift(d, false, s[p.start..p.end], 0, p.start);
    Regrouped(Lex(d, false, s[..p.start], 0), Lex(d, false, s[p.start..p.end], p.start), Lex(d, AfterAt(false, s, p.end), s[p.end..], p.end),
              [Token(Eof, "", |s|, |s|)]);
  }

  lemma Regrouped(a: seq<Token>, b: seq<Token>, c: seq<Token>, e: seq<Token>)
    ensures (a + b + c) + e == a + b + (c + e)
  {
  }

  /** The statement under the cursor and the slice resolved in it see exactly what the full token list holds there. */
  lemma ResolvedTokensAgree(d: Dialect, s: string, cursor: int)
    ensures TokensAgree(d, s, Statement(d, s, cursor)) && TokensAgree(d, s, ActiveSpan(d, s, cursor))
  {
    hide *;
    StatementWhole(d, s, cursor);
    ActiveSpanIsWhole(d, s, cursor);
    WholeTokensAgree(d, s, Statement(d, s, cursor));
    WholeTokensAgree(d, s, ActiveSpan(d, s, cursor));
  }
}
