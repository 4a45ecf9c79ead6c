/** Which subquery the cursor is in: the innermost parenthesis open there that a query follows, up to where it closes. */
module SubqueryChoice {
  import opened Values
  import opened Lexer
  import opened Slices
  import opened Statements
  import opened ContextSlices

  /** What a token does to the number of open parentheses. */
  function Turn(t: Token): int {
    if t.kind != Punct then 0 else if t.value == "(" then 1 else if t.value == ")" then -1 else 0
  }

  /** Parentheses opened less those closed by the tokens from `i` up to `m`. */
  function Level(sig: seq<Token>, i: nat, m: nat): int
    requires m <= |sig|
    decreases m
  {
    if m <= i then 0 else Level(sig, i, m - 1) + Turn(sig[m - 1])
  }

  /** The parenthesis at `i` is open after `m` tokens: it never closed in between. */
  ghost predicate OpenAt(sig: seq<Token>, i: nat, m: nat) {
    i < m <= |sig| && sig[i].kind == Punct && sig[i].value == "(" && forall j | i < j <= m :: Level(sig, i, j) >= 1
  }

  /** The token at `m` closes the parenthesis at `i`. */
  ghost predicate ClosesAt(sig: seq<Token>, i: nat, m: nat) {
    i < m < |sig| && Level(sig, i, m + 1) == 0 && forall j | i < j <= m :: Level(sig, i, j) >= 1
  }

  /** A query starts at token `k`. */
  predicate IsQueryWord(sig: seq<Token>, k: nat) {
    k < |sig| && sig[k].kind == Keyword && Upper(sig[k].value) in {"SELECT", "WITH"}
  }

  /** How many tokens start before the cursor. */
  function Before(sig: seq<Token>, k: nat, c: int): (n: nat)
    requires k <= |sig|
    ensures k <= n <= |sig| && (forall i | k <= i < n :: sig[i].start < c) && (n < |sig| ==> sig[n].start >= c)
    decreases |sig| - k
  {
    if k == |sig| || sig[k].start >= c then k else Before(sig, k + 1, c)
  }

  // ----- the stack -----

  /** The stack after `k` tokens: the parentheses open there, outermost first, each one level further in. */
  ghost predicate StackIs(sig: seq<Token>, stack: seq<nat>, k: nat) {
    && k <= |sig|
    && (forall j | 0 <= j < |stack| :: OpenAt(sig, stack[j], k) && Level(sig, stack[j], k) == |stack| - j)
    && (forall i, j | 0 <= i < j < |stack| :: stack[i] < stack[j])
    && (forall i: nat | OpenAt(sig, i, k) :: i in stack)
  }

  lemma OpenStep(sig: seq<Token>, i: nat, k: nat)
    requires i < k < |sig|
    ensures OpenAt(sig, i, k + 1) <==> OpenAt(sig, i, k) && Level(sig, i, k) + Turn(sig[k]) >= 1
    ensures Level(sig, i, k + 1) == Level(sig, i, k) + Turn(sig[k])
  {
    hide Turn;
    assert Level(sig, i, k + 1) == Level(sig, i, k) + Turn(sig[k]);
  }

  lemma OpenHere(sig: seq<Token>, k: nat)
    requires k < |sig|
    ensures OpenAt(sig, k, k + 1) <==> IsOpen(sig[k])
    ensures Level(sig, k, k + 1) == Turn(sig[k])
    ensures Turn(sig[k]) == if IsOpen(sig[k]) then 1 else if IsClose(sig[k]) then -1 else 0
  {
    assert Level(sig, k, k) == 0 && Level(sig, k, k + 1) == Level(sig, k, k) + Turn(sig[k]);
  }

  lemma StackStep(sig: seq<Token>, stack: seq<nat>, k: nat)
    requires k < |sig| && StackIs(sig, stack, k)
    ensures StackIs(sig, Track(sig, k, stack), k + 1)
  {
    hide OpenAt; hide Level; hide Turn; hide IsOpen; hide IsClose;
    OpenHere(sig, k);
    forall i: nat | i < k
      ensures OpenAt(sig, i, k + 1) <==> OpenAt(sig, i, k) && Level(sig, i, k) + Turn(sig[k]) >= 1
      ensures Level(sig, i, k + 1) == Level(sig, i, k) + Turn(sig[k])
    {
      OpenStep(sig, i, k);
    }
    forall i: nat | OpenAt(sig, i, k) || OpenAt(sig, i, k + 1) ensures i <= k && (OpenAt(sig, i, k) ==> i < k) { OpensEarlier(sig, i, k); }
    var next := Track(sig, k, stack);
    forall i: nat | OpenAt(sig, i, k + 1) ensures i in next { StaysOnStack(sig, stack, k, i); }
  }

  lemma StaysOnStack(sig: seq<Token>, stack: seq<nat>, k: nat, i: nat)
    requires k < |sig| && StackIs(sig, stack, k) && OpenAt(sig, i, k + 1)
    ensures i in Track(sig, k, stack)
  {
    hide OpenAt; hide Level; hide Turn; hide IsOpen; hide IsClose;
    OpenHere(sig, k);
    OpensEarlier(sig, i, k);
    var next := Track(sig, k, stack);
    if i == k {
      assert next[|stack|] == k;
    } else {
      OpenStep(sig, i, k);
      assert i in stack;
      var j :| 0 <= j < |stack| && stack[j] == i;
      assert j < |next| && next[j] == i;
    }
  }

  lemma OpensEarlier(sig: seq<Token>, i: nat, k: nat)
    ensures OpenAt(sig, i, k) ==> i < k
    ensures OpenAt(sig, i, k + 1) ==> i <= k
  {
  }

  /** The stack kept while the tokens before the cursor are met holds the parentheses open at the cursor. */
  lemma {:induction false} OpenParensAre(sig: seq<Token>, k: nat, c: int, stack: seq<nat>)
    requires k <= |sig| && StackIs(sig, stack, k)
    ensures StackIs(sig, OpenParens(sig, k, c, stack), Before(sig, k, c))
    decreases |sig| - k
  {
    hide StackIs; hide Track;
    if k < |sig| && sig[k].start < c {
      StackStep(sig, stack, k);
      OpenParensAre(sig, k + 1, c, Track(sig, k, stack));
    }
  }

  lemma EmptyStack(sig: seq<Token>)
    ensures StackIs(sig, [], 0)
  {
  }

  lemma QueryWordIff(sig: seq<Token>, k: nat)
    ensures StartsQuery(sig, k) <==> IsQueryWord(sig, k)
  {
  }

  /** The last entry that a query follows. */
  lemma {:induction false} ActiveIsLast(sig: seq<Token>, stack: seq<nat>)
    requires forall i, j | 0 <= i < j < |stack| :: stack[i] < stack[j]
    ensures match ActiveOpen(sig, stack)
            case Some(i) => i in stack && IsQueryWord(sig, i + 1) && forall j | j in stack && IsQueryWord(sig, j + 1) :: j <= i
            case None => forall j | j in stack :: !IsQueryWord(sig, j + 1)
  {
    hide StartsQuery; hide IsQueryWord;
    if stack != [] {
      var n := |stack| - 1;
      forall j | j in stack ensures j <= stack[n] && (j == stack[n] || j in stack[..n]) {
        var i :| 0 <= i < |stack| && stack[i] == j;
        if i < n { assert stack[..n][i] == j; }
      }
      QueryWordIff(sig, stack[n] + 1);
      if !StartsQuery(sig, stack[n] + 1) { ActiveIsLast(sig, stack[..n]); }
    }
  }

  // ----- where it closes -----

  ghost predicate ClosesWhere(sig: seq<Token>, i: nat, end: nat, r: nat) {
    if exists m: nat :: ClosesAt(sig, i, m) then exists m: nat :: ClosesAt(sig, i, m) && r == sig[m].start else r == end
  }

  lemma {:induction false} CloseFrom(sig: seq<Token>, i: nat, k: nat, end: nat)
    requires OpenAt(sig, i, k)
    ensures ClosesWhere(sig, i, end, CloseOf(sig, k, Level(sig, i, k), end))
    decreases |sig| - k
  {
    hide Turn;
    if k == |sig| {
      forall m: nat ensures !ClosesAt(sig, i, m) {}
    } else {
      OpenHere(sig, k);
      OpenStep(sig, i, k);
      if IsClose(sig[k]) && Level(sig, i, k) == 1 {
        assert ClosesAt(sig, i, k);
        forall m: nat | ClosesAt(sig, i, m) ensures m == k { OnlyClose(sig, i, m, k); }
      } else {
        CloseFrom(sig, i, k + 1, end);
      }
    }
  }

  lemma OnlyClose(sig: seq<Token>, i: nat, m: nat, k: nat)
    requires ClosesAt(sig, i, m) && ClosesAt(sig, i, k)
    ensures m == k
  {
  }

  // ----- the subquery -----

  /** Spaces, comments and the end marker are left out, and nothing else. */
  lemma {:induction false} SignificantIff(ts: seq<Token>, t: Token)
    ensures t in Significant(ts) <==> t in ts && t.kind !in {Whitespace, Comment, Eof}
  {
    if ts != [] { SignificantIff(ts[1..], t); }
  }

  ghost predicate NoQueryOpen(sig: seq<Token>, n: nat) { forall i: nat | OpenAt(sig, i, n) :: !IsQueryWord(sig, i + 1) }

  /** The innermost parenthesis open after `n` tokens that a query follows. */
  ghost predicate IsInnermost(sig: seq<Token>, n: nat, i: nat) {
    i < |sig| && OpenAt(sig, i, n) && IsQueryWord(sig, i + 1) && forall j: nat | OpenAt(sig, j, n) && IsQueryWord(sig, j + 1) :: j <= i
  }

  ghost predicate IsChosen(sig: seq<Token>, n: nat, end: nat, q: Span) {
    exists i: nat :: IsInnermost(sig, n, i) && q.start == sig[i].end && ClosesWhere(sig, i, end, q.end)
  }

  /**
   * There is a subquery exactly when a parenthesis open at the cursor is followed by SELECT or WITH; it is the innermost such one,
   * from behind the parenthesis to where it closes, or to the end of the text.
   */
  lemma SubqueryIff(d: Dialect, text: string, c: int)
    ensures var sig := Significant(Tokenize(d, text));
            var n := Before(sig, 0, c);
            match Subquery(d, text, c) case None => NoQueryOpen(sig, n) case Some(q) => IsChosen(sig, n, |text|, q)
  {
    hide Tokenize; hide Significant; hide IsInnermost; hide NoQueryOpen; hide ClosesWhere; hide ActiveOpen; hide CloseOf; hide OpenParens;
    var sig := Significant(Tokenize(d, text));
    var n, open := Before(sig, 0, c), ActiveOpen(sig, OpenParens(sig, 0, c, []));
    ActiveIsInnermostOpen(sig, c);
    if open.Some? {
      InnermostIsOpen(sig, n, open.value);
      OpenClose(sig, open.value, n, |text|);
    }
  }

  lemma InnermostIsOpen(sig: seq<Token>, n: nat, i: nat)
    requires IsInnermost(sig, n, i)
    ensures OpenAt(sig, i, n) && i < |sig|
  {
  }

  lemma ActiveIsInnermostOpen(sig: seq<Token>, c: int)
    ensures var n := Before(sig, 0, c);
            match ActiveOpen(sig, OpenParens(sig, 0, c, [])) case None => NoQueryOpen(sig, n) case Some(i) => IsInnermost(sig, n, i)
  {
    hide OpenAt; hide IsQueryWord; hide ActiveOpen; hide OpenParens; hide Level;
    EmptyStack(sig);
    OpenParensAre(sig, 0, c, []);
    var stack, n := OpenParens(sig, 0, c, []), Before(sig, 0, c);
    ActiveIsLast(sig, stack);
    forall i: nat ensures i in stack <==> OpenAt(sig, i, n) {
      if i in stack { var j :| 0 <= j < |stack| && stack[j] == i; }
    }
    forall i: nat | OpenAt(sig, i, n) ensures i < |sig| { OpenInside(sig, i, n); }
  }

  lemma OpenInside(sig: seq<Token>, i: nat, n: nat)
    requires OpenAt(sig, i, n)
    ensures i < n <= |sig|
  {
  }

  lemma OpenClose(sig: seq<Token>, i: nat, n: nat, end: nat)
    requires OpenAt(sig, i, n)
    ensures i < |sig| && ClosesWhere(sig, i, end, CloseOf(sig, i, 0, end))
  {
    hide ClosesWhere;
    OpenHere(sig, i);
    CloseFrom(sig, i, i + 1, end);
  }

  // ----- the innermost slice -----

  lemma InnerSlice(s: string, st: Span, q: Span, inner: Span)
    requires st.start <= st.end <= |s| && q.start <= q.end <= st.end - st.start && inner.start <= inner.end <= q.end - q.start
    ensures var p := Offset(inner, st.start + q.start);
            p.start <= p.end <= |s| && s[p.start..p.end] == s[st.start..st.end][q.start..q.end][inner.start..inner.end]
  {
    SliceOfSlice(s[st.start..st.end], q, inner);
    SliceOfSlice(s, st, Span(q.start + inner.start, q.start + inner.end));
  }

  lemma ActiveBounds(d: Dialect, s: string, cursor: int)
    ensures var p := ActiveSpan(d, s, cursor); p.start <= p.end <= |s|
  {
    hide ActiveSpan; hide IsBoundary;
    ActiveSpanIsWhole(d, s, cursor);
  }

  /** The slice a cursor is resolved in lies in the statement, and no subquery of it holds the cursor any more. */
  lemma {:induction false} ActiveIsInnermost(d: Dialect, s: string, cursor: int)
    ensures var p, st := ActiveSpan(d, s, cursor), Statement(d, s, cursor);
            && st.start <= p.start <= p.end <= st.end <= |s|
            && Subquery(d, s[p.start..p.end], cursor - p.start).None?
    decreases |s|
  {
    hide Statement; hide Subquery; hide Whole;
    StatementWhole(d, s, cursor);
    var st := Statement(d, s, cursor);
    var text := s[st.start..st.end];
    var q := Subquery(d, text, cursor - st.start);
    if q.Some? {
      SubqueryWhole(d, text, cursor - st.start);
      var sub, c := text[q.value.start..q.value.end], cursor - st.start - q.value.start;
      ActiveIsInnermost(d, sub, c);
      ActiveBounds(d, sub, c);
      InnerSlice(s, st, q.value, ActiveSpan(d, sub, c));
      StatementWhole(d, sub, c);
      assert cursor - Offset(ActiveSpan(d, sub, c), st.start + q.value.start).start == c - ActiveSpan(d, sub, c).start;
    }
  }

  /** In other words: no parenthesis open at the cursor there is followed by SELECT or WITH. */
  lemma NoOpenQuery(d: Dialect, s: string, cursor: int)
    ensures var p := ActiveSpan(d, s, cursor);
            && p.start <= p.end <= |s|
            && var sig := Significant(Tokenize(d, s[p.start..p.end])); NoQueryOpen(sig, Before(sig, 0, cursor - p.start))
  {
    hide Subquery; hide Tokenize; hide Significant; hide NoQueryOpen; hide IsChosen; hide ActiveSpan; hide Statement;
    ActiveIsInnermost(d, s, cursor);
    var p := ActiveSpan(d, s, cursor);
    SubqueryIff(d, s[p.start..p.end], cursor - p.start);
  }
}
