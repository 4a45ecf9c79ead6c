/** The loops of statement finding and context slicing, proved to compute the spans of `Statements` and `ContextSlices`. */
module ContextLoops {
  import opened Values
  import opened Lexer
  import opened Slices
  import opened Statements
  import opened ContextSlices
  import T = Tokenizer
  import TokenGrammar

  method LineBounds(s: string, offset: nat) returns (start: nat, end: nat)
    requires offset <= |s|
    ensures start == LineStart(s, offset) && end == LineEnd(s, offset)
  {
    start := offset;
    while start > 0 && s[start - 1] != '\n'
      invariant start <= offset && LineStart(s, start) == LineStart(s, offset)
    {
      start := start - 1;
    }
    end := offset;
    while end < |s| && s[end] != '\n'
      invariant offset <= end <= |s| && LineEnd(s, end) == LineEnd(s, offset)
    {
      end := end + 1;
    }
  }

  method IsLineIsolated(s: string, ts: seq<Token>, k: nat) returns (isolated: bool)
    requires k < |ts| && ts[k].start <= |s|
    ensures isolated == LineIsolated(s, ts, k)
  {
    hide LineStart; hide LineEnd; hide IsSignificant;
    var start, end := LineBounds(s, ts[k].start);
    var i := 0;
    while i < |ts|
      invariant i <= |ts| && forall j | 0 <= j < i && j != k :: !SharesLine(s, ts[k], ts[j])
    {
      if IsSignificant(ts[i]) && start <= ts[i].start < end && i != k {
        assert SharesLine(s, ts[k], ts[i]);
        return false;
      }
      i := i + 1;
    }
    return true;
  }

  method FindStatement(d: Dialect, s: string, cursor: int) returns (r: Span)
    ensures r == Statement(d, s, cursor)
  {
    hide LineIsolated; hide Lexer.Tokenize; hide TokenGrammar.AreTokens; hide Upper;
    var c := Clamp(cursor, |s|);
    var ts := T.Tokenize(d, s);
    TokensInside(d, s);
    var boundaries: seq<Span> := [];
    var k := 0;
    while k < |ts|
      invariant k <= |ts| && Inside(ts, s) && boundaries == Separators(d, s, ts, k)
    {
      var t := ts[k];
      var isolated := IsLineIsolated(s, ts, k);
      if t.kind.Punct? && t.value == ";" {
        boundaries := boundaries + [Span(t.start, t.end)];
      } else if t.value in Alternatives(d.id) && isolated {
        boundaries := boundaries + [Span(t.start, t.end)];
      } else if t.kind.Keyword? && Some(Upper(t.value)) == BatchTerminator(d.id) && isolated {
        boundaries := boundaries + [Span(t.start, t.end)];
      }
      k := k + 1;
    }
    r := PickSpan(boundaries, |s|, c);
  }

  /** The two passes over the separators: the last one before `c`, then the first one from `c` on. */
  method PickSpan(boundaries: seq<Span>, n: nat, c: nat) returns (r: Span)
    ensures r == Between(boundaries, 0, n, c)
  {
    var start, i := 0, 0;
    assert boundaries[0..] == boundaries;
    while i < |boundaries| && boundaries[i].start < c
      invariant i <= |boundaries| && forall j | 0 <= j < i :: boundaries[j].start < c
      invariant Between(boundaries[i..], start, n, c) == Between(boundaries, 0, n, c)
    {
      assert boundaries[i..][1..] == boundaries[i + 1..];
      start := boundaries[i].end;
      i := i + 1;
    }
    var f := 0;
    while f < |boundaries| && boundaries[f].start < c
      invariant f <= |boundaries| && forall j | 0 <= j < f :: boundaries[j].start < c
    {
      f := f + 1;
    }
    assert f == i;
    return Span(start, if f < |boundaries| then boundaries[f].start else n);
  }

  method KeepSignificant(ts: seq<Token>) returns (sig: seq<Token>)
    ensures sig == Significant(ts)
  {
    sig := [];
    var i := 0;
    assert ts[0..] == ts;
    while i < |ts|
      invariant i <= |ts| && sig + Significant(ts[i..]) == Significant(ts)
    {
      assert ts[i..][1..] == ts[i + 1..];
      if IsSignificant(ts[i]) { sig := sig + [ts[i]]; }
      i := i + 1;
    }
  }

  lemma TrackStep(sig: seq<Token>, i: nat, c: int, stack: seq<nat>)
    requires i <= |sig|
    ensures OpenParens(sig, i, c, stack)
            == if i == |sig| || sig[i].start >= c then stack else OpenParens(sig, i + 1, c, Track(sig, i, stack))
  {
    hide Track;
  }

  /** The parenthesis stack at the cursor. */
  method StackAt(sig: seq<Token>, c: int) returns (stack: seq<nat>)
    ensures stack == OpenParens(sig, 0, c, [])
  {
    hide OpenParens; hide IsOpen; hide IsClose;
    stack := [];
    var i := 0;
    while i < |sig| && sig[i].start < c
      invariant i <= |sig| && OpenParens(sig, i, c, stack) == OpenParens(sig, 0, c, [])
    {
      TrackStep(sig, i, c, stack);
      if IsOpen(sig[i]) { stack := stack + [i]; }
      else if IsClose(sig[i]) && stack != [] { stack := stack[..|stack| - 1]; }
      i := i + 1;
    }
    TrackStep(sig, i, c, stack);
  }

  /** The parenthesis stack, then the innermost entry followed by SELECT or WITH, then its closing parenthesis. */
  method FindSubquery(d: Dialect, text: string, c: int) returns (r: Option<Span>)
    ensures r == Subquery(d, text, c)
  {
    hide Lexer.Tokenize; hide TokenGrammar.AreTokens; hide Significant; hide StartsQuery; hide OpenParens; hide CloseOf; hide ActiveOpen;
    var all := T.Tokenize(d, text);
    var sig := KeepSignificant(all);
    var stack := StackAt(sig, c);
    var open := FindActive(sig, stack);
    if open.None? || open.value >= |sig| { return None; }
    var end := FindClose(sig, open.value, |text|);
    return Some(Span(sig[open.value].end, end));
  }

  method FindActive(sig: seq<Token>, stack: seq<nat>) returns (open: Option<nat>)
    ensures open == ActiveOpen(sig, stack)
  {
    hide StartsQuery;
    var i := |stack|;
    assert stack[..|stack|] == stack;
    while i > 0
      invariant 0 <= i <= |stack| && ActiveOpen(sig, stack[..i]) == ActiveOpen(sig, stack)
    {
      assert stack[..i][..i - 1] == stack[..i - 1];
      if StartsQuery(sig, stack[i - 1] + 1) { return Some(stack[i - 1]); }
      i := i - 1;
    }
    return None;
  }

  method FindClose(sig: seq<Token>, open: nat, end: nat) returns (p: nat)
    requires open < |sig|
    ensures p == CloseOf(sig, open, 0, end)
  {
    hide IsOpen; hide IsClose;
    var i, depth := open, 0;
    while i < |sig|
      invariant open <= i <= |sig| && CloseOf(sig, i, depth, end) == CloseOf(sig, open, 0, end)
    {
      if IsOpen(sig[i]) { depth := depth + 1; }
      else if IsClose(sig[i]) {
        if depth <= 1 { return sig[i].start; }
        depth := depth - 1;
      }
      i := i + 1;
    }
    return end;
  }

  /** Narrow to the statement, then to its active subquery, as often as there is one. */
  method FindActiveSpan(d: Dialect, s: string, cursor: int) returns (r: Span)
    ensures r == ActiveSpan(d, s, cursor)
    decreases |s|
  {
    hide Statement; hide Subquery; hide Whole;
    var st := FindStatement(d, s, cursor);
    StatementWhole(d, s, cursor);
    var text := s[st.start..st.end];
    var q := FindSubquery(d, text, cursor - st.start);
    SubqueryWhole(d, text, cursor - st.start);
    if q.None? { return st; }
    var inner := FindActiveSpan(d, text[q.value.start..q.value.end], cursor - st.start - q.value.start);
    return Offset(inner, st.start + q.value.start);
  }
}
