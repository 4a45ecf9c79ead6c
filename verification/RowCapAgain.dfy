/** Preparing a MySQL text that was prepared before: when the clause is recognised, and when a second one is added. */
module RowCapAgain {
  import opened Values
  import Lexer
  import opened RowCap
  import opened RowCapCorrect

  lemma HasLimit(stmt: seq<Token>, clause: seq<Token>, tail: seq<Token>)
    requires clause != [] && clause[0].depth == 0 && clause[0].value == "LIMIT"
    ensures HasTopLevel(stmt + clause + tail, "LIMIT")
  {
    var all := stmt + clause + tail;
    assert all[|stmt|] == clause[0];
    assert TopLevel(all, |stmt|, "LIMIT");
  }

  /** Where the parentheses are balanced, the clause is a top-level LIMIT the second time. */
  lemma BalancedOnce(sql: string, limit: int, again: int)
    requires PreparePoint(sql).Some? && !Dangles(MySql, sql) && !EndsDashed(sql, PreparePoint(sql).value)
    requires var ts := Scan(MySql, sql, 0, 0).value; DepthAfter(MySql, ts[..FirstSemicolon(ts)], 0) == 0
    ensures PrepareMysqlQuery(PrepareMysqlQuery(sql, limit).sql, again) == Prepared(PrepareMysqlQuery(sql, limit).sql, [])
  {
    hide Scan; hide Marks; hide DepthAfter; hide Dangles; hide IsReadQuery; hide HasTopLevel;
    PrepareIsExactIff(sql, limit);
    var ts, at := Scan(MySql, sql, 0, 0).value, PreparePoint(sql).value;
    var k := FirstSemicolon(ts);
    HasLimit(ts[..k], [LimitWord(MySql, at, 0)] + Marks(PARAMETER, at + 7, 0), Moved(ts[k..], 7 + |PARAMETER|));
  }

  // ----- an unbalanced text -----

  lemma {:induction false} NextAtMore(ts: seq<Token>, us: seq<Token>, i: nat, value: string, depth: nat)
    requires NextAt(ts, i, value, depth) < |ts|
    ensures NextAt(ts + us, i, value, depth) == NextAt(ts, i, value, depth)
    decreases |ts| - i
  {
    if i < |ts| && !(ts[i].value == value && ts[i].depth == depth) { NextAtMore(ts, us, i + 1, value, depth); }
  }

  /** More tokens at the end do not change which statement follows the common table expressions. */
  lemma {:induction false} MainFromMore(ts: seq<Token>, us: seq<Token>, i: nat)
    requires MainFrom(ts, i).Some?
    ensures MainFrom(ts + us, i) == MainFrom(ts, i)
    decreases |ts| - i
  {
    hide NextAt;
    var all, a := ts + us, NextAt(ts, i, "AS", 0);
    NextAtMore(ts, us, i, "AS", 0);
    assert all[a + 1] == ts[a + 1];
    var close := NextAt(ts, a + 2, ")", ts[a + 1].depth);
    NextAtMore(ts, us, a + 2, ")", ts[a + 1].depth);
    assert all[close + 1] == ts[close + 1];
    if TopLevel(ts, close + 1, ",") { MainFromMore(ts, us, close + 2); }
  }

  ghost predicate Deep(us: seq<Token>) { forall i | 0 <= i < |us| :: us[i].depth > 0 }

  lemma TopLevelMore(ts: seq<Token>, us: seq<Token>, value: string)
    requires Deep(us)
    ensures HasTopLevel(ts + us, value) <==> HasTopLevel(ts, value)
  {
    var all := ts + us;
    if i :| 0 <= i < |ts| && TopLevel(ts, i, value) { assert TopLevel(all, i, value); }
    if i :| 0 <= i < |all| && TopLevel(all, i, value) { TopLevelWithin(ts, us, i, value); }
  }

  lemma TopLevelWithin(ts: seq<Token>, us: seq<Token>, i: nat, value: string)
    requires Deep(us) && TopLevel(ts + us, i, value)
    ensures i < |ts| && TopLevel(ts, i, value)
  {
    assert forall j | |ts| <= j < |ts + us| :: (ts + us)[j] == us[j - |ts|];
  }

  lemma LocksMore(ts: seq<Token>, us: seq<Token>, i: nat)
    requires Deep(us) && us != [] && us[0].value == "LIMIT" && i < |ts + us|
    ensures LocksAt(ts + us, i) ==> i < |ts| && LocksAt(ts, i)
  {
    var all := ts + us;
    assert forall j | 0 <= j < |ts| :: all[j] == ts[j];
    assert forall j | |ts| <= j < |all| :: all[j] == us[j - |ts|];
    assert all[|ts|].value == "LIMIT";
  }

  lemma ReadQueryMore(ts: seq<Token>, us: seq<Token>)
    requires IsReadQuery(ts) && Deep(us) && us != [] && us[0].value == "LIMIT"
    ensures IsReadQuery(ts + us)
  {
    hide LocksAt; hide HasTopLevel; hide MainFrom;
    var all := ts + us;
    assert ts != [] && all[0] == ts[0];
    if ts[0].value == "WITH" {
      assert |ts| > 1 by { ShortHasNoMain(ts); }
      assert all[1] == ts[1];
      MainFromMore(ts, us, if ValueAt(ts, 1) == Some("RECURSIVE") then 2 else 1);
    }
    TopLevelMore(ts, us, "INTO");
    TopLevelMore(ts, us, "PROCEDURE");
    forall i | 0 <= i < |all| ensures !LocksAt(all, i) { LocksMore(ts, us, i); }
  }

  lemma ShortHasNoMain(ts: seq<Token>)
    requires WithMainStatement(ts).Some?
    ensures |ts| > 1
  {
  }

  /** The clause inside an open parenthesis, at the end of the token list. */
  function DeepClause(at: nat, depth: nat): seq<Token> { [LimitWord(MySql, at, depth), Token(false, "?", at + 7, at + 8, depth)] }

  lemma UnbalancedTokens(sql: string, limit: int)
    requires PreparePoint(sql).Some? && !Dangles(MySql, sql) && !EndsDashed(sql, PreparePoint(sql).value)
    requires var ts := Scan(MySql, sql, 0, 0).value; DepthAfter(MySql, ts[..FirstSemicolon(ts)], 0) > 0
    ensures var ts, at := Scan(MySql, sql, 0, 0).value, PreparePoint(sql).value;
            && FirstSemicolon(ts) == |ts| && PreparePoint(sql).value <= |sql|
            && Scan(MySql, PrepareMysqlQuery(sql, limit).sql, 0, 0) == Some(ts + DeepClause(at, DepthAfter(MySql, ts, 0)))
  {
    hide Scan; hide DepthAfter; hide Dangles; hide PreparePoint; hide PrepareMysqlQuery;
    PrepareIsExactIff(sql, limit);
    var ts, at := Scan(MySql, sql, 0, 0).value, PreparePoint(sql).value;
    DepthAtClause(MySql, sql, at);
    assert ts[..|ts|] == ts && Moved(ts[|ts|..], 7 + |PARAMETER|) == [];
    var depth := DepthAfter(MySql, ts, 0);
    assert [LimitWord(MySql, at, depth)] + Marks(PARAMETER, at + 7, depth) == DeepClause(at, depth);
    assert ts + DeepClause(at, depth) + [] == ts + DeepClause(at, depth);
  }

  lemma SecondPoint(sql: string, once: string, at: nat, depth: nat)
    requires depth > 0 && PreparePoint(sql).Some?
    requires var ts := Scan(MySql, sql, 0, 0).value;
             FirstSemicolon(ts) == |ts| && Scan(MySql, once, 0, 0) == Some(ts + DeepClause(at, depth))
    ensures PreparePoint(once) == Some(at + 8)
  {
    hide Scan; hide IsReadQuery; hide HasTopLevel;
    var ts, us := Scan(MySql, sql, 0, 0).value, DeepClause(at, depth);
    var all := ts + us;
    ReadQueryMore(ts, us);
    TopLevelMore(ts, us, "LIMIT");
    NoSemicolonIn(ts, us);
    assert all[..|all|] == all && all[|all| - 1] == us[1];
  }

  /** Inside an open parenthesis the clause is not seen, so the same clause is added once more behind it. */
  lemma UnbalancedAgain(sql: string, limit: int, again: int)
    requires PreparePoint(sql).Some? && !Dangles(MySql, sql) && !EndsDashed(sql, PreparePoint(sql).value)
    requires var ts := Scan(MySql, sql, 0, 0).value; DepthAfter(MySql, ts[..FirstSemicolon(ts)], 0) > 0
    ensures var once := PrepareMysqlQuery(sql, limit).sql;
            && PreparePoint(sql).value + 8 <= |once|
            && PrepareMysqlQuery(once, again) == Prepared(Insert(once, PreparePoint(sql).value + 8, " LIMIT " + PARAMETER), [again + 1])
  {
    hide Scan; hide DepthAfter; hide Dangles; hide PreparePoint;
    var ts, at := Scan(MySql, sql, 0, 0).value, PreparePoint(sql).value;
    UnbalancedTokens(sql, limit);
    assert ts[..|ts|] == ts;
    SecondPoint(sql, PrepareMysqlQuery(sql, limit).sql, at, DepthAfter(MySql, ts, 0));
  }

  lemma NoSemicolonIn(ts: seq<Token>, us: seq<Token>)
    requires FirstSemicolon(ts) == |ts| && Deep(us)
    ensures FirstSemicolon(ts + us) == |ts + us|
  {
    var all := ts + us;
    forall i | 0 <= i < |all| ensures !IsSemicolon(all[i]) {
      if i < |ts| { assert all[i] == ts[i]; } else { assert all[i] == us[i - |ts|]; }
    }
  }

  /** Preparing again changes nothing exactly when the parentheses are balanced where the clause went. */
  lemma PrepareOnceIff(sql: string, limit: int, again: int)
    requires PreparePoint(sql).Some? && !Dangles(MySql, sql) && !EndsDashed(sql, PreparePoint(sql).value)
    ensures PrepareMysqlQuery(PrepareMysqlQuery(sql, limit).sql, again) == Prepared(PrepareMysqlQuery(sql, limit).sql, [])
            <==> (var ts := Scan(MySql, sql, 0, 0).value; DepthAfter(MySql, ts[..FirstSemicolon(ts)], 0) == 0)
  {
    hide Scan; hide DepthAfter; hide Dangles; hide PreparePoint; hide PrepareMysqlQuery;
    var ts := Scan(MySql, sql, 0, 0).value;
    if DepthAfter(MySql, ts[..FirstSemicolon(ts)], 0) == 0 {
      BalancedOnce(sql, limit, again);
    } else {
      UnbalancedAgain(sql, limit, again);
    }
  }

  // ----- an input that is capped twice -----

  lemma OpenTokens()
    ensures Scan(MySql, "SELECT(", 0, 0) == Some([Token(true, "SELECT", 0, 6, 0), Token(false, "(", 6, 7, 0)])
    ensures DepthAfter(MySql, [Token(true, "SELECT", 0, 6, 0), Token(false, "(", 6, 7, 0)], 0) == 1
    ensures !Dangles(MySql, "SELECT(")
  {
    hide PieceAt; hide Scan;
    var a, b := "SELECT(", "(";
    assert a == "SELECT" + b && a[6..] == b && b[1..] == "" && [b[0]] == "(";
    ExampleWord(b);
    OpenPiece();
    var w, x := Token(true, "SELECT", 0, 6, 0), Token(false, "(", 6, 7, 0);
    assert TokenOf(MySql, Word(6), a, 0, 0) == w && NextDepth(MySql, w, 0) == Some(0);
    assert TokenOf(MySql, Symbol, b, 6, 0) == x && NextDepth(MySql, x, 0) == Some(1);
    ScanEmpty(MySql, 7, 1);
    ScanStep(MySql, b, 6, 0);
    assert [x] + [] == [x] && [w] + [x] == [w, x];
    ScanStep(MySql, a, 0, 0);
    assert [w, x][1..] == [x] && [x][1..] == [];
    assert DepthAfter(MySql, [x], 0) == 1;
    assert !Dangles(MySql, "") && !Dangles(MySql, b);
  }

  lemma OpenPiece()
    ensures PieceAt(MySql, "(") == Symbol
  {
  }

  lemma OpenPoint()
    ensures PreparePoint("SELECT(") == Some(7)
    ensures var ts := Scan(MySql, "SELECT(", 0, 0).value; DepthAfter(MySql, ts[..FirstSemicolon(ts)], 0) == 1
  {
    hide Scan; hide DepthAfter; hide Dangles;
    OpenTokens();
    var ts := Scan(MySql, "SELECT(", 0, 0).value;
    assert FirstSemicolon(ts) == 2 && ts[..2] == ts;
    assert IsReadQuery(ts) && !HasTopLevel(ts, "LIMIT");
  }

  lemma InsertAtEnd(s: string, text: string)
    ensures Insert(s, |s|, text) == s + text
  {
  }

  /** The first clause stands inside the open parenthesis, where the second preparation does not look. */
  lemma OpenExample(limit: int, again: int)
    ensures PrepareMysqlQuery("SELECT(", limit) == Prepared("SELECT( LIMIT ?", [limit + 1])
    ensures PrepareMysqlQuery("SELECT( LIMIT ?", again) == Prepared("SELECT( LIMIT ? LIMIT ?", [again + 1])
  {
    hide Scan; hide Dangles; hide DepthAfter; hide PreparePoint; hide Insert;
    var sql := "SELECT(";
    OpenTokens();
    OpenPoint();
    PrepareIsExactIff(sql, limit);
    assert " LIMIT " + PARAMETER == " LIMIT ?";
    InsertAtEnd(sql, " LIMIT ?");
    assert sql + " LIMIT ?" == "SELECT( LIMIT ?";
    UnbalancedAgain(sql, limit, again);
    InsertAtEnd("SELECT( LIMIT ?", " LIMIT ?");
    assert "SELECT( LIMIT ?" + " LIMIT ?" == "SELECT( LIMIT ? LIMIT ?";
  }
}
