/**
 * Fitting a query result into the bridge's size limit, and the bridge's own validation of what it is given. Strings stand for
 * bytes of JSON text; the texts of rows and of the other fields are arbitrary functions of their values.
 */
module BoundedResult {
  import opened Values
  import opened Framing

  const MAX_BRIDGE_RESULT_BYTES: nat := 256 * 1024
  const MAX_STRING_BYTES: nat := 32 * 1024
  const MAX_CONNECTION_ID_BYTES: nat := 256
  const MAX_QUERY_LIMIT: nat := 1000
  const MARGIN: nat := 32

  /** A cell as a driver returns it: a number with its text, or anything else with its JSON text. */
  datatype Cell = Nothing | Undefined | Text(s: string) | Flag(b: bool) | Number(finite: bool, text: string) | BigInt(text: string) | Other(json: string)

  datatype OutCell = ONull | OText(s: string) | OFlag(b: bool) | ONumber(text: string)

  datatype Column = Column(name: string, dataType: string, nullable: bool)

  datatype QueryResult = QueryResult(columns: seq<Column>, rows: seq<seq<Cell>>, rowsAffected: Option<int>, rowsMoreAvailable: bool, elapsedMs: int)

  datatype Output = Output(connectionId: string, columns: seq<Column>, rows: seq<seq<OutCell>>, rowsAffected: Option<int>,
                           rowsMoreAvailable: bool, elapsedMs: int, truncated: bool)

  /** How rows and the remaining fields print: before the rows, between rows and flag, between the flags. */
  datatype Printer = Printer(head: (string, seq<Column>) -> string, row: seq<OutCell> -> string, middle: Option<int> -> string, elapsed: int -> string)

  function ConvertCell(c: Cell): OutCell {
    match c
    case Nothing => ONull
    case Undefined => ONull
    case Text(s) => OText(s)
    case Flag(b) => OFlag(b)
    case Number(finite, text) => if finite then ONumber(text) else OText("null")
    case BigInt(text) => OText(text)
    case Other(json) => OText(json)
  }

  function ConvertRow(row: seq<Cell>): (r: seq<OutCell>)
    ensures |r| == |row| && forall i | 0 <= i < |row| :: r[i] == ConvertCell(row[i])
  {
    seq(|row|, i requires 0 <= i < |row| => ConvertCell(row[i]))
  }

  function ConvertRows(rows: seq<seq<Cell>>): (r: seq<seq<OutCell>>)
    ensures |r| == |rows| && forall i | 0 <= i < |rows| :: r[i] == ConvertRow(rows[i])
  {
    seq(|rows|, i requires 0 <= i < |rows| => ConvertRow(rows[i]))
  }

  function RowTexts(p: Printer, rows: seq<seq<OutCell>>): (r: seq<string>)
    ensures |r| == |rows| && forall i | 0 <= i < |rows| :: r[i] == p.row(rows[i])
  {
    seq(|rows|, i requires 0 <= i < |rows| => p.row(rows[i]))
  }

  function BoolText(b: bool): string { if b then "true" else "false" }

  function Json(p: Printer, o: Output): string {
    p.head(o.connectionId, o.columns) + "[" + Join(RowTexts(p, o.rows)) + "]" + p.middle(o.rowsAffected) + BoolText(o.rowsMoreAvailable)
    + p.elapsed(o.elapsedMs) + BoolText(o.truncated) + "}"
  }

  function Empty(connectionId: string, r: QueryResult): Output {
    Output(connectionId, r.columns, [], r.rowsAffected, r.rowsMoreAvailable, r.elapsedMs, r.rowsMoreAvailable)
  }

  // ----- sizes -----

  lemma MoreRows(p: Printer, o: Output, row: seq<OutCell>)
    ensures |Json(p, o.(rows := o.rows + [row]))| == |Json(p, o)| + |p.row(row)| + if o.rows == [] then 0 else 1
  {
    var texts := RowTexts(p, o.rows);
    assert RowTexts(p, o.rows + [row]) == texts + [p.row(row)];
    SizeOf("", "", texts, p.row(row));
    assert "" + Join(texts) + "" == Join(texts) && "" + Join(texts + [p.row(row)]) + "" == Join(texts + [p.row(row)]);
  }

  /** Raising the flags never makes the text longer. */
  lemma FlagsRaised(p: Printer, o: Output)
    ensures |Json(p, o.(rowsMoreAvailable := true, truncated := true))| <= |Json(p, o)|
  {
  }

  // ----- what the result promises -----

  /** Texts, flags and finite numbers come through unchanged, long integers and everything else as text; only what is null or undefined is null. */
  predicate CellKept(c: Cell, o: OutCell) {
    && (c.Text? ==> o == OText(c.s)) && (c.Flag? ==> o == OFlag(c.b)) && (c.BigInt? ==> o == OText(c.text))
    && (c.Number? ==> o == if c.finite then ONumber(c.text) else OText("null"))
    && (c.Other? ==> o == OText(c.json))
    && (o == ONull <==> c == Nothing || c == Undefined)
  }

  /** Row by row and cell by cell, what is kept is what was given. */
  ghost predicate RowsKept(given: seq<seq<Cell>>, kept: seq<seq<OutCell>>) {
    |kept| <= |given| && forall i | 0 <= i < |kept| :: RowKept(given[i], kept[i])
  }

  predicate RowKept(given: seq<Cell>, kept: seq<OutCell>) {
    |kept| == |given| && forall j | 0 <= j < |kept| :: CellKept(given[j], kept[j])
  }

  lemma ConvertedIff(given: seq<seq<Cell>>, kept: seq<seq<OutCell>>)
    ensures RowsKept(given, kept) <==> kept <= ConvertRows(given)
  {
    forall c: Cell, o: OutCell ensures CellKept(c, o) <==> o == ConvertCell(c) {}
    if RowsKept(given, kept) {
      forall i | 0 <= i < |kept| ensures kept[i] == ConvertRows(given)[i] {
        assert RowKept(given[i], kept[i]);
        assert kept[i] == ConvertRow(given[i]);
      }
    }
    if kept <= ConvertRows(given) {
      forall i | 0 <= i < |kept| ensures RowKept(given[i], kept[i]) { assert kept[i] == ConvertRows(given)[i]; }
    }
  }

  /** The kept rows are all rows, with the source's flag, or a proper prefix with both flags raised. */
  ghost predicate KeepsPrefix(r: QueryResult, o: Output) {
    && RowsKept(r.rows, o.rows)
    && (if |o.rows| == |r.rows| then o.rowsMoreAvailable == o.truncated == r.rowsMoreAvailable else o.rowsMoreAvailable && o.truncated)
    && o.columns == r.columns && o.rowsAffected == r.rowsAffected && o.elapsedMs == r.elapsedMs
  }

  /** Rows are only left out when the limit is reached or the next row would come too close to the bound. */
  ghost predicate KeepsAllItCan(p: Printer, connectionId: string, r: QueryResult, limit: nat, o: Output) {
    |o.rows| < |r.rows| ==>
      || |o.rows| >= limit
      || |Json(p, Empty(connectionId, r).(rows := o.rows + [ConvertRow(r.rows[|o.rows|])]))| > MAX_BRIDGE_RESULT_BYTES - MARGIN
  }

  method BoundMcpQueryResult(p: Printer, connectionId: string, r: QueryResult, limit: nat) returns (result: Option<Output>)
    ensures result.None? <==> |Json(p, Empty(connectionId, r))| > MAX_BRIDGE_RESULT_BYTES
    ensures result.Some? ==>
              && |Json(p, result.value)| <= MAX_BRIDGE_RESULT_BYTES
              && |result.value.rows| <= limit
              && result.value.connectionId == connectionId
              && KeepsPrefix(r, result.value)
              && KeepsAllItCan(p, connectionId, r, limit, result.value)
  {
    hide Json;
    var output := Empty(connectionId, r);
    var rows: seq<seq<OutCell>> := [];
    var bytes := |Json(p, output)|;
    if bytes > MAX_BRIDGE_RESULT_BYTES { return None; }
    var n := 0;
    while n < |r.rows|
      invariant n <= |r.rows| && rows == ConvertRows(r.rows)[..n] && n <= limit
      invariant bytes == |Json(p, output.(rows := rows))| <= MAX_BRIDGE_RESULT_BYTES
    {
      var row := ConvertRow(r.rows[n]);
      var rowBytes := |p.row(row)| + if |rows| > 0 then 1 else 0;
      MoreRows(p, output.(rows := rows), row);
      if bytes + rowBytes > MAX_BRIDGE_RESULT_BYTES - MARGIN || |rows| >= limit {
        FlagsRaised(p, output.(rows := rows));
        return Some(output.(rows := rows, rowsMoreAvailable := true, truncated := true));
      }
      assert ConvertRows(r.rows)[..n + 1] == ConvertRows(r.rows)[..n] + [row];
      rows := rows + [row];
      bytes := bytes + rowBytes;
      n := n + 1;
    }
    return Some(output.(rows := rows));
  }

  // ----- the bridge's validation -----

  predicate GoodString(s: string, max: nat) { 0 < |s| <= max }

  predicate ValidQueryResult(p: Printer, o: Output) {
    && |Json(p, o)| <= MAX_BRIDGE_RESULT_BYTES
    && (forall i | 0 <= i < |o.columns| :: GoodString(o.columns[i].name, MAX_STRING_BYTES) && GoodString(o.columns[i].dataType, MAX_STRING_BYTES))
    && (forall i | 0 <= i < |o.rows| :: |o.rows[i]| == |o.columns|)
    && |o.rows| <= 1000
    && GoodString(o.connectionId, MAX_CONNECTION_ID_BYTES)
    && o.elapsedMs >= 0
    && (o.rowsAffected.Some? ==> o.rowsAffected.value >= 0)
  }

  /** What must hold of everything but the rows: a name for the connection and each column, counts that are not negative. */
  predicate WellFormed(connectionId: string, r: QueryResult) {
    && GoodString(connectionId, MAX_CONNECTION_ID_BYTES)
    && (forall i | 0 <= i < |r.columns| :: GoodString(r.columns[i].name, MAX_STRING_BYTES) && GoodString(r.columns[i].dataType, MAX_STRING_BYTES))
    && r.elapsedMs >= 0 && (r.rowsAffected.Some? ==> r.rowsAffected.value >= 0)
  }

  /** The first `n` rows have one cell for each column. */
  predicate RowsFill(r: QueryResult, n: nat)
    requires n <= |r.rows|
  {
    forall i | 0 <= i < n :: |r.rows[i]| == |r.columns|
  }

  /** Under every limit the tool accepts, the bridge takes a bounded result exactly when it is well-formed and its rows fill it. */
  lemma BoundedIsValid(p: Printer, connectionId: string, r: QueryResult, limit: nat, o: Output)
    requires |Json(p, o)| <= MAX_BRIDGE_RESULT_BYTES && |o.rows| <= limit <= MAX_QUERY_LIMIT && o.connectionId == connectionId
    requires KeepsPrefix(r, o)
    ensures ValidQueryResult(p, o) <==> WellFormed(connectionId, r) && RowsFill(r, |o.rows|)
  {
    hide Json;
    forall i | 0 <= i < |o.rows| ensures |o.rows[i]| == |r.rows[i]| { assert RowKept(r.rows[i], o.rows[i]); }
  }

  /** An unnamed column makes the bridge refuse a result that bounding let through. */
  lemma UnnamedColumnRefused(p: Printer, r: QueryResult, o: Output)
    requires KeepsPrefix(r, o) && r.columns == [Column("", "text", true)]
    ensures !ValidQueryResult(p, o)
  {
    assert o.columns[0].name == "";
  }
}
