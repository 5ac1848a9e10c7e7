/**
 * The ORDER BY clauses of the two selections: `ORDER BY conn.code,
 * audit.event_datetime` and `ORDER BY event_datetime`, both ascending, as
 * orders on result rows, and a sort that realises them.
 */
module RowOrder {
  import opened AuditData

  /**
   * Strict order on connection codes: character by character, a proper
   * prefix first (a binary collation).
   */
  predicate CodeBefore(a: ConnectionCode, b: ConnectionCode)
    decreases |a|
  {
    if b == [] then false
    else if a == [] then true
    else if a[0] != b[0] then a[0] < b[0]
    else CodeBefore(a[1..], b[1..])
  }

  lemma {:induction false} CodeBeforeIrreflexive(a: ConnectionCode)
    ensures !CodeBefore(a, a)
    decreases |a|
  {
    if a != [] {
      CodeBeforeIrreflexive(a[1..]);
    }
  }

  lemma {:induction false} CodeBeforeTransitive(a: ConnectionCode, b: ConnectionCode, c: ConnectionCode)
    requires CodeBefore(a, b) && CodeBefore(b, c)
    ensures CodeBefore(a, c)
    decreases |a|
  {
    if a != [] && a[0] == b[0] && b[0] == c[0] {
      CodeBeforeTransitive(a[1..], b[1..], c[1..]);
    }
  }

  lemma {:induction false} CodeBeforeConnected(a: ConnectionCode, b: ConnectionCode)
    requires a != b
    ensures CodeBefore(a, b) || CodeBefore(b, a)
    decreases |a|
  {
    if a != [] && b != [] && a[0] == b[0] {
      assert a == [a[0]] + a[1..] && b == [b[0]] + b[1..];
      CodeBeforeConnected(a[1..], b[1..]);
    }
  }

  /** Ascending order on a nullable date-time column: NULL first, then by instant. */
  predicate DateTimeLe(decode: DateTimeDecoder, x: Option<string>, y: Option<string>)
  {
    match x
    case None => true
    case Some(s) => y.Some? && decode(s) <= decode(y.value)
  }

  /** The two ORDER BY clauses. */
  datatype SortOrder = ByCodeThenDateTime | ByDateTime

  /** `a` may come before `b` under `order`. */
  predicate RowLe(order: SortOrder, decode: DateTimeDecoder, a: ResultRow, b: ResultRow)
  {
    match order
    case ByCodeThenDateTime =>
      || CodeBefore(a.connectionCode, b.connectionCode)
      || (a.connectionCode == b.connectionCode && DateTimeLe(decode, a.eventDateTime, b.eventDateTime))
    case ByDateTime =>
      DateTimeLe(decode, a.eventDateTime, b.eventDateTime)
  }

  lemma RowLeTotal(order: SortOrder, decode: DateTimeDecoder, a: ResultRow, b: ResultRow)
    ensures RowLe(order, decode, a, b) || RowLe(order, decode, b, a)
  {
    if order == ByCodeThenDateTime && a.connectionCode != b.connectionCode {
      CodeBeforeConnected(a.connectionCode, b.connectionCode);
    }
  }

  lemma RowLeTransitive(order: SortOrder, decode: DateTimeDecoder, a: ResultRow, b: ResultRow, c: ResultRow)
    requires RowLe(order, decode, a, b) && RowLe(order, decode, b, c)
    ensures RowLe(order, decode, a, c)
  {
    if order == ByCodeThenDateTime {
      var ca, cb, cc := a.connectionCode, b.connectionCode, c.connectionCode;
      if CodeBefore(ca, cb) && CodeBefore(cb, cc) {
        CodeBeforeTransitive(ca, cb, cc);
      }
    }
  }

  predicate SortedRows(order: SortOrder, decode: DateTimeDecoder, rows: seq<ResultRow>)
  {
    forall i, j :: 0 <= i < j < |rows| ==> RowLe(order, decode, rows[i], rows[j])
  }

  /** Inserts `r` into sorted `rows` after every row it does not precede. */
  function InsertRow(order: SortOrder, decode: DateTimeDecoder, r: ResultRow, rows: seq<ResultRow>): (res: seq<ResultRow>)
    requires SortedRows(order, decode, rows)
    ensures multiset(res) == multiset(rows) + multiset{r}
    ensures SortedRows(order, decode, res)
    decreases |rows|
  {
    if rows == [] then [r]
    else if RowLe(order, decode, r, rows[0]) then
      InsertedFirstSorted(order, decode, r, rows);
      [r] + rows
    else
      var tail := InsertRow(order, decode, r, rows[1..]);
      RowLeTotal(order, decode, r, rows[0]);
      assert rows == [rows[0]] + rows[1..];
      HeadBeforeAll(order, decode, rows, r, tail);
      [rows[0]] + tail
  }

  lemma InsertedFirstSorted(order: SortOrder, decode: DateTimeDecoder, r: ResultRow, rows: seq<ResultRow>)
    requires SortedRows(order, decode, rows) && rows != []
    requires RowLe(order, decode, r, rows[0])
    ensures SortedRows(order, decode, [r] + rows)
  {
    var res := [r] + rows;
    forall i, j | 0 <= i < j < |res|
      ensures RowLe(order, decode, res[i], res[j])
    {
      if i == 0 && j > 1 {
        RowLeTransitive(order, decode, r, rows[0], rows[j - 1]);
      }
    }
  }

  /** Putting the head of a sorted list in front of a sorted arrangement of its tail and one more row it precedes keeps the order. */
  lemma HeadBeforeAll(order: SortOrder, decode: DateTimeDecoder, rows: seq<ResultRow>, r: ResultRow, tail: seq<ResultRow>)
    requires SortedRows(order, decode, rows) && rows != []
    requires RowLe(order, decode, rows[0], r)
    requires SortedRows(order, decode, tail)
    requires multiset(tail) == multiset(rows[1..]) + multiset{r}
    ensures SortedRows(order, decode, [rows[0]] + tail)
  {
    var res := [rows[0]] + tail;
    forall i, j | 0 <= i < j < |res|
      ensures RowLe(order, decode, res[i], res[j])
    {
      if i == 0 {
        var y := tail[j - 1];
        assert y in multiset(tail);
        if y != r {
          assert y in multiset(rows[1..]);
          var k :| 0 <= k < |rows[1..]| && rows[1..][k] == y;
          assert rows[k + 1] == y;
        }
      }
    }
  }

  /** The rows, rearranged into the order of an ORDER BY clause. */
  function SortRows(order: SortOrder, decode: DateTimeDecoder, rows: seq<ResultRow>): (res: seq<ResultRow>)
    ensures multiset(res) == multiset(rows)
    ensures SortedRows(order, decode, res)
    decreases |rows|
  {
    if rows == [] then []
    else
      assert rows == [rows[0]] + rows[1..];
      InsertRow(order, decode, rows[0], SortRows(order, decode, rows[1..]))
  }

  /**
   * Rows listed so that, for each connection, its complete rows come in
   * non-decreasing time order.
   */
  predicate ChronologicalPerCode(decode: DateTimeDecoder, rows: seq<ResultRow>)
  {
    forall i, j ::
      0 <= i < j < |rows| && rows[i].connectionCode == rows[j].connectionCode &&
      Complete(rows[i]) && Complete(rows[j]) ==>
        decode(rows[i].eventDateTime.value) <= decode(rows[j].eventDateTime.value)
  }

  /** Either ORDER BY clause lists each connection's rows in time order. */
  lemma SortedRowsChronological(order: SortOrder, decode: DateTimeDecoder, rows: seq<ResultRow>)
    requires SortedRows(order, decode, rows)
    ensures ChronologicalPerCode(decode, rows)
  {
    forall i, j |
      0 <= i < j < |rows| && rows[i].connectionCode == rows[j].connectionCode &&
      Complete(rows[i]) && Complete(rows[j])
      ensures decode(rows[i].eventDateTime.value) <= decode(rows[j].eventDateTime.value)
    {
      CodeBeforeIrreflexive(rows[i].connectionCode);
      assert RowLe(order, decode, rows[i], rows[j]);
    }
  }
}
