/**
 * The two SELECT statements of the query, as functions over an in-memory
 * store: the per-connection LEFT JOIN of the connection table with the audit
 * table, and the selection of the rows stored under `<all>`.
 */
module Selection {
  import opened AuditData
  import opened RowOrder

  /** The audit row has the requested event type and lies in [from, upTo). */
  predicate InWindow(decode: DateTimeDecoder, q: Query, a: AuditRow)
  {
    a.eventType == q.eventType && q.from <= decode(a.eventDateTime) < q.upTo
  }

  /** An audit row as the result set returns it. */
  function Fetched(a: AuditRow): ResultRow
  {
    ResultRow(a.connectionCode, Some(a.eventDateTime), Some(a.eventCount))
  }

  /**
   * The audit rows of connection `code` that have the event type and lie in
   * the window, as result rows, in table order: both the ON clause of the
   * LEFT JOIN for one connection and the WHERE clause of the `<all>` query.
   */
  function AuditRowsFor(decode: DateTimeDecoder, audit: seq<AuditRow>, code: ConnectionCode, q: Query): (rows: seq<ResultRow>)
    ensures forall r :: r in rows ==>
      r.connectionCode == code && Complete(r) && q.from <= decode(r.eventDateTime.value) < q.upTo
    ensures forall r :: r in rows ==>
      exists a :: a in audit && a.connectionCode == code && InWindow(decode, q, a) && Fetched(a) == r
    ensures forall a :: a in audit && a.connectionCode == code && InWindow(decode, q, a) ==> Fetched(a) in rows
    decreases |audit|
  {
    if audit == [] then []
    else
      var rest := AuditRowsFor(decode, audit[1..], code, q);
      assert audit == [audit[0]] + audit[1..];
      if audit[0].connectionCode == code && InWindow(decode, q, audit[0]) then [Fetched(audit[0])] + rest
      else rest
  }

  /**
   * The rows the LEFT JOIN yields for one connection: never none; every
   * matching audit row of the connection, and besides them only a single row
   * of NULLs when there is no matching audit row.
   */
  function JoinedRows(decode: DateTimeDecoder, audit: seq<AuditRow>, code: ConnectionCode, q: Query): (rows: seq<ResultRow>)
    ensures rows != []
    ensures forall r :: r in rows ==> r.connectionCode == code
    ensures forall a :: a in audit && a.connectionCode == code && InWindow(decode, q, a) ==> Fetched(a) in rows
    ensures forall r :: r in rows && Complete(r) ==> r in AuditRowsFor(decode, audit, code, q)
    ensures forall r :: r in rows && !Complete(r) ==>
      rows == [ResultRow(code, None, None)] && AuditRowsFor(decode, audit, code, q) == []
  {
    var found := AuditRowsFor(decode, audit, code, q);
    if found == [] then [ResultRow(code, None, None)] else found
  }

  /**
   * The rows of the LEFT JOIN before ORDER BY, connection by connection: each
   * registered connection appears, every matching audit row of a registered
   * connection is returned, every complete row is one of that connection's
   * matching audit rows, and the only rows with NULLs are the placeholders of
   * connections without matching audit rows.
   */
  function LeftJoinRows(decode: DateTimeDecoder, conns: seq<ConnectionCode>, audit: seq<AuditRow>, q: Query): (rows: seq<ResultRow>)
    ensures Codes(rows) == set c | c in conns
    ensures forall r :: r in rows && Complete(r) ==> r in AuditRowsFor(decode, audit, r.connectionCode, q)
    ensures forall r :: r in rows && !Complete(r) ==>
      r == ResultRow(r.connectionCode, None, None) && AuditRowsFor(decode, audit, r.connectionCode, q) == []
    ensures forall a :: a in audit && a.connectionCode in conns && InWindow(decode, q, a) ==> Fetched(a) in rows
    decreases |conns|
  {
    if conns == [] then []
    else
      var head := JoinedRows(decode, audit, conns[0], q);
      var rest := LeftJoinRows(decode, conns[1..], audit, q);
      assert conns == [conns[0]] + conns[1..];
      assert head[0] in head && head[0].connectionCode == conns[0];
      assert Codes(head) == {conns[0]};
      CodesAppend(head, rest);
      head + rest
  }

  /**
   * The first SELECT: every registered connection with its audit rows of the
   * event type in the window, a placeholder row if it has none, ordered by
   * connection code and then date-time.
   */
  function SelectPerConnection(decode: DateTimeDecoder, store: Store, q: Query): (rows: seq<ResultRow>)
    ensures multiset(rows) == multiset(LeftJoinRows(decode, store.connections, store.audit, q))
    ensures Codes(rows) == set c | c in store.connections
    ensures SortedRows(ByCodeThenDateTime, decode, rows)
    ensures forall r :: r in rows && Complete(r) ==> r in AuditRowsFor(decode, store.audit, r.connectionCode, q)
    ensures forall r :: r in rows && Complete(r) ==> q.from <= decode(r.eventDateTime.value) < q.upTo
  {
    var joined := LeftJoinRows(decode, store.connections, store.audit, q);
    var sorted := SortRows(ByCodeThenDateTime, decode, joined);
    CodesPermutation(sorted, joined);
    assert forall r :: r in sorted <==> r in multiset(joined);
    sorted
  }

  /**
   * The second SELECT: the rows stored under `<all>` with the event type in
   * the window, ordered by date-time.
   */
  function SelectAllConnections(decode: DateTimeDecoder, store: Store, q: Query): (rows: seq<ResultRow>)
    ensures multiset(rows) == multiset(AuditRowsFor(decode, store.audit, AllConnections, q))
    ensures SortedRows(ByDateTime, decode, rows)
    ensures forall r :: r in rows ==>
      r.connectionCode == AllConnections && Complete(r) && q.from <= decode(r.eventDateTime.value) < q.upTo
  {
    var found := AuditRowsFor(decode, store.audit, AllConnections, q);
    var sorted := SortRows(ByDateTime, decode, found);
    assert forall r :: r in sorted <==> r in multiset(found);
    sorted
  }
}
