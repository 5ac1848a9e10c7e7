/**
 * `execute`: runs the per-connection selection and the `<all>` selection,
 * normalises each, and merges the two maps the way PHP's `array_merge` does
 * for string keys.
 */
module EventCountQuery {
  import opened AuditData
  import opened RowOrder
  import opened Selection
  import opened Normalizer

  /**
   * `array_merge` of two arrays with string keys: every key of either; where
   * both have a key, the value of the second.
   */
  function ArrayMerge(first: EventCounts, second: EventCounts): (merged: EventCounts)
    ensures merged.Keys == first.Keys + second.Keys
    ensures forall k :: k in second ==> merged[k] == second[k]
    ensures forall k :: k in first && k !in second ==> merged[k] == first[k]
  {
    first + second
  }

  /**
   * The report `execute` returns for the store and the query: keyed by the
   * registered connections, plus `<all>` when the store has rows for it in
   * the window.
   */
  function Report(decode: DateTimeDecoder, store: Store, q: Query): (report: EventCounts)
    ensures report.Keys == ReportCodes(decode, store, q)
  {
    NormalizeGroups(decode, SelectPerConnection(decode, store, q));
    AllConnectionsKeys(decode, store, q);
    ArrayMerge(
      Normalize(decode, SelectPerConnection(decode, store, q)),
      Normalize(decode, SelectAllConnections(decode, store, q)))
  }

  /** The codes the report is keyed by: every registered connection, and `<all>` when the store has rows for it in the window. */
  function ReportCodes(decode: DateTimeDecoder, store: Store, q: Query): set<ConnectionCode>
  {
    (set c | c in store.connections) +
    (if AuditRowsFor(decode, store.audit, AllConnections, q) == [] then {} else {AllConnections})
  }

  /** The samples the store holds for connection `c` with the event type in the window, in table order. */
  function StoredSamples(decode: DateTimeDecoder, store: Store, q: Query, c: ConnectionCode): Series
  {
    Samples(decode, AuditRowsFor(decode, store.audit, c, q), c)
  }

  /**
   * The query: hourly event counts per registered connection, and the stored
   * total under `<all>`, each series in time order and inside the window.
   */
  method Execute(decode: DateTimeDecoder, store: Store, q: Query) returns (report: EventCounts)
    ensures report == Report(decode, store, q)
    ensures report.Keys == ReportCodes(decode, store, q)
    ensures forall c :: c in report ==> Chronological(report[c]) && SeriesInWindow(report[c], q.from, q.upTo)
  {
    var perConnection := NormalizeHourlyEventCounts(decode, SelectPerConnection(decode, store, q));
    var sumForAll := NormalizeHourlyEventCounts(decode, SelectAllConnections(decode, store, q));
    report := ArrayMerge(perConnection, sumForAll);
    ReportSeriesChronological(decode, store, q);
    ReportSeriesInWindow(decode, store, q);
  }

  /**
   * The normalised `<all>` selection has no key but `<all>`, and has it
   * exactly when the store holds a row for it in the window.
   */
  lemma AllConnectionsKeys(decode: DateTimeDecoder, store: Store, q: Query)
    ensures Normalize(decode, SelectAllConnections(decode, store, q)).Keys ==
      if AuditRowsFor(decode, store.audit, AllConnections, q) == [] then {} else {AllConnections}
  {
    var rows := SelectAllConnections(decode, store, q);
    var found := AuditRowsFor(decode, store.audit, AllConnections, q);
    NormalizeGroups(decode, rows);
    assert |rows| == |multiset(rows)| == |multiset(found)| == |found|;
    if rows != [] {
      assert rows[0] in rows;
    }
  }

  /** Every series of the report is in time order. */
  lemma ReportSeriesChronological(decode: DateTimeDecoder, store: Store, q: Query)
    ensures forall c :: c in Report(decode, store, q) ==> Chronological(Report(decode, store, q)[c])
  {
    var perRows := SelectPerConnection(decode, store, q);
    var allRows := SelectAllConnections(decode, store, q);
    SortedRowsChronological(ByCodeThenDateTime, decode, perRows);
    SortedRowsChronological(ByDateTime, decode, allRows);
    NormalizeChronological(decode, perRows);
    NormalizeChronological(decode, allRows);
  }

  /** Every sample of the report lies in [from, upTo). */
  lemma ReportSeriesInWindow(decode: DateTimeDecoder, store: Store, q: Query)
    ensures forall c :: c in Report(decode, store, q) ==> SeriesInWindow(Report(decode, store, q)[c], q.from, q.upTo)
  {
    NormalizeInWindow(decode, SelectPerConnection(decode, store, q), q.from, q.upTo);
    NormalizeInWindow(decode, SelectAllConnections(decode, store, q), q.from, q.upTo);
  }

  /**
   * With a code per connection, the LEFT JOIN yields for a registered
   * connection exactly its stored samples, in table order.
   */
  lemma {:induction false} LeftJoinSamples(decode: DateTimeDecoder, conns: seq<ConnectionCode>, audit: seq<AuditRow>, q: Query, c: ConnectionCode)
    requires DistinctCodes(conns) && c in conns
    ensures Samples(decode, LeftJoinRows(decode, conns, audit, q), c) == Samples(decode, AuditRowsFor(decode, audit, c, q), c)
    decreases |conns|
  {
    var head := JoinedRows(decode, audit, conns[0], q);
    var rest := LeftJoinRows(decode, conns[1..], audit, q);
    assert LeftJoinRows(decode, conns, audit, q) == head + rest;
    SamplesAppend(decode, head, rest, c);
    assert DistinctCodes(conns[1..]) by {
      forall i, j | 0 <= i < j < |conns[1..]| ensures conns[1..][i] != conns[1..][j] {
        assert conns[1..][i] == conns[i + 1] && conns[1..][j] == conns[j + 1];
      }
    }
    if conns[0] == c {
      assert c !in conns[1..] by {
        forall k | 0 <= k < |conns[1..]| ensures conns[1..][k] != c {
          assert conns[1..][k] == conns[k + 1];
        }
      }
      assert c !in Codes(rest);
      SamplesNone(decode, rest, c);
      if AuditRowsFor(decode, audit, c, q) == [] {
        SamplesNone(decode, head, c);
      }
    } else {
      assert forall r :: r in head ==> r.connectionCode == conns[0];
      SamplesNone(decode, head, c);
      LeftJoinSamples(decode, conns[1..], audit, q, c);
    }
  }

  /**
   * With a code per connection, each series of the report holds exactly the
   * samples the store has for that code with the event type in the window
   * (their order being time order, by ReportSeriesChronological).
   */
  lemma ReportSeriesContents(decode: DateTimeDecoder, store: Store, q: Query)
    requires DistinctCodes(store.connections)
    ensures forall c :: c in Report(decode, store, q) ==>
      multiset(Report(decode, store, q)[c]) == multiset(StoredSamples(decode, store, q, c))
  {
    forall c | c in Report(decode, store, q)
      ensures multiset(Report(decode, store, q)[c]) == multiset(StoredSamples(decode, store, q, c))
    {
      SeriesContents(decode, store, q, c);
    }
  }

  lemma SeriesContents(decode: DateTimeDecoder, store: Store, q: Query, c: ConnectionCode)
    requires DistinctCodes(store.connections)
    requires c in Report(decode, store, q)
    ensures multiset(Report(decode, store, q)[c]) == multiset(StoredSamples(decode, store, q, c))
  {
    var perRows := SelectPerConnection(decode, store, q);
    var allRows := SelectAllConnections(decode, store, q);
    NormalizeGroups(decode, perRows);
    NormalizeGroups(decode, allRows);
    AllConnectionsKeys(decode, store, q);
    if c in Normalize(decode, allRows) {
      SamplesPermutation(decode, allRows, AuditRowsFor(decode, store.audit, AllConnections, q), c);
    } else {
      var joined := LeftJoinRows(decode, store.connections, store.audit, q);
      SamplesPermutation(decode, perRows, joined, c);
      LeftJoinSamples(decode, store.connections, store.audit, q, c);
    }
  }

  /**
   * Under the key of the audit table, the samples stored for a code with the
   * event type in the window have pairwise different times.
   */
  lemma {:induction false} StoredSamplesDistinct(decode: DateTimeDecoder, audit: seq<AuditRow>, c: ConnectionCode, q: Query)
    requires OneRowPerHour(decode, audit)
    ensures DistinctTimes(Samples(decode, AuditRowsFor(decode, audit, c, q), c))
    decreases |audit|
  {
    if audit != [] {
      var tail := audit[1..];
      assert OneRowPerHour(decode, tail) by {
        forall i, j | 0 <= i < j < |tail| ensures tail[i] == audit[i + 1] && tail[j] == audit[j + 1] {}
      }
      StoredSamplesDistinct(decode, tail, c, q);
      var rest := AuditRowsFor(decode, tail, c, q);
      if audit[0].connectionCode == c && InWindow(decode, q, audit[0]) {
        var first := Fetched(audit[0]);
        assert ([first] + rest)[1..] == rest;
        assert Samples(decode, [first] + rest, c) == [SampleOf(decode, first)] + Samples(decode, rest, c);
        LaterHoursDiffer(decode, audit, c, q);
        DistinctTimesCons(SampleOf(decode, first), Samples(decode, rest, c));
      }
    }
  }

  /** Under the key, no later stored sample of the first row's code and event type has its hour. */
  lemma LaterHoursDiffer(decode: DateTimeDecoder, audit: seq<AuditRow>, c: ConnectionCode, q: Query)
    requires OneRowPerHour(decode, audit)
    requires audit != [] && audit[0].connectionCode == c && InWindow(decode, q, audit[0])
    ensures forall x :: x in Samples(decode, AuditRowsFor(decode, audit[1..], c, q), c) ==>
      x.time != decode(audit[0].eventDateTime)
  {
    var tail := audit[1..];
    var rest := AuditRowsFor(decode, tail, c, q);
    var later := Samples(decode, rest, c);
    forall k | 0 <= k < |later| ensures later[k].time != decode(audit[0].eventDateTime) {
      var m := SampleOrigin(decode, rest, c, k);
      assert rest[m] in rest;
      var a :| a in tail && a.connectionCode == c && InWindow(decode, q, a) && Fetched(a) == rest[m];
      var n :| 0 <= n < |tail| && tail[n] == a;
      assert audit[n + 1] == a;
    }
  }

  /**
   * Under the keys of both tables, every series of the report is in strictly
   * increasing time order: no two samples of a connection share an hour.
   */
  lemma ReportSeriesStrict(decode: DateTimeDecoder, store: Store, q: Query)
    requires DistinctCodes(store.connections)
    requires OneRowPerHour(decode, store.audit)
    ensures forall c :: c in Report(decode, store, q) ==> Ascending(Report(decode, store, q)[c])
  {
    ReportSeriesChronological(decode, store, q);
    forall c | c in Report(decode, store, q)
      ensures Ascending(Report(decode, store, q)[c])
    {
      SeriesContents(decode, store, q, c);
      StoredSamplesDistinct(decode, store.audit, c, q);
      DistinctTimesPermutation(Report(decode, store, q)[c], StoredSamples(decode, store, q, c));
    }
  }

  /**
   * An empty window (upTo not after from) gives an empty series for every
   * registered connection and no `<all>` key beyond a registered one.
   */
  lemma EmptyWindow(decode: DateTimeDecoder, store: Store, q: Query)
    requires q.upTo <= q.from
    ensures Report(decode, store, q).Keys == set c | c in store.connections
    ensures forall c :: c in Report(decode, store, q) ==> Report(decode, store, q)[c] == []
  {
    NothingStoredInEmptyWindow(decode, store.audit, AllConnections, q);
    ReportSeriesInWindow(decode, store, q);
    forall c | c in Report(decode, store, q)
      ensures Report(decode, store, q)[c] == []
    {
      NoSampleInEmptyWindow(Report(decode, store, q)[c], q.from, q.upTo);
    }
  }

  lemma NothingStoredInEmptyWindow(decode: DateTimeDecoder, audit: seq<AuditRow>, code: ConnectionCode, q: Query)
    ensures q.upTo <= q.from ==> AuditRowsFor(decode, audit, code, q) == []
  {
    var found := AuditRowsFor(decode, audit, code, q);
    if found != [] {
      assert found[0] in found;
    }
  }

  lemma NoSampleInEmptyWindow(s: Series, from: Timestamp, upTo: Timestamp)
    requires SeriesInWindow(s, from, upTo)
    ensures upTo <= from ==> s == []
  {
    if s != [] {
      assert from <= s[0].time < upTo;
    }
  }
}
