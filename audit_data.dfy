/**
 * Values the audit event-count query works on: the rows of the two tables it
 * reads, the rows of the result sets it receives back, and the report it
 * returns (a map from connection code to a series of hourly samples).
 */
module AuditData {

  /** Code of a registered connection (an audited external system). */
  type ConnectionCode = string

  /** An instant in UTC. */
  type Timestamp = int

  /**
   * Reads a stored date-time value, written in the database platform's
   * date-time format, as a UTC instant. The concrete format and parser belong
   * to the database library, so the model takes this function as a parameter.
   */
  type DateTimeDecoder = string -> Timestamp

  /** The reserved code under which the store keeps the total over all connections. */
  const AllConnections: ConnectionCode := "<all>"

  datatype Option<+T> = None | Some(value: T)

  /** A row of the audit table: hourly count of one event type for one connection. */
  datatype AuditRow = AuditRow(
    connectionCode: ConnectionCode,
    eventType: string,
    eventDateTime: string,
    eventCount: int)

  /**
   * The two tables the query reads: the codes of the registered connections
   * and the audit rows, both in table order.
   */
  datatype Store = Store(connections: seq<ConnectionCode>, audit: seq<AuditRow>)

  /** The arguments of `execute`: an event type and the half-open window [from, upTo). */
  datatype Query = Query(eventType: string, from: Timestamp, upTo: Timestamp)

  /**
   * A row of a result set: connection_code, event_datetime, event_count. The
   * last two are NULL in the placeholder row a LEFT JOIN yields for a
   * connection that has no matching audit row.
   */
  datatype ResultRow = ResultRow(
    connectionCode: ConnectionCode,
    eventDateTime: Option<string>,
    eventCount: Option<int>)

  /** One `[DateTime, count]` pair of a series. */
  datatype Sample = Sample(time: Timestamp, count: int)

  type Series = seq<Sample>

  /** Connection code to its series of samples. */
  type EventCounts = map<ConnectionCode, Series>

  /** A row that carries both a date-time and a count. */
  predicate Complete(r: ResultRow)
  {
    r.eventDateTime.Some? && r.eventCount.Some?
  }

  /** The sample a complete row stands for. */
  function SampleOf(decode: DateTimeDecoder, r: ResultRow): Sample
    requires Complete(r)
  {
    Sample(decode(r.eventDateTime.value), r.eventCount.value)
  }

  /** The connection codes occurring in a list of result rows. */
  function Codes(rows: seq<ResultRow>): set<ConnectionCode>
  {
    set r | r in rows :: r.connectionCode
  }

  lemma CodesAppend(xs: seq<ResultRow>, ys: seq<ResultRow>)
    ensures Codes(xs + ys) == Codes(xs) + Codes(ys)
  {
    assert forall r :: r in xs + ys <==> r in xs || r in ys;
  }

  /** Lists with the same rows have the same codes. */
  lemma CodesPermutation(xs: seq<ResultRow>, ys: seq<ResultRow>)
    requires multiset(xs) == multiset(ys)
    ensures Codes(xs) == Codes(ys)
  {
    assert forall r :: r in xs <==> r in multiset(xs);
    assert forall r :: r in ys <==> r in multiset(ys);
  }

  /** The codes of the connection table are unique (its key). */
  predicate DistinctCodes(codes: seq<ConnectionCode>)
  {
    forall i, j :: 0 <= i < j < |codes| ==> codes[i] != codes[j]
  }

  /** A series listed in non-decreasing time order. */
  predicate Chronological(s: Series)
  {
    forall i, j :: 0 <= i < j < |s| ==> s[i].time <= s[j].time
  }

  /** No two samples of the series share a time. */
  predicate DistinctTimes(s: Series)
  {
    forall i, j :: 0 <= i < j < |s| ==> s[i].time != s[j].time
  }

  /** A series listed in strictly increasing time order. */
  predicate Ascending(s: Series)
  {
    forall i, j :: 0 <= i < j < |s| ==> s[i].time < s[j].time
  }

  /**
   * The key of the audit table: no two of its rows have the same connection,
   * the same event type and the same hour.
   */
  predicate OneRowPerHour(decode: DateTimeDecoder, audit: seq<AuditRow>)
  {
    forall i, j ::
      0 <= i < j < |audit| && audit[i].connectionCode == audit[j].connectionCode && audit[i].eventType == audit[j].eventType
      ==> decode(audit[i].eventDateTime) != decode(audit[j].eventDateTime)
  }

  /** A sample put before a series without repeated times, none of them at its time, keeps it so. */
  lemma DistinctTimesCons(x: Sample, s: Series)
    requires DistinctTimes(s)
    requires forall y :: y in s ==> y.time != x.time
    ensures DistinctTimes([x] + s)
  {
    var all := [x] + s;
    forall i, j | 0 <= i < j < |all| ensures all[i].time != all[j].time {
      assert all[j] == s[j - 1];
      if i > 0 {
        assert all[i] == s[i - 1];
      }
    }
  }

  /** A series without repeated times holds each sample at most once. */
  lemma {:induction false} DistinctTimesOnce(t: Series, x: Sample)
    requires DistinctTimes(t)
    ensures multiset(t)[x] <= 1
    decreases |t|
  {
    if t != [] {
      assert t == [t[0]] + t[1..];
      assert DistinctTimes(t[1..]) by {
        forall i, j | 0 <= i < j < |t[1..]| ensures t[1..][i].time != t[1..][j].time {
          assert t[1..][i] == t[i + 1] && t[1..][j] == t[j + 1];
        }
      }
      DistinctTimesOnce(t[1..], x);
      if t[0] == x {
        forall k | 0 <= k < |t[1..]| ensures t[1..][k] != x {
          assert t[1..][k] == t[k + 1];
        }
        assert x !in t[1..];
      }
    }
  }

  /** The sample at `i` occurs in the series, twice if the one at `j` is the same. */
  lemma SampleCount(s: Series, i: nat, j: nat)
    requires i < j < |s|
    ensures multiset(s)[s[i]] >= if s[i] == s[j] then 2 else 1
  {
    assert s == s[..i] + [s[i]] + s[i + 1..j] + [s[j]] + s[j + 1..];
  }

  /** Rearranging a series without repeated times leaves it without repeated times. */
  lemma DistinctTimesPermutation(s: Series, t: Series)
    requires multiset(s) == multiset(t) && DistinctTimes(t)
    ensures DistinctTimes(s)
  {
    forall i, j | 0 <= i < j < |s| ensures s[i].time != s[j].time {
      SampleCount(s, i, j);
      DistinctTimesOnce(t, s[i]);
      assert s[i] != s[j];
      assert s[i] in multiset(t) && s[j] in multiset(t);
      var p :| 0 <= p < |t| && t[p] == s[i];
      var q :| 0 <= q < |t| && t[q] == s[j];
      assert p != q;
    }
  }

  /** Every sample of the series lies in the window [from, upTo). */
  predicate SeriesInWindow(s: Series, from: Timestamp, upTo: Timestamp)
  {
    forall k :: 0 <= k < |s| ==> from <= s[k].time < upTo
  }
}
