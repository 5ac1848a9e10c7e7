/**
 * `normalizeHourlyEventCountsData`: folds the rows of a result set into a map
 * from connection code to the series of its samples.
 */
module Normalizer {
  import opened AuditData
  import opened RowOrder

  /**
   * One step of the fold: the row's code gets a key with an empty series if it
   * has none yet, and the row's sample is appended to that series when the
   * row has both a date-time and a count.
   */
  function Accumulate(decode: DateTimeDecoder, data: EventCounts, row: ResultRow): (next: EventCounts)
    ensures next.Keys == data.Keys + {row.connectionCode}
    ensures next - {row.connectionCode} == data - {row.connectionCode}
    ensures row.connectionCode in data ==> data[row.connectionCode] <= next[row.connectionCode]
    ensures |next[row.connectionCode]| ==
      (if row.connectionCode in data then |data[row.connectionCode]| else 0) + (if Complete(row) then 1 else 0)
    ensures Complete(row) ==> next[row.connectionCode][|next[row.connectionCode]| - 1] == SampleOf(decode, row)
  {
    var keyed := if row.connectionCode in data then data else data[row.connectionCode := []];
    if Complete(row) then keyed[row.connectionCode := keyed[row.connectionCode] + [SampleOf(decode, row)]]
    else keyed
  }

  /** The fold of `Accumulate` over the rows, left to right, from the empty map. */
  function Normalize(decode: DateTimeDecoder, rows: seq<ResultRow>): EventCounts
    decreases |rows|
  {
    if rows == [] then map[]
    else Accumulate(decode, Normalize(decode, rows[..|rows| - 1]), rows[|rows| - 1])
  }

  /** The samples of the complete rows of connection `c`, in row order. */
  function Samples(decode: DateTimeDecoder, rows: seq<ResultRow>, c: ConnectionCode): Series
    decreases |rows|
  {
    if rows == [] then []
    else
      (if rows[0].connectionCode == c && Complete(rows[0]) then [SampleOf(decode, rows[0])] else [])
      + Samples(decode, rows[1..], c)
  }

  /** The number of complete rows of connection `c`. */
  function CompleteCount(rows: seq<ResultRow>, c: ConnectionCode): nat
    decreases |rows|
  {
    if rows == [] then 0
    else (if rows[0].connectionCode == c && Complete(rows[0]) then 1 else 0) + CompleteCount(rows[1..], c)
  }

  /** The samples of a concatenation are those of its parts, in the same order. */
  lemma {:induction false} SamplesAppend(decode: DateTimeDecoder, xs: seq<ResultRow>, ys: seq<ResultRow>, c: ConnectionCode)
    ensures Samples(decode, xs + ys, c) == Samples(decode, xs, c) + Samples(decode, ys, c)
    decreases |xs|
  {
    if xs == [] {
      assert xs + ys == ys;
    } else {
      assert (xs + ys)[1..] == xs[1..] + ys;
      SamplesAppend(decode, xs[1..], ys, c);
    }
  }

  /** A connection none of whose rows is complete has no samples. */
  lemma {:induction false} SamplesNone(decode: DateTimeDecoder, rows: seq<ResultRow>, c: ConnectionCode)
    requires forall r :: r in rows && r.connectionCode == c ==> !Complete(r)
    ensures Samples(decode, rows, c) == []
    decreases |rows|
  {
    if rows != [] {
      assert rows[0] in rows;
      SamplesNone(decode, rows[1..], c);
    }
  }

  /**
   * The fold groups the rows by code: its keys are exactly the codes of the
   * rows, and the series of each key lists the samples of that code's
   * complete rows in row order.
   */
  lemma {:induction false} NormalizeGroups(decode: DateTimeDecoder, rows: seq<ResultRow>)
    ensures Normalize(decode, rows).Keys == Codes(rows)
    ensures forall c :: c in Normalize(decode, rows) ==> Normalize(decode, rows)[c] == Samples(decode, rows, c)
    decreases |rows|
  {
    if rows != [] {
      var init, last := rows[..|rows| - 1], rows[|rows| - 1];
      assert rows == init + [last];
      NormalizeGroups(decode, init);
      AccumulateGroups(decode, Normalize(decode, init), init, last);
    }
  }

  /**
   * The invariant of the fold: when the accumulator groups the rows seen so
   * far, one more step groups them together with the next row.
   */
  lemma AccumulateGroups(decode: DateTimeDecoder, data: EventCounts, seen: seq<ResultRow>, row: ResultRow)
    requires data.Keys == Codes(seen)
    requires forall c :: c in data ==> data[c] == Samples(decode, seen, c)
    ensures Accumulate(decode, data, row).Keys == Codes(seen + [row])
    ensures forall c :: c in Accumulate(decode, data, row) ==>
      Accumulate(decode, data, row)[c] == Samples(decode, seen + [row], c)
  {
    CodesAppend(seen, [row]);
    assert Codes([row]) == {row.connectionCode};
    forall c | c in Accumulate(decode, data, row)
      ensures Accumulate(decode, data, row)[c] == Samples(decode, seen + [row], c)
    {
      SamplesAppend(decode, seen, [row], c);
      assert [row][1..] == [];
      if c !in Codes(seen) {
        SamplesNone(decode, seen, c);
      }
    }
  }

  /** The fold over one more row is one more step of `Accumulate`. */
  lemma NormalizeStep(decode: DateTimeDecoder, rows: seq<ResultRow>, i: nat)
    requires i < |rows|
    ensures Normalize(decode, rows[..i + 1]) == Accumulate(decode, Normalize(decode, rows[..i]), rows[i])
  {
    assert rows[..i + 1][..i] == rows[..i];
  }

  /**
   * The closure given to `array_reduce`: keys the row's code with an empty
   * series if it is not set yet, then appends the row's sample when the row
   * has both a date-time and a count. `Accumulate` is its specification: the
   * same step, as the function the fold `Normalize` is written with.
   */
  method AccumulateRow(decode: DateTimeDecoder, data: EventCounts, row: ResultRow) returns (next: EventCounts)
    ensures next == Accumulate(decode, data, row)
  {
    next := data;
    var code := row.connectionCode;
    if code !in next {
      next := next[code := []];
    }
    if row.eventDateTime.Some? && row.eventCount.Some? {
      next := next[code := next[code] + [Sample(decode(row.eventDateTime.value), row.eventCount.value)]];
    }
  }

  /**
   * The normaliser: walks the rows once, keying every code it meets and
   * appending the sample of each complete row to its code's series.
   */
  method NormalizeHourlyEventCounts(decode: DateTimeDecoder, rows: seq<ResultRow>) returns (data: EventCounts)
    ensures data == Normalize(decode, rows)
    ensures data.Keys == Codes(rows)
    ensures forall c :: c in data ==> data[c] == Samples(decode, rows, c)
  {
    data := map[];
    for i := 0 to |rows|
      invariant data == Normalize(decode, rows[..i])
    {
      data := AccumulateRow(decode, data, rows[i]);
      NormalizeStep(decode, rows, i);
    }
    assert rows[..|rows|] == rows;
    NormalizeGroups(decode, rows);
  }

  /** No rows yield the empty map, and only no rows do. */
  lemma {:induction false} NormalizeEmpty(decode: DateTimeDecoder, rows: seq<ResultRow>)
    ensures Normalize(decode, rows) == map[] <==> rows == []
  {
    NormalizeGroups(decode, rows);
    if rows != [] {
      assert rows[0] in rows;
      assert rows[0].connectionCode in Normalize(decode, rows);
    }
  }

  /**
   * A code that occurs only in rows lacking a date-time or a count (such as
   * the placeholder of a LEFT JOIN) is still a key, with an empty series.
   */
  lemma CodeWithoutSamples(decode: DateTimeDecoder, rows: seq<ResultRow>, c: ConnectionCode)
    requires c in Codes(rows)
    requires forall r :: r in rows && r.connectionCode == c ==> !Complete(r)
    ensures c in Normalize(decode, rows) && Normalize(decode, rows)[c] == []
  {
    NormalizeGroups(decode, rows);
    SamplesNone(decode, rows, c);
  }

  /**
   * A row lacking a date-time or a count adds no sample: inserting it anywhere
   * only keys its code (with an empty series if the code was new) and leaves
   * every existing series as it was.
   */
  lemma IncompleteRowAddsNoSample(decode: DateTimeDecoder, xs: seq<ResultRow>, r: ResultRow, ys: seq<ResultRow>)
    requires !Complete(r)
    ensures Normalize(decode, xs + [r] + ys).Keys == Normalize(decode, xs + ys).Keys + {r.connectionCode}
    ensures forall c :: c in Normalize(decode, xs + ys) ==>
      Normalize(decode, xs + [r] + ys)[c] == Normalize(decode, xs + ys)[c]
    ensures r.connectionCode !in Normalize(decode, xs + ys) ==> Normalize(decode, xs + [r] + ys)[r.connectionCode] == []
  {
    var with, without := xs + [r] + ys, xs + ys;
    NormalizeGroups(decode, with);
    NormalizeGroups(decode, without);
    CodesInsert(xs, r, ys);
    forall c | c in Normalize(decode, without)
      ensures Normalize(decode, with)[c] == Normalize(decode, without)[c]
    {
      SamplesSkipIncomplete(decode, xs, r, ys, c);
    }
    if r.connectionCode !in Normalize(decode, without) {
      SamplesNone(decode, without, r.connectionCode);
      SamplesSkipIncomplete(decode, xs, r, ys, r.connectionCode);
    }
  }

  lemma CodesInsert(xs: seq<ResultRow>, r: ResultRow, ys: seq<ResultRow>)
    ensures Codes(xs + [r] + ys) == Codes(xs + ys) + {r.connectionCode}
  {
    CodesAppend(xs, [r]);
    CodesAppend(xs + [r], ys);
    CodesAppend(xs, ys);
    assert Codes([r]) == {r.connectionCode};
  }

  lemma SamplesSkipIncomplete(decode: DateTimeDecoder, xs: seq<ResultRow>, r: ResultRow, ys: seq<ResultRow>, c: ConnectionCode)
    requires !Complete(r)
    ensures Samples(decode, xs + [r] + ys, c) == Samples(decode, xs + ys, c)
  {
    SamplesAppend(decode, xs + [r], ys, c);
    SamplesAppend(decode, xs, [r], c);
    SamplesAppend(decode, xs, ys, c);
    SamplesNone(decode, [r], c);
  }

  /** Samples are appended in row order: the series of a concatenation are the series of its parts, one after the other. */
  lemma NormalizeKeepsRowOrder(decode: DateTimeDecoder, xs: seq<ResultRow>, ys: seq<ResultRow>, c: ConnectionCode)
    requires c in Normalize(decode, xs + ys)
    ensures Normalize(decode, xs + ys)[c] ==
      (if c in Normalize(decode, xs) then Normalize(decode, xs)[c] else []) +
      (if c in Normalize(decode, ys) then Normalize(decode, ys)[c] else [])
  {
    NormalizeGroups(decode, xs + ys);
    NormalizeGroups(decode, xs);
    NormalizeGroups(decode, ys);
    SamplesAppend(decode, xs, ys, c);
    if c !in Codes(xs) {
      SamplesNone(decode, xs, c);
    }
    if c !in Codes(ys) {
      SamplesNone(decode, ys, c);
    }
  }

  lemma {:induction false} SamplesCount(decode: DateTimeDecoder, rows: seq<ResultRow>, c: ConnectionCode)
    ensures |Samples(decode, rows, c)| == CompleteCount(rows, c)
    decreases |rows|
  {
    if rows != [] {
      SamplesCount(decode, rows[1..], c);
    }
  }

  /** The series of a code has one sample per complete row of that code. */
  lemma SeriesLength(decode: DateTimeDecoder, rows: seq<ResultRow>, c: ConnectionCode)
    requires c in Normalize(decode, rows)
    ensures |Normalize(decode, rows)[c]| == CompleteCount(rows, c)
  {
    NormalizeGroups(decode, rows);
    SamplesCount(decode, rows, c);
  }

  /** Each sample of code `c` is the sample of some complete row of code `c`. */
  lemma {:induction false} SampleOrigin(decode: DateTimeDecoder, rows: seq<ResultRow>, c: ConnectionCode, k: nat) returns (i: nat)
    requires k < |Samples(decode, rows, c)|
    ensures i < |rows| && rows[i].connectionCode == c && Complete(rows[i])
    ensures Samples(decode, rows, c)[k] == SampleOf(decode, rows[i])
    decreases |rows|
  {
    var head := if rows[0].connectionCode == c && Complete(rows[0]) then [SampleOf(decode, rows[0])] else [];
    if k < |head| {
      i := 0;
    } else {
      var j := SampleOrigin(decode, rows[1..], c, k - |head|);
      i := j + 1;
    }
  }

  /** Lists holding the same rows hold the same samples for each code. */
  lemma {:induction false} SamplesPermutation(decode: DateTimeDecoder, xs: seq<ResultRow>, ys: seq<ResultRow>, c: ConnectionCode)
    requires multiset(xs) == multiset(ys)
    ensures multiset(Samples(decode, xs, c)) == multiset(Samples(decode, ys, c))
    decreases |xs|
  {
    if xs == [] {
      assert |ys| == |multiset(ys)| == 0;
    } else {
      var x := xs[0];
      assert x in multiset(ys);
      var i :| 0 <= i < |ys| && ys[i] == x;
      var before, after := ys[..i], ys[i + 1..];
      RemoveMatched(xs, ys, i);
      SamplesPermutation(decode, xs[1..], before + after, c);
      SamplesAround(decode, xs, ys, i, c);
    }
  }

  /** The samples of both lists, split around the matched row. */
  lemma SamplesAround(decode: DateTimeDecoder, xs: seq<ResultRow>, ys: seq<ResultRow>, i: nat, c: ConnectionCode)
    requires xs != [] && i < |ys| && ys[i] == xs[0]
    ensures Samples(decode, xs, c) == Samples(decode, [xs[0]], c) + Samples(decode, xs[1..], c)
    ensures Samples(decode, ys, c) == Samples(decode, ys[..i], c) + Samples(decode, [xs[0]], c) + Samples(decode, ys[i + 1..], c)
    ensures Samples(decode, ys[..i] + ys[i + 1..], c) == Samples(decode, ys[..i], c) + Samples(decode, ys[i + 1..], c)
  {
    assert xs == [xs[0]] + xs[1..];
    SamplesAppend(decode, [xs[0]], xs[1..], c);
    SplitAt(ys, i);
    SamplesAppend(decode, ys[..i] + [ys[i]], ys[i + 1..], c);
    SamplesAppend(decode, ys[..i], [ys[i]], c);
    SamplesAppend(decode, ys[..i], ys[i + 1..], c);
  }

  lemma SplitAt(ys: seq<ResultRow>, i: nat)
    requires i < |ys|
    ensures ys == ys[..i] + [ys[i]] + ys[i + 1..]
  {
  }

  /** Removing one occurrence of the same row from two lists with the same rows leaves lists with the same rows. */
  lemma RemoveMatched(xs: seq<ResultRow>, ys: seq<ResultRow>, i: nat)
    requires multiset(xs) == multiset(ys) && xs != [] && i < |ys| && ys[i] == xs[0]
    ensures multiset(xs[1..]) == multiset(ys[..i] + ys[i + 1..])
  {
    assert xs == [xs[0]] + xs[1..];
    SplitAt(ys, i);
    assert multiset(xs) == multiset{xs[0]} + multiset(xs[1..]);
    assert multiset(ys) == multiset(ys[..i]) + multiset{xs[0]} + multiset(ys[i + 1..]);
    assert multiset(xs[1..]) == multiset(xs) - multiset{xs[0]};
    assert multiset(ys[..i] + ys[i + 1..]) == multiset(ys) - multiset{xs[0]};
  }

  lemma {:induction false} SamplesChronological(decode: DateTimeDecoder, rows: seq<ResultRow>, c: ConnectionCode)
    requires ChronologicalPerCode(decode, rows)
    ensures Chronological(Samples(decode, rows, c))
    decreases |rows|
  {
    if rows != [] {
      var tail := rows[1..];
      assert ChronologicalPerCode(decode, tail) by {
        forall i, j | 0 <= i < j < |tail| ensures tail[i] == rows[i + 1] && tail[j] == rows[j + 1] { }
      }
      SamplesChronological(decode, tail, c);
      if rows[0].connectionCode == c && Complete(rows[0]) {
        var s := Samples(decode, rows, c);
        var rest := Samples(decode, tail, c);
        assert s == [SampleOf(decode, rows[0])] + rest;
        forall i, j | 0 <= i < j < |s| ensures s[i].time <= s[j].time {
          if i == 0 {
            var o := SampleOrigin(decode, tail, c, j - 1);
            assert tail[o] == rows[o + 1];
          }
        }
      }
    }
  }

  /** Rows listed in time order per code give time-ordered series. */
  lemma NormalizeChronological(decode: DateTimeDecoder, rows: seq<ResultRow>)
    requires ChronologicalPerCode(decode, rows)
    ensures forall c :: c in Normalize(decode, rows) ==> Chronological(Normalize(decode, rows)[c])
  {
    NormalizeGroups(decode, rows);
    forall c | c in Normalize(decode, rows)
      ensures Chronological(Normalize(decode, rows)[c])
    {
      SamplesChronological(decode, rows, c);
    }
  }

  /** Rows whose date-times all lie in a window give series whose samples all lie in it. */
  lemma {:induction false} NormalizeInWindow(decode: DateTimeDecoder, rows: seq<ResultRow>, from: Timestamp, upTo: Timestamp)
    requires forall r :: r in rows && Complete(r) ==> from <= decode(r.eventDateTime.value) < upTo
    ensures forall c :: c in Normalize(decode, rows) ==> SeriesInWindow(Normalize(decode, rows)[c], from, upTo)
  {
    NormalizeGroups(decode, rows);
    forall c, k | c in Normalize(decode, rows) && 0 <= k < |Normalize(decode, rows)[c]|
      ensures from <= Normalize(decode, rows)[c][k].time < upTo
    {
      var i := SampleOrigin(decode, rows, c, k);
      assert rows[i] in rows;
    }
  }
}
