# Audit event counts per connection, by hour

A model of the query that feeds the connectivity dashboard of the PIM: for an
event type and a half-open window `[from, upTo)`, it returns a map from
connection code to the series of `(timestamp, count)` samples stored for that
connection, hour by hour, plus the series stored under the reserved code
`<all>` (the store's own total over all connections).

The query (`DbalSelectConnectionsEventCountByDayQuery`) does three things,
and the model has a module for each, over a shared data module:

- `audit_data.dfy` (`AuditData`): connection codes, audit rows, result-set
  rows (with `Option` for the NULLs of a LEFT JOIN), samples and series.
  Timestamps are integers; reading the database's date-time string is a
  function `decode` passed as a parameter, since the format and parser belong
  to the database library.
- `row_order.dfy` (`RowOrder`): the two `ORDER BY` clauses as orders on
  result rows (NULL date-times first, codes compared character by character)
  and an insertion sort that realises them.
- `selection.dfy` (`Selection`): the two SELECT statements as functions over
  an in-memory store (the connection table as a list of codes, the audit table
  as a list of rows). The range filter compares `decode` of the stored value
  with the window, i.e. the database's comparison is taken to agree with the
  decoding of its own format.
- `normalizer.dfy` (`Normalizer`): `normalizeHourlyEventCountsData`, an
  `array_reduce` whose closure updates the accumulator in place, as a method
  with a loop over the rows that builds the map by calling the closure (a
  method of its own, `AccumulateRow`), proved equal to `Normalize`, the same
  fold written as a recursive function over its step `Accumulate`. `Samples` (per-code
  filter-and-map) is the independent reference the fold is proved to agree with.
- `event_count_query.dfy` (`EventCountQuery`): `execute` as a method that
  runs both selections, normalises each and merges them with `array_merge`
  semantics for string keys (the second map wins on a shared key), and the
  lemmas about the resulting report.

The docblock of `execute` (lines 26-34 of
`DbalSelectConnectionsEventCountByDayQuery.php`) types the result with an
`'<all>'` key that is always present, but the code merges in the normalised
`<all>` selection (line 52), which is an empty map when the second SELECT
(lines 60-67) returns no row (lines 81 and 157). The model follows the code:
`<all>` is a key only when the store has a row for it in the window
(`AllConnectionsKeys`, `Report`).

## Model

| member | source | states |
|---|---|---|
| `RowOrder.SortRows` | src/Akeneo/Connectivity/Connection/back/Infrastructure/Persistence/Dbal/Query/DbalSelectConnectionsEventCountByDayQuery.php:95 | the ordered result holds exactly the selected rows (same multiset) and lists them in non-decreasing ORDER BY order |
| `RowOrder.SortedRowsChronological` | src/Akeneo/Connectivity/Connection/back/Infrastructure/Persistence/Dbal/Query/DbalSelectConnectionsEventCountByDayQuery.php:66-95 | under either ORDER BY clause (line 66 for `<all>`, line 95 per connection), the complete rows of each connection come in non-decreasing time order |
| `RowOrder.RowLeTotal` | src/Akeneo/Connectivity/Connection/back/Infrastructure/Persistence/Dbal/Query/DbalSelectConnectionsEventCountByDayQuery.php:95 | any two rows are comparable under each ORDER BY clause |
| `RowOrder.RowLeTransitive` | src/Akeneo/Connectivity/Connection/back/Infrastructure/Persistence/Dbal/Query/DbalSelectConnectionsEventCountByDayQuery.php:95 | each ORDER BY clause is transitive, so sorting by it is well defined |
| `Selection.AuditRowsFor` | src/Akeneo/Connectivity/Connection/back/Infrastructure/Persistence/Dbal/Query/DbalSelectConnectionsEventCountByDayQuery.php:63-94 | serving both the WHERE clause of the `<all>` SELECT (lines 63-65) and the ON clause of the LEFT JOIN (lines 92-94), a result row is returned for connection c exactly when an audit row of c has the event type and lies in [from, upTo); every such row is complete and in the window |
| `Selection.JoinedRows` | src/Akeneo/Connectivity/Connection/back/Infrastructure/Persistence/Dbal/Query/DbalSelectConnectionsEventCountByDayQuery.php:90-94 | the LEFT JOIN for one connection yields at least one row, all with its code; every audit row of the connection with the event type in the window is returned; every complete row is such an audit row; a row of NULLs appears only as the single row of a connection with no matching audit row |
| `Selection.LeftJoinRows` | src/Akeneo/Connectivity/Connection/back/Infrastructure/Persistence/Dbal/Query/DbalSelectConnectionsEventCountByDayQuery.php:90-94 | the LEFT JOIN yields every registered connection and no other code; every audit row of a registered connection with the event type in the window is returned; each complete row is one of that connection's matching audit rows; a row of NULLs appears only for a connection with no matching audit row |
| `Selection.SelectPerConnection` | src/Akeneo/Connectivity/Connection/back/Infrastructure/Persistence/Dbal/Query/DbalSelectConnectionsEventCountByDayQuery.php:89-96 | the first SELECT holds the LEFT JOIN's rows, keyed by exactly the registered connections, sorted by code then date-time, every complete row in the window |
| `Selection.SelectAllConnections` | src/Akeneo/Connectivity/Connection/back/Infrastructure/Persistence/Dbal/Query/DbalSelectConnectionsEventCountByDayQuery.php:60-67 | the second SELECT holds exactly the audit rows stored under `<all>` with the event type in the window, all complete, sorted by date-time |
| `Normalizer.Accumulate` | src/Akeneo/Connectivity/Connection/back/Infrastructure/Persistence/Dbal/Query/DbalSelectConnectionsEventCountByDayQuery.php:137-156 | one step of the closure adds the row's code as a key and changes no other key; the code's series keeps its samples and grows by exactly one sample, the row's, when the row has both a date-time and a count, and by none otherwise |
| `Normalizer.AccumulateRow` | src/Akeneo/Connectivity/Connection/back/Infrastructure/Persistence/Dbal/Query/DbalSelectConnectionsEventCountByDayQuery.php:137-156 | the closure, updating the accumulator in place (key the code if unset, then append the sample of a complete row), computes exactly one step `Accumulate` of the fold |
| `Normalizer.Normalize` | src/Akeneo/Connectivity/Connection/back/Infrastructure/Persistence/Dbal/Query/DbalSelectConnectionsEventCountByDayQuery.php:135-158 | the `array_reduce` fold of the closure from the empty array, left to right; it carries no contract of its own: `NormalizeGroups` proves its keys are exactly the codes occurring in the rows and each series is that code's samples in row order, and the loop `NormalizeHourlyEventCounts` is proved equal to it |
| `Normalizer.NormalizeHourlyEventCounts` | src/Akeneo/Connectivity/Connection/back/Infrastructure/Persistence/Dbal/Query/DbalSelectConnectionsEventCountByDayQuery.php:131-159 | the loop yields the fold of the closure over the rows; its keys are the codes of the rows and each series is that code's samples in row order |
| `Normalizer.AccumulateGroups` | src/Akeneo/Connectivity/Connection/back/Infrastructure/Persistence/Dbal/Query/DbalSelectConnectionsEventCountByDayQuery.php:137-156 | one step of the closure keeps the accumulator's invariant: keys are the codes seen so far and each series is the samples of that code's complete rows seen so far, in order |
| `Normalizer.NormalizeGroups` | src/Akeneo/Connectivity/Connection/back/Infrastructure/Persistence/Dbal/Query/DbalSelectConnectionsEventCountByDayQuery.php:135-158 | the fold's keys are exactly the codes occurring in the rows, and each key's series is the samples of that code's complete rows, in row order |
| `Normalizer.NormalizeEmpty` | src/Akeneo/Connectivity/Connection/back/Infrastructure/Persistence/Dbal/Query/DbalSelectConnectionsEventCountByDayQuery.php:157 | the fold yields the empty map exactly when there are no rows |
| `Normalizer.CodeWithoutSamples` | src/Akeneo/Connectivity/Connection/back/Infrastructure/Persistence/Dbal/Query/DbalSelectConnectionsEventCountByDayQuery.php:140-142 | a code whose rows all lack a date-time or a count is still a key, with an empty series |
| `Normalizer.IncompleteRowAddsNoSample` | src/Akeneo/Connectivity/Connection/back/Infrastructure/Persistence/Dbal/Query/DbalSelectConnectionsEventCountByDayQuery.php:144 | inserting a row lacking a date-time or a count anywhere only adds its code as a key (with an empty series if new) and changes no series |
| `Normalizer.NormalizeKeepsRowOrder` | src/Akeneo/Connectivity/Connection/back/Infrastructure/Persistence/Dbal/Query/DbalSelectConnectionsEventCountByDayQuery.php:145-152 | the series of a concatenation of row lists is the series of the first list followed by that of the second: samples are appended in row order |
| `Normalizer.SeriesLength` | src/Akeneo/Connectivity/Connection/back/Infrastructure/Persistence/Dbal/Query/DbalSelectConnectionsEventCountByDayQuery.php:140-153 | the series of a code has as many samples as there are rows of that code with both a date-time and a count |
| `Normalizer.SampleOrigin` | src/Akeneo/Connectivity/Connection/back/Infrastructure/Persistence/Dbal/Query/DbalSelectConnectionsEventCountByDayQuery.php:145-151 | each sample of a series is (decode(event_datetime), event_count) of a complete row of that code |
| `Normalizer.SamplesPermutation` | src/Akeneo/Connectivity/Connection/back/Infrastructure/Persistence/Dbal/Query/DbalSelectConnectionsEventCountByDayQuery.php:145-152 | two row lists holding the same rows give each code the same samples up to order |
| `Normalizer.NormalizeChronological` | src/Akeneo/Connectivity/Connection/back/Infrastructure/Persistence/Dbal/Query/DbalSelectConnectionsEventCountByDayQuery.php:145-152 | samples are appended in row order, so rows in time order per connection (as the ORDER BY clauses at lines 66 and 95 deliver them) give series in time order |
| `Normalizer.NormalizeInWindow` | src/Akeneo/Connectivity/Connection/back/Infrastructure/Persistence/Dbal/Query/DbalSelectConnectionsEventCountByDayQuery.php:93 | rows whose date-times lie in [from, upTo) give series whose samples all lie in it |
| `EventCountQuery.ArrayMerge` | src/Akeneo/Connectivity/Connection/back/Infrastructure/Persistence/Dbal/Query/DbalSelectConnectionsEventCountByDayQuery.php:52 | the merged keys are the union of both maps' keys; a key of the second map takes its value there; a key only in the first keeps its value |
| `EventCountQuery.Execute` | src/Akeneo/Connectivity/Connection/back/Infrastructure/Persistence/Dbal/Query/DbalSelectConnectionsEventCountByDayQuery.php:35-53 | returns the merge of the two normalised selections; its keys are the registered connections plus `<all>` when stored rows exist for it; every series is in time order and inside the window |
| `EventCountQuery.AllConnectionsKeys` | src/Akeneo/Connectivity/Connection/back/Infrastructure/Persistence/Dbal/Query/DbalSelectConnectionsEventCountByDayQuery.php:63 | the normalised `<all>` selection has no key but `<all>`, and has it exactly when the store holds an `<all>` row of the event type in the window |
| `EventCountQuery.Report` | src/Akeneo/Connectivity/Connection/back/Infrastructure/Persistence/Dbal/Query/DbalSelectConnectionsEventCountByDayQuery.php:35-53 | `execute` as a function of the store and the query: the report's keys are exactly the registered connection codes, plus `<all>` when the `<all>` selection is non-empty (its series are described by `ReportSeriesChronological`, `ReportSeriesInWindow`, `ReportSeriesContents`) |
| `EventCountQuery.ReportSeriesChronological` | src/Akeneo/Connectivity/Connection/back/Infrastructure/Persistence/Dbal/Query/DbalSelectConnectionsEventCountByDayQuery.php:66-95 | every series of the report is in non-decreasing time order, from the ORDER BY clauses at lines 66 and 95 |
| `EventCountQuery.ReportSeriesInWindow` | src/Akeneo/Connectivity/Connection/back/Infrastructure/Persistence/Dbal/Query/DbalSelectConnectionsEventCountByDayQuery.php:64-93 | every sample of the report lies in [from, upTo), the range of the `<all>` WHERE clause (line 64) and of the LEFT JOIN's ON clause (line 93) |
| `EventCountQuery.LeftJoinSamples` | src/Akeneo/Connectivity/Connection/back/Infrastructure/Persistence/Dbal/Query/DbalSelectConnectionsEventCountByDayQuery.php:92 | with unique connection codes, the LEFT JOIN's samples for a registered connection are exactly its matching audit rows' samples, in table order |
| `EventCountQuery.ReportSeriesContents` | src/Akeneo/Connectivity/Connection/back/Infrastructure/Persistence/Dbal/Query/DbalSelectConnectionsEventCountByDayQuery.php:89-96 | with unique connection codes, each series of the report holds exactly the samples stored for its code with the event type in the window (as a multiset; the order is time order) |
| `EventCountQuery.StoredSamplesDistinct` | src/Akeneo/Connectivity/Connection/back/Infrastructure/Persistence/Dbal/Query/DbalSelectConnectionsEventCountByDayQuery.php:63-94 | under the audit table's key (one row per connection, event type and hour), the samples the store yields for a code with the event type in the window have pairwise different times |
| `EventCountQuery.ReportSeriesStrict` | src/Akeneo/Connectivity/Connection/back/Infrastructure/Persistence/Dbal/Query/DbalSelectConnectionsEventCountByDayQuery.php:35-53 | with unique connection codes and the audit table's key, every series of the report is in strictly increasing time order: no two samples of a connection share a time |
| `EventCountQuery.EmptyWindow` | src/Akeneo/Connectivity/Connection/back/Infrastructure/Persistence/Dbal/Query/DbalSelectConnectionsEventCountByDayQuery.php:93 | when upTo is not after from, the report keys exactly the registered connections, each with an empty series |

## Left out

- Doctrine DBAL plumbing (`executeQuery`, `fetchAll`, parameter typing, `getDatabasePlatform`) is not part of this model: the store is an in-memory value, and storage errors, which the code lets propagate, do not arise.
- The concrete date-time format and `createFromFormat` with the UTC zone are a parameter `decode`; it is total, so a string the parser would reject (PHP returns `false` then) is not modelled.
- The conversion of `from` and `upTo` to database values (`DATETIME_IMMUTABLE` formatting, the time zone of the given objects) is not modelled: the window is given directly as two instants.
- `event_count` is appended as fetched, without a cast; the model takes it as an integer.
- The columns of a stored audit row are taken as NOT NULL: `AuditRow` has no NULL date-time or count, so the only incomplete result rows are the LEFT JOIN's placeholders. The normaliser itself handles any row with a NULL field (it keys the code and adds no sample, `IncompleteRowAddsNoSample`), but a store holding such a row is not expressible.
- PHP `array_merge` renumbers integer-like keys; connection codes are modelled as strings only, so this is out of scope.
- PHP arrays keep insertion order; Dafny maps are unordered, so the order of the keys of the report is not modelled (the order within each series is).
- The database collation is not modelled. The equality predicates on strings (`connection_code = '<all>'` and `event_type = :event_type` at lines 63 and 65, `audit.connection_code = conn.code` and `audit.event_type = :event_type` at lines 92 and 94) are exact string equality, so a case-insensitive or trailing-space-insensitive collation, which would match more rows, is out of scope. `ORDER BY conn.code` is modelled as character-by-character order, and the order SQL leaves open between rows with equal sort keys is whatever the insertion sort yields; no contract states it, and the report lemmas rely only on sortedness and on the rows being the same.
- `ReportSeriesContents`, `LeftJoinSamples` and `ReportSeriesStrict` assume unique connection codes, which the connection table's key guarantees; with duplicate codes the LEFT JOIN would repeat rows.
- `ReportSeriesStrict` and `StoredSamplesDistinct` assume one audit row per connection, event type and hour (`OneRowPerHour`). That is the audit table's key, which belongs to the schema and not to this query; without it only non-decreasing order (`ReportSeriesChronological`) holds.
- Repeated calls with the same arguments and data give the same report because `Report` is a function of them; no separate lemma states it.
