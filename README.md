# Data-access core of the event reporting service, in Dafny

This project models the two control loops of the service's data-access core:

- **Connector** (`src/db.rs`, module `Db` in `db.dfy`): `connect_to_bucket` opens the
  `events` bucket, and while the attempt failed and retries remain (a `u8` countdown from
  `MAX_RETRIES = 60`) it logs the failure, counts down, re-opens and sleeps
  `RETRY_INTERVAL_MILLIS = 1000` ms. It returns the handle of the attempt the loop stopped
  at, or `Err(())`.
- **Aggregation query** (`src/queries.rs`, module `Queries` in `queries.dfy`):
  `make_aggregations_of_event_types` builds the fixed N1QL text, walks the row stream in
  order, ignores meta rows, decodes each data row into an `AggregationResult` and pushes it,
  and returns `Err(())` at the first stream error.

`wrappers.dfy` holds `Option` and `Result`, shaped like Rust's.

The couchbase client is replaced by inputs.
- `open_bucket` is an oracle `open: nat -> Result<H, CouchbaseError<E>>`. `open(k)` is the
  outcome of the k-th call, counting from 0.
- The row stream is a `seq<Result<N1qlResult, E>>`.
- `serde_json::from_str` is an abstract partial decoder `string -> Option<AggregationResult>`.

The side effects of `connect_to_bucket` are recorded in an appended trace of `Effect`s.
These are the `open_bucket` calls, the `warn!`/`error!`/`info!` lines (with their level,
`retries_remaining` and error) and the sleeps (with their duration). The trace keeps them
in order.

Both loops are `method`s with `while` loops. Each is proved equal to a declarative
specification function: `ConnectResult`/`ConnectTrace` for the first,
`AggregationsSpec`/`RowsConsumed` for the second. The properties are lemmas about those
functions.

Points the model takes from the code:
- The code opens the bucket once before the loop and once per iteration. That makes up to
  61 `open_bucket` calls and 60 sleeps, not 60 attempts.
- On exhaustion the code returns a bare `Err(())`, not a named error kind, and the model does the same.
- The sleep comes after the re-open, so a success on a retry is still followed by one sleep.
- A data row that fails to decode reaches `.unwrap()` and panics (`Abort` here). It is not
  the function's `Err(())` return, which only a stream error produces.
- `retries` is a `u8`. In Rust, `retries -= 1` at src/db.rs:36 would panic in a debug build,
  or wrap around in a release build, if it ran at 0. The model keeps `retries` in `Db.u8`,
  and Dafny's range check on the decrement holds because the loop guard gives `retries > 0`.
  So the decrement never underflows.
- The `Ok(_)` panic arm inside the loop is an `assert false`. It is proved unreachable by
  the guard `bucket.is_err()`.

## Model

| member | source | states |
|---|---|---|
| `Db.ConnectToBucket` | src/db.rs:9-53 | the loop returns `ConnectResult(open)` and produces exactly the effect trace `ConnectTrace(open)`; the `Ok(_)` arm inside the loop is unreachable and `retries` never leaves the `u8` range |
| `Db.FailureLog` | src/db.rs:20-34 | a failed attempt logs a warning exactly when the error is `AuthFailed`, and an error carrying the other error value otherwise, both with the current `retries_remaining` |
| `Db.FinalLog` | src/db.rs:41-49 | after the loop, an info line exactly when the last attempt succeeded, and otherwise an error line naming the last failure |
| `Db.FirstOpenedFrom` | src/db.rs:19-37 | the stop index from attempt k on lies in [k, 60]; every attempt before it failed; if it is below 60, that attempt succeeded |
| `Db.Iterations` | src/db.rs:16-19 | the loop runs n <= 60 iterations; attempts 0..n-1 failed; if n < 60, attempt n succeeded |
| `Db.RetryTraceAt` | src/db.rs:26-38 | iteration k writes, in order, the failure log with 60 - k retries remaining, one `open_bucket` call and one 1000 ms sleep |
| `Db.ConnectTraceEnds` | src/db.rs:17-49 | the trace begins with the `open_bucket` call before the loop and ends with the final info or error line |
| `Db.ConnectTraceAt` | src/db.rs:17-38 | iteration k occupies trace positions 3k+1..3k+3: failure log, re-open, sleep |
| `Db.RetriesRemainingLogged` | src/db.rs:26-36 | the line logged on iteration k reports `retries_remaining` = 60 - k > 0, as a warning exactly when attempt k failed with `AuthFailed` |
| `Db.SleepAfterSuccessfulReopen` | src/db.rs:37-44 | when a retry succeeds, the trace ends with that re-open, one sleep, then the info line |
| `Db.RetryTraceCounts` | src/db.rs:36-38 | n iterations make n opens, n sleeps and n * 1000 ms of sleeping |
| `Db.OpenAndSleepCounts` | src/db.rs:16-39 | `open_bucket` is called `Iterations + 1` <= 61 times; there are `Iterations` sleeps, one fewer than the opens, and at most 60000 ms of sleep; the call makes at most 182 effects, so the loop is bounded by the retry budget |
| `Db.ConnectReturnsFirstSuccess` | src/db.rs:19-52 | if attempt k <= 60 is the first success, the loop stops there after k + 1 opens and returns that attempt's handle |
| `Db.ConnectFailsIffAllAttemptsFail` | src/db.rs:16-49 | the call returns `Err(())` exactly when all 61 attempts fail, and then it ran all 60 iterations and made 61 opens |
| `Db.ConnectIgnoresErrorKind` | src/db.rs:20-37 | two outcome sequences that succeed at the same attempts with the same handles give the same result, iteration count, opens and sleeps, whatever the error kinds |
| `Queries.MakeAggregationsOfEventTypes` | src/queries.rs:15-43 | the row loop returns `AggregationsSpec(rows, decode)` having pulled `RowsConsumed(rows, decode)` rows |
| `Queries.FirstBadFrom` | src/queries.rs:26-40 | the stop index from row i on lies between i and the length of the stream; every row before it is a meta row or a decodable data row; the row at it, if any, is a stream error or an undecodable data row |
| `Queries.AggregationQueryReadsEvents` | src/queries.rs:16-21 | the query text is the fixed template with the bucket name `events` as its one substitution, so it reads `FROM events` |
| `Queries.DecodedMatchesDataRows` | src/queries.rs:32-37 | over good rows, there is exactly one record per data row, equal to that row's decoding, in stream order |
| `Queries.SucceedsIffAllRowsGood` | src/queries.rs:26-42 | the call returns `Ok` exactly when no row is a stream error or an undecodable data row |
| `Queries.OutputIsDecodedDataRowsInOrder` | src/queries.rs:24-42 | on `Ok(xs)`, `xs` has one element per data row, the j-th being the decoding of the j-th data row; nothing is sorted and the whole stream was consumed |
| `Queries.MetaRowIgnored` | src/queries.rs:28-31 | inserting a meta row anywhere in the stream leaves the output unchanged; the stop index and the number of rows pulled move by one exactly when the meta row comes before the stop |
| `Queries.StreamErrorStops` | src/queries.rs:38 | after good rows, the first stream error gives `Err(())` whatever follows, with no partial list, and no later row is pulled |
| `Queries.DecodeFailureAborts` | src/queries.rs:35 | after good rows, an undecodable data row aborts through `unwrap`, which is not `Err(())`, and no later row is pulled |
| `Queries.NoDataRowsGivesEmptyOk` | src/queries.rs:24-42 | a stream of meta rows only, the empty stream included, gives `Ok` of the empty list, which is distinct from `Err(())` |

## Left out

- `Cluster::new`, `authenticate` and the `expect` panic of the cluster constructor (src/db.rs:11-13): these are foreign calls with no logic here. The oracle stands for `open_bucket(bucket_name, None)` on the cluster they build.
- The text of the log lines is not modelled; so the bucket name and host they print are left out. An effect records the level, `retries_remaining`, the error value and the sleep duration.
- Real sleeping and time: a sleep is an effect carrying `RETRY_INTERVAL_MILLIS`.
- The `debug!` lines of the row loop (src/queries.rs:30, 33): they only write log output and change nothing the loop returns.
- `query_n1ql(...).wait()` (src/queries.rs:23): the store's execution of the query is foreign; the model takes the row stream it yields as input.
- The store's `GROUP BY`/`ORDER BY` semantics: descending counts are the store's promise, and this code does not sort.
- JSON decoding itself and the `i32` range of `event_count`. The decoder is abstract; `Queries.i32` only gives the field its Rust type.
- The other three lookup queries: src/queries.rs holds only the aggregation query.
- src/main.rs (command-line parsing, HTTP server, templates) and src/logging.rs (log dispatcher set-up and colouring) are not part of this model.
