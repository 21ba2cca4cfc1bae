# books_etl in Dafny

This project models `books_etl.py`. It is a batch job that copies the rows of
the table `books` updated on or after a cutoff date into `books_processed`:

- it rounds each price to one decimal place;
- it classifies each rounded price as `budget` (below 500.0) or `premium`;
- it replaces any earlier rows for the same book ids, so that the job can be
  re-run.

The database connection and every write transaction run under `retry`, which
uses exponential backoff and jitter. The extract is either streamed in chunks
or read whole.

The model is split into these modules:

- `Books`: the three row shapes (source row, transformed row, destination row).
  Prices are fixed-point integers: hundredths before rounding, tenths after.
- `Transform` (`transform_data`): pure functions on a sequence of rows.
- `Retrying` (`retry`): a method with a loop. It takes the outcome of each
  successive call of the operation, including the random draw that follows a
  failed call. It returns the result, the number of calls made and the log
  of the sleeps it asked for.
- `Loader` (`load_data`): the destination table is the `Destination` class,
  whose `rows` field the load updates.
  - A committed load replaces the table by `LoadedTable(old, batch)`. This
    is the old rows whose id is not in the batch, followed by the batch.
  - A load whose every attempt fails leaves the table unchanged, because
    the transaction rolls back.
  - The lemmas give the effect of a load key by key ("last writer wins").
    They give the exact table after two loads of the same batch, and show
    that re-loading a batch changes nothing exactly when the batch has no
    null-id rows or no ids at all.
  - They also show that two loads of keyed batches with disjoint ids equal
    one load of both.
- `Connection` (the required-parameter check of `connect_to_db`, called
  `_required_env` by the tests).
- `CliDate` (`_validate_cli_date`): `datetime.strptime(s, "%Y-%m-%d")`,
  written out as CPython's regular expressions for `%Y`, `%m` and `%d`, plus
  the calendar check.
- `Driver` (`main`): the argument check, the date, the connection, and then
  either the chunk loop or the whole-table path. It ends with a run status
  that maps to the exit code.
  - When every row has an id and no id occurs in two chunks, streaming in
    chunks leaves the same table as loading the whole extract at once, and
    reports the same count.

## Model

| member | source | states |
|---|---|---|
| Transform.RoundToTenths | books_etl.py:200 | The rounded price is a nearest tenth: at most half a tenth away. A tie goes to the even tenth. |
| Transform.RoundToTenthsUnique | books_etl.py:200 | Those two properties determine the rounded price, so `RoundToTenths` is the only rounding that has them. |
| Transform.Category | books_etl.py:201 | `budget` exactly when the rounded price is below 500.0, and `premium` exactly when it is 500.0 or more. |
| Transform.TransformRow | books_etl.py:198-202 | The output row has the same id, title, genre, stock and timestamp. Its original price is the price. Its rounded price and category follow the two rules above. |
| Transform.DerivedUnique | books_etl.py:198-202 | At most one output row satisfies those rules for a given input row. |
| Transform.TransformData | books_etl.py:194-203 | The output has as many rows as the input, and each output row is derived from the input row at the same index. An empty batch gives an empty batch. |
| Transform.TransformAppend | books_etl.py:194-203 | Transforming two batches one after the other gives the transform of their concatenation. |
| Transform.TransformDataAt | books_etl.py:198-202 | Each row of the transformed batch is the transform of the source row at the same index. |
| Transform.TransformSample | test_books_etl.py:30-58 | Prices 100.00, 999.99 and 499.95 round to 100.0, 1000.0 and 500.0, and are classified budget, premium, premium. |
| Retrying.DelayStep | books_etl.py:98 | Each delay is the previous one times the backoff factor. |
| Retrying.DelayNonNegative | books_etl.py:77-98 | With a non-negative base delay and backoff factor, every delay is non-negative. |
| Retrying.WaitBounds | books_etl.py:87-88 | For a draw in [0, 1], each sleep is at most maxDelay. It lies between the delay and 1.2 times the delay, both capped at maxDelay. |
| Retrying.DefaultSchedule | books_etl.py:68-98 | With the default keyword arguments, the sleeps before jitter are 1s and 2s. The second sleep is 2.4s with full jitter. With more attempts allowed, the delay after the sixth failure is capped at 20s. |
| Retrying.Retry | books_etl.py:65-101 | Returns the value of the first call that returns, having made exactly the calls up to it. It returns a value exactly when some allowed call returns and every sleep before it has a non-negative length. When it raises the last error, it has made every allowed call and each raised. With no attempts it fails the `last_exc` assertion. It sleeps after every failed call except the last one, for the jittered and capped backoff delay. A negative sleep length makes `time.sleep` raise, which ends the retry at that call. |
| Retrying.RejectedFails | books_etl.py:87-97 | Once the sleep after a failed call would be negative, the retry cannot succeed: `time.sleep` raises before any later call is made. |
| Loader.Project | books_etl.py:210-211 | Keeps the six destination columns of every row, in order. |
| Loader.RowIds | books_etl.py:213 | The set of the batch's non-null book ids, each listed once. |
| Loader.Purge | books_etl.py:217-223 | The delete keeps no row whose id is in the set. |
| Loader.PurgeTwice | books_etl.py:217-223 | Two deletes in a row are one delete of the union of their id sets. |
| Loader.WithIdPurge | books_etl.py:217-223 | After the delete, a deleted id has no rows left, and every other id keeps all of its rows. |
| Loader.UnkeyedPurge | books_etl.py:217-223 | Rows with a null id survive every delete, because `IN` never matches null. |
| Loader.PurgeKeyed | books_etl.py:217-223 | Deleting every id of a batch from that batch leaves exactly its null-id rows. |
| Loader.KeyedBatch | books_etl.py:213-215 | A non-empty batch in which every row has an id is always loaded: it has ids and no null-id rows. |
| Loader.LoadCount | books_etl.py:206-232 | The returned count is 0 or the batch length. It is the batch length exactly when the batch is empty or has a non-null id. |
| Loader.LoadWithoutIds | books_etl.py:207-215 | An empty batch, or one whose ids are all null, leaves the table unchanged and returns 0. |
| Loader.LoadByKey | books_etl.py:213-231 | After a load, each id of the batch has exactly the batch's rows. Every other id keeps its old rows. The null-id rows are the old ones followed by the batch's. |
| Loader.LoadTwice | books_etl.py:213-231 | The exact table after loading the same batch twice: the keyed rows once, and the null-id rows twice. |
| Loader.LoadIdempotentIff | books_etl.py:213-231 | Loading a batch a second time changes nothing exactly when the batch has no ids or no null-id rows. |
| Loader.LoadIdempotent | books_etl.py:14 | For a batch in which every row has an id, a second load leaves the table as the first one did. |
| Loader.ConsecutiveLoads | books_etl.py:206-232 | Two keyed batches with disjoint ids, loaded one after the other, leave the table that one load of both would. |
| Loader.Destination.constructor | test_books_etl.py:119-133 | A destination holding the given rows. |
| Loader.Destination.Commit | books_etl.py:221-231 | The transaction body: the new table is the old one without the batch's ids, followed by the batch. |
| Loader.Destination.Load | books_etl.py:206-243 | Succeeds exactly when the batch has no id or the retried transaction commits. On success it returns `LoadCount` and the table becomes `LoadedTable`. On failure the table is unchanged and the retry's error is raised. |
| Connection.MissingKeys | books_etl.py:113-118 | Lists exactly the keys whose value is empty, and no others. |
| Connection.MissingKeysAppend | books_etl.py:113-118 | The missing keys are listed in the order the settings are given. |
| Connection.RequiredEnv | books_etl.py:113-121 | Fails exactly when host, name, user or password is empty. The message names every empty key, separated by ", ". |
| Connection.RequiredEnvLists | books_etl.py:113-121 | The keys named are exactly the empty ones, in the order DB_HOST, DB_NAME, DB_USER, DB_PASSWORD. |
| Connection.RequiredEnvExamples | test_books_etl.py:94-104 | An empty database name is reported as DB_NAME. A full set of settings passes. |
| CliDate.DaysInMonth | books_etl.py:159 | Months have 28 to 31 days. February has 29 exactly in Gregorian leap years, and the other months have 30 exactly when they are April, June, September or November. |
| CliDate.ValidateCliDate | books_etl.py:157-161 | An accepted date exists in the calendar, is at midnight, and its year is the first four digits of the string, which are followed by a dash. Every failure carries the one format message. |
| CliDate.ValidateCliDateRenders | books_etl.py:157-161 | An accepted string writes the date it is read as: the four-digit year, a dash, the month in two digits or one, a dash, and the day in two digits, one digit, or a space and one digit. |
| CliDate.RendersAccepted | books_etl.py:157-161 | Every string that writes a calendar date in one of those ways is read as that date at midnight. |
| CliDate.ValidateCliDateExact | books_etl.py:157-161 | A string is accepted exactly when it writes some calendar date in one of those ways. |
| CliDate.IsoDateAccepted | books_etl.py:157-161 | Round trip: every valid date written as YYYY-MM-DD is accepted as that date at midnight. |
| CliDate.ValidateCliDateExamples | test_books_etl.py:78-92 | "2025-01-01" is 2025-01-01 at midnight. "01-01-2025" and "not-a-date" are refused. |
| CliDate.ValidateCliDateShortFields | books_etl.py:159 | A one-digit month and day ("2025-1-5"), and a day written as a space and a digit ("2025-01- 5"), are accepted. |
| CliDate.ValidateCliDateLeapDay | books_etl.py:159 | 2024-02-29 is accepted and 2025-02-29 is refused. |
| CliDate.ValidateCliDateDayOverflow | books_etl.py:159 | "2025-01-32" is refused. |
| Driver.ExitCode | books_etl.py:290-313 | Exit code 0 for a completed run or one with nothing new, and 1 for a failed one. |
| Driver.HasKeyIds | books_etl.py:213-215 | A transformed chunk has ids exactly when the source chunk has a row with an id. |
| Driver.ChunkCount | books_etl.py:277-280 | The count added for a chunk is 0 or its length. |
| Driver.TransformAndLoad | books_etl.py:279-280 | Transform then load fails exactly when the chunk has an id and no attempt commits. It returns the chunk's count and leaves the table the load defines. |
| Driver.LoadChunk | books_etl.py:271-280 | One non-empty chunk moves the table one step along the fold over the chunks, or fails and leaves it where it was. |
| Driver.RunChunked | books_etl.py:267-294 | Stops at the first chunk whose load fails, keeping the chunks before it committed. Otherwise the table is the fold of all chunks and the totals are the rows extracted and the counts returned. With no non-empty chunk the run ends with nothing new. |
| Driver.ChunkedOutcome | books_etl.py:267-294 | The chunk loop stops early exactly when some non-empty chunk's load fails. |
| Driver.RunWhole | books_etl.py:296-306 | An empty extract ends with nothing new. Otherwise the run fails exactly when the load fails, and completes with the extract's length and the load's count. |
| Driver.Run | books_etl.py:246-313 | A wrong argument count, a bad date, an empty setting or a failed connection fails the run with the table untouched. Otherwise the chunk size selects the path. In chunks, the run fails exactly when some non-empty chunk's load fails; the table then holds the chunks before the first such chunk, and otherwise the fold of all chunks. On the whole-table path, the run fails exactly when the load of the whole extract fails, leaving the table untouched. A completed run reports the rows extracted and the counts the loads returned. |
| Driver.TransformIds | books_etl.py:194-213 | The loader sees the source rows' ids. A keyed extract gives a keyed batch. |
| Driver.ChunkedMatchesWhole | books_etl.py:262-306 | Streaming in chunks and loading the whole extract leave the same table and the same loaded total, provided every row has an id and no id is in two chunks. |
| Driver.LoadSample | test_books_etl.py:110-153 | Loading the three sample books over a stale row for book 1 returns 3 and leaves 3 rows. The row for book 1 carries the new title. |

## Left out

- Databases, pandas and configuration are not modelled:
  - SQL, connection pools and engine disposal are left out.
  - The extractor's query is left out. The chunks it yields are an input to `Driver.Run`, and the whole-table path loads their concatenation. The `ORDER BY` of the query is therefore not modelled.
  - Extraction failures are not modelled: the extract always yields its chunks. In the source, a failed query (books_etl.py:175-178, 188-191) or an error while reading the next chunk (books_etl.py:272) ends the run with exit code 1, keeping the chunks committed before it.
  - Configuration loading (`_load_config`, `ENV_FILE`, the defaults read with `CFG`) is left out. The settings arrive as an `EtlConfig`, and the chunk size and retry policies are fields of it.
  - The port, `sslmode` and `channel_binding` settings only shape the connection URL, so they are left out.
- Logging, the usage text beyond its first line, elapsed time and `sys.exit` are left out. A run ends in a `RunStatus`, which `ExitCode` maps to the exit code.
- A bad cutoff date raises outside the `try` of `main` and ends the process through an uncaught exception, which also gives exit code 1. The model folds it into `Failed`.
- Floating point is not modelled:
  - Prices are exact decimals (hundredths and tenths).
  - `Series.round(1)` is modelled as exact half-to-even rounding of the tenths. The binary representation errors of float64 are not modelled.
  - Retry delays are `real`.
  - `Retrying.Retry`: the random jitter and the sleeps are not performed. Each failed call carries the number `random.random()` returned after it, and the sleeps are returned as a log. The model does not require that number to lie in [0, 1); `Retrying.WaitBounds` states what follows when it does.
- Exceptions become error values:
  - The exception types and their wrapping (`ConnectionError`, `RuntimeError`) are not modelled. A failure carries a message string, or the last error of the retried operation.
  - The source retries every `Exception` (`retry_exceptions=(SQLAlchemyError, Exception)`), so the model retries every failure. Exceptions outside `Exception`, such as `KeyboardInterrupt`, are not modelled.
- Missing or NaN values:
  - A missing book id is `None`.
  - NaN prices and other missing columns are not modelled.
  - An empty frame is modelled as an empty sequence, so the column schema of an empty frame is not modelled.
- Duplicate ids within one batch are kept as they come; the destination schema's primary key, which would reject them, is not modelled.
- `CliDate.ValidateCliDate`: digits are ASCII `0`-`9`. Python's `\d` in strptime also matches other Unicode decimal digits; that case is not modelled.
- `Loader.LoadIdempotent` requires every row of the batch to have an id. Rows with a null id are inserted again by every re-load (`Loader.LoadTwice`, `Loader.LoadIdempotentIff`), so unconditional idempotence does not hold for them. Rows read from `books` by its key always have an id.
- The required-parameter check is inline in `connect_to_db`. The tests call it as `_required_env(host, name, user, password)`, a name `books_etl.py` does not define. `Connection.RequiredEnv` models the check with the tests' signature.
