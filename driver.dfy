/**
 * The pipeline driver of `main`: validate the cutoff date, check the
 * connection settings, connect under retry, then either stream the extracted
 * rows chunk by chunk or take them as one batch, transforming and loading
 * each non-empty batch.
 *
 * The extractor's output is given: `chunks` is what the chunked query
 * yields, and the whole-table query yields their concatenation (the same
 * snapshot, in the same order).
 */
module Driver {
  import opened Wrappers
  import opened Books
  import opened Transform
  import opened Retrying
  import opened Loader
  import opened Connection
  import opened CliDate

  /** How a run ends; `main` exits with 0 for the first two and 1 for the third. */
  datatype RunStatus =
    | Completed(extracted: nat, loaded: nat)
    | NothingNew
    | Failed(reason: string)

  function ExitCode(status: RunStatus): (code: int)
    ensures code == 0 <==> !status.Failed?
    ensures code == 0 || code == 1
  {
    if status.Failed? then 1 else 0
  }

  /** The settings `main` and `connect_to_db` read. */
  datatype EtlConfig = EtlConfig(
    host: string,
    name: string,
    user: string,
    password: string,
    chunksize: int,
    connectPolicy: RetryPolicy,
    writePolicy: RetryPolicy)

  /** All rows of a sequence of chunks, in order. */
  function Flatten(chunks: seq<seq<Book>>): (rows: seq<Book>)
  {
    if chunks == [] then [] else Flatten(chunks[..|chunks| - 1]) + chunks[|chunks| - 1]
  }

  /** The destination after every chunk has been transformed and loaded, in order. */
  function ChunkedTable(table: seq<ProcessedRow>, chunks: seq<seq<Book>>): seq<ProcessedRow>
  {
    if chunks == [] then table
    else LoadedTable(ChunkedTable(table, chunks[..|chunks| - 1]), TransformData(chunks[|chunks| - 1]))
  }

  /** Some row of the chunk has a non-null book id, so loading it opens a transaction. */
  ghost predicate HasKey(chunk: seq<Book>)
  {
    exists j :: 0 <= j < |chunk| && chunk[j].bookId.Some?
  }

  /** The transformed chunk has ids exactly when the chunk has a keyed row. */
  lemma HasKeyIds(chunk: seq<Book>)
    ensures RowIds(Project(TransformData(chunk))) != {} <==> HasKey(chunk)
  {
    var rows := Project(TransformData(chunk));
    if HasKey(chunk) {
      var j :| 0 <= j < |chunk| && chunk[j].bookId.Some?;
      assert rows[j].bookId == Some(chunk[j].bookId.value);
    }
  }

  /** What `load_data` returns for one chunk once its load has gone through. */
  function ChunkCount(chunk: seq<Book>): (count: nat)
    ensures count == 0 || count == |chunk|
  {
    if exists j :: 0 <= j < |chunk| && chunk[j].bookId.Some? then |chunk| else 0
  }

  /** The sum of the counts `load_data` returns for the chunks. */
  function ChunkedCount(chunks: seq<seq<Book>>): nat
  {
    if chunks == [] then 0
    else ChunkedCount(chunks[..|chunks| - 1]) + ChunkCount(chunks[|chunks| - 1])
  }

  /** The load of a chunk fails: it has a keyed row and no transaction attempt commits. */
  ghost predicate LoadFails(chunk: seq<Book>, txCalls: seq<Call<(), string>>, policy: RetryPolicy)
  {
    HasKey(chunk) && !Succeeds(txCalls, policy)
  }

  /** The table fold over a prefix one chunk longer. */
  lemma PrefixTable(table: seq<ProcessedRow>, chunks: seq<seq<Book>>, i: int)
    requires 0 <= i < |chunks|
    ensures ChunkedTable(table, chunks[..i + 1]) == LoadedTable(ChunkedTable(table, chunks[..i]), TransformData(chunks[i]))
  {
    assert chunks[..i + 1][..i] == chunks[..i];
  }

  /** An empty chunk leaves the table fold where it was. */
  lemma PrefixEmpty(table: seq<ProcessedRow>, chunks: seq<seq<Book>>, i: int)
    requires 0 <= i < |chunks| && chunks[i] == []
    ensures ChunkedTable(table, chunks[..i + 1]) == ChunkedTable(table, chunks[..i])
  {
    PrefixTable(table, chunks, i);
    LoadWithoutIds(ChunkedTable(table, chunks[..i]), TransformData(chunks[i]));
  }

  /** The extracted and loaded totals over a prefix one chunk longer. */
  lemma PrefixCounts(chunks: seq<seq<Book>>, i: int)
    requires 0 <= i < |chunks|
    ensures Flatten(chunks[..i + 1]) == Flatten(chunks[..i]) + chunks[i]
    ensures |Flatten(chunks[..i + 1])| == |Flatten(chunks[..i])| + |chunks[i]|
    ensures ChunkedCount(chunks[..i + 1]) == ChunkedCount(chunks[..i]) + ChunkCount(chunks[i])
  {
    assert chunks[..i + 1][..i] == chunks[..i];
  }

  lemma FlattenLength(chunks: seq<seq<Book>>)
    ensures |Flatten(chunks)| == 0 <==> forall i :: 0 <= i < |chunks| ==> chunks[i] == []
  {
    if chunks != [] {
      var init := chunks[..|chunks| - 1];
      FlattenLength(init);
      assert forall i :: 0 <= i < |init| ==> init[i] == chunks[i];
    }
  }

  /** `load_data(transform_data(batch))`. */
  method TransformAndLoad(dest: Destination, batch: seq<Book>, txCalls: seq<Call<(), string>>, policy: RetryPolicy)
    returns (r: Result<nat, RetryFailure<string>>)
    requires policy.attempts <= |txCalls|
    modifies dest
    ensures r.Err? <==> LoadFails(batch, txCalls, policy)
    ensures r.Ok? ==> r.value == ChunkCount(batch)
    ensures dest.rows == if r.Ok? then LoadedTable(old(dest.rows), TransformData(batch)) else old(dest.rows)
  {
    var transformed := TransformData(batch);
    HasKeyIds(batch);
    r := dest.Load(transformed, txCalls, policy);
  }

  /** No load among the first `n` chunks fails (empty chunks are never loaded). */
  ghost predicate LoadsSucceed(chunks: seq<seq<Book>>, txCalls: seq<seq<Call<(), string>>>, policy: RetryPolicy, n: nat)
    requires n <= |chunks| <= |txCalls|
  {
    n == 0 || (LoadsSucceed(chunks, txCalls, policy, n - 1) && (chunks[n - 1] == [] || !LoadFails(chunks[n - 1], txCalls[n - 1], policy)))
  }

  lemma {:induction false} LoadsSucceedAll(chunks: seq<seq<Book>>, txCalls: seq<seq<Call<(), string>>>, policy: RetryPolicy, n: nat)
    requires n <= |chunks| <= |txCalls|
    ensures LoadsSucceed(chunks, txCalls, policy, n) <==>
              forall j :: 0 <= j < n ==> chunks[j] == [] || !LoadFails(chunks[j], txCalls[j], policy)
  {
    if n > 0 {
      LoadsSucceedAll(chunks, txCalls, policy, n - 1);
    }
  }

  /** One non-empty chunk of the loop in `main`, as a step of the fold over the chunks. */
  method LoadChunk(dest: Destination, chunks: seq<seq<Book>>, txCalls: seq<seq<Call<(), string>>>, policy: RetryPolicy,
                   i: nat, ghost start: seq<ProcessedRow>)
    returns (r: Result<nat, RetryFailure<string>>)
    requires i < |chunks| == |txCalls| && policy.attempts <= |txCalls[i]|
    requires dest.rows == ChunkedTable(start, chunks[..i])
    modifies dest
    ensures r.Err? <==> LoadFails(chunks[i], txCalls[i], policy)
    ensures r.Ok? ==> dest.rows == ChunkedTable(start, chunks[..i + 1]) && r.value == ChunkCount(chunks[i])
    ensures r.Err? ==> dest.rows == ChunkedTable(start, chunks[..i])
  {
    PrefixTable(start, chunks, i);
    r := TransformAndLoad(dest, chunks[i], txCalls[i], policy);
  }

  /**
   * The chunk loop of `main`. Empty chunks are skipped; every other chunk is
   * transformed and loaded, the extracted total growing by its length and the
   * loaded total by what the load returns. A failing load ends the run with
   * the chunks before it committed; a run without any non-empty chunk ends
   * with nothing new.
   */
  method RunChunked(dest: Destination, chunks: seq<seq<Book>>, txCalls: seq<seq<Call<(), string>>>, policy: RetryPolicy)
    returns (status: RunStatus, ghost stop: nat)
    requires |txCalls| == |chunks|
    requires forall i :: 0 <= i < |chunks| ==> policy.attempts <= |txCalls[i]|
    modifies dest
    ensures stop <= |chunks| && LoadsSucceed(chunks, txCalls, policy, stop)
    ensures status.Failed? <==> stop < |chunks|
    ensures status.Failed? ==> chunks[stop] != [] && LoadFails(chunks[stop], txCalls[stop], policy)
    ensures dest.rows == ChunkedTable(old(dest.rows), chunks[..stop])
    ensures status.NothingNew? <==> !status.Failed? && forall i :: 0 <= i < |chunks| ==> chunks[i] == []
    ensures status.Completed? ==> status.extracted == |Flatten(chunks)| && status.loaded == ChunkedCount(chunks)
  {
    ghost var start := dest.rows;
    var extractedTotal, loadedTotal := 0, 0;
    var anyRows := false;
    var i := 0;
    while i < |chunks|
      invariant 0 <= i <= |chunks|
      invariant dest.rows == ChunkedTable(start, chunks[..i])
      invariant extractedTotal == |Flatten(chunks[..i])|
      invariant loadedTotal == ChunkedCount(chunks[..i])
      invariant anyRows <==> extractedTotal > 0
      invariant LoadsSucceed(chunks, txCalls, policy, i)
    {
      PrefixCounts(chunks, i);
      if chunks[i] == [] {
        PrefixEmpty(start, chunks, i);
      } else {
        anyRows := true;
        extractedTotal := extractedTotal + |chunks[i]|;
        var loaded := LoadChunk(dest, chunks, txCalls, policy, i, start);
        if loaded.Err? {
          return Failed("load failed"), i;
        }
        loadedTotal := loadedTotal + loaded.value;
      }
      assert LoadsSucceed(chunks, txCalls, policy, i + 1);
      i := i + 1;
    }
    stop := i;
    assert chunks[..i] == chunks;
    FlattenLength(chunks);
    if !anyRows {
      status := NothingNew;
    } else {
      status := Completed(extractedTotal, loadedTotal);
    }
  }

  /**
   * Where the chunk loop stops tells whether some load fails: it stops early
   * exactly when a non-empty chunk's load fails.
   */
  lemma ChunkedOutcome(chunks: seq<seq<Book>>, txCalls: seq<seq<Call<(), string>>>, policy: RetryPolicy, stop: nat)
    requires stop <= |chunks| <= |txCalls| && LoadsSucceed(chunks, txCalls, policy, stop)
    requires stop < |chunks| ==> chunks[stop] != [] && LoadFails(chunks[stop], txCalls[stop], policy)
    ensures stop < |chunks| <==> exists k :: 0 <= k < |chunks| && chunks[k] != [] && LoadFails(chunks[k], txCalls[k], policy)
  {
    LoadsSucceedAll(chunks, txCalls, policy, stop);
  }

  /**
   * The whole-table path, taken when the chunk size is not positive: an empty
   * extract ends the run with nothing new, otherwise the rows are transformed
   * and loaded as one batch.
   */
  method RunWhole(dest: Destination, rows: seq<Book>, txCalls: seq<Call<(), string>>, policy: RetryPolicy)
    returns (status: RunStatus)
    requires policy.attempts <= |txCalls|
    modifies dest
    ensures status.NothingNew? <==> rows == []
    ensures status.Failed? <==> LoadFails(rows, txCalls, policy)
    ensures status.Completed? ==> status.extracted == |rows| && status.loaded == ChunkCount(rows)
    ensures dest.rows == if status.Failed? then old(dest.rows) else ChunkedTable(old(dest.rows), [rows])
  {
    if rows == [] {
      LoadWithoutIds(dest.rows, TransformData(rows));
      return NothingNew;
    }
    var loaded := TransformAndLoad(dest, rows, txCalls, policy);
    if loaded.Err? {
      return Failed("load failed");
    }
    status := Completed(|rows|, loaded.value);
  }

  /** The connection step fails: a required setting is empty or no connection attempt succeeds. */
  ghost predicate ConnectFails(config: EtlConfig, connectCalls: seq<Call<(), string>>)
  {
    RequiredEnv(config.host, config.name, config.user, config.password).Err?
    || !Succeeds(connectCalls, config.connectPolicy)
  }

  /** The first line of the usage text `main` prints when not given exactly one argument. */
  const USAGE := "Використання: python books_etl_v3.py YYYY-MM-DD"

  /**
   * The run stops before anything is extracted: the command line does not
   * hold exactly one argument, the argument is not a date, or the
   * connection step fails.
   */
  ghost predicate StartFails(args: seq<string>, config: EtlConfig, connectCalls: seq<Call<(), string>>)
  {
    |args| != 1 || ValidateCliDate(args[0]).Err? || ConnectFails(config, connectCalls)
  }

  /**
   * `main`, given the command-line arguments after the program name: a
   * wrong argument count, a malformed cutoff date or a failed connection
   * ends the run before anything is extracted; otherwise the chunked loop
   * runs when the chunk size is positive and the whole-table path when it
   * is not.
   */
  method Run(dest: Destination, args: seq<string>, config: EtlConfig, connectCalls: seq<Call<(), string>>,
             chunks: seq<seq<Book>>, chunkTx: seq<seq<Call<(), string>>>, wholeTx: seq<Call<(), string>>)
    returns (status: RunStatus)
    requires config.connectPolicy.attempts <= |connectCalls|
    requires |chunkTx| == |chunks|
    requires forall i :: 0 <= i < |chunks| ==> config.writePolicy.attempts <= |chunkTx[i]|
    requires config.writePolicy.attempts <= |wholeTx|
    modifies dest
    ensures StartFails(args, config, connectCalls) ==>
              status.Failed? && dest.rows == old(dest.rows)
    ensures !StartFails(args, config, connectCalls) && config.chunksize > 0 ==>
              && (status.Failed? <==> exists k :: 0 <= k < |chunks| && LoadFails(chunks[k], chunkTx[k], config.writePolicy))
              && (status.NothingNew? <==> forall i :: 0 <= i < |chunks| ==> chunks[i] == [])
              && (!status.Failed? ==> dest.rows == ChunkedTable(old(dest.rows), chunks))
              && (status.Failed? ==>
                    exists k :: 0 <= k < |chunks| && chunks[k] != [] && LoadFails(chunks[k], chunkTx[k], config.writePolicy)
                                && LoadsSucceed(chunks, chunkTx, config.writePolicy, k)
                                && dest.rows == ChunkedTable(old(dest.rows), chunks[..k]))
              && (status.Completed? ==> status.loaded == ChunkedCount(chunks))
    ensures !StartFails(args, config, connectCalls) && config.chunksize <= 0 ==>
              && (status.Failed? <==> LoadFails(Flatten(chunks), wholeTx, config.writePolicy))
              && (status.NothingNew? <==> Flatten(chunks) == [])
              && (!status.Failed? ==> dest.rows == ChunkedTable(old(dest.rows), [Flatten(chunks)]))
              && (status.Failed? ==> dest.rows == old(dest.rows))
              && (status.Completed? ==> status.loaded == ChunkCount(Flatten(chunks)))
    ensures status.Completed? ==> status.extracted == |Flatten(chunks)|
  {
    if |args| != 1 {
      return Failed(USAGE);
    }
    var date := ValidateCliDate(args[0]);
    if date.Err? {
      return Failed(date.error);
    }
    var settings := RequiredEnv(config.host, config.name, config.user, config.password);
    if settings.Err? {
      return Failed(settings.error);
    }
    var connected, _, _ := Retry(connectCalls, config.connectPolicy);
    if connected.Err? {
      return Failed("connection failed");
    }
    if config.chunksize > 0 {
      ghost var stop;
      status, stop := RunChunked(dest, chunks, chunkTx, config.writePolicy);
      ChunkedOutcome(chunks, chunkTx, config.writePolicy, stop);
      assert !status.Failed? ==> chunks[..stop] == chunks;
    } else {
      status := RunWhole(dest, Flatten(chunks), wholeTx, config.writePolicy);
    }
  }

  // ---------------------------------------------------------------------
  // Chunked and whole-table runs agree

  /** The distinct non-null book ids of some source rows. */
  function BookIds(rows: seq<Book>): (ids: set<int>)
    ensures forall id :: id in ids <==> exists i :: 0 <= i < |rows| && rows[i].bookId == Some(id)
  {
    set i | 0 <= i < |rows| && rows[i].bookId.Some? :: rows[i].bookId.value
  }

  ghost predicate Keyed(rows: seq<Book>)
  {
    forall i :: 0 <= i < |rows| ==> rows[i].bookId.Some?
  }

  /**
   * What the source table's key gives the extracted chunks: every row has an
   * id, and no id occurs in two chunks.
   */
  ghost predicate KeyedDisjoint(chunks: seq<seq<Book>>)
  {
    && (forall i :: 0 <= i < |chunks| ==> Keyed(chunks[i]))
    && (forall i, j :: 0 <= i < j < |chunks| ==> BookIds(chunks[i]) !! BookIds(chunks[j]))
  }

  /** The loader sees the ids of the source rows. */
  lemma TransformIds(rows: seq<Book>)
    ensures RowIds(Project(TransformData(rows))) == BookIds(rows)
    ensures Keyed(rows) ==> AllKeyed(TransformData(rows))
  {
    var p := Project(TransformData(rows));
    forall id | id in BookIds(rows) ensures id in RowIds(p) {
      var i :| 0 <= i < |rows| && rows[i].bookId == Some(id);
      assert p[i].bookId == Some(id);
    }
  }

  lemma BookIdsAppend(a: seq<Book>, b: seq<Book>)
    ensures BookIds(a + b) == BookIds(a) + BookIds(b)
  {
    forall id | id in BookIds(a + b) ensures id in BookIds(a) + BookIds(b) {
      var i :| 0 <= i < |a + b| && (a + b)[i].bookId == Some(id);
      if i < |a| { assert a[i].bookId == Some(id); } else { assert b[i - |a|].bookId == Some(id); }
    }
    forall id | id in BookIds(a) + BookIds(b) ensures id in BookIds(a + b) {
      if id in BookIds(a) {
        var i :| 0 <= i < |a| && a[i].bookId == Some(id);
        assert (a + b)[i].bookId == Some(id);
      } else {
        var i :| 0 <= i < |b| && b[i].bookId == Some(id);
        assert (a + b)[|a| + i].bookId == Some(id);
      }
    }
  }

  /** An id of the flattened chunks comes from one of the chunks. */
  lemma {:induction false} FlattenIds(chunks: seq<seq<Book>>, id: int)
    requires id in BookIds(Flatten(chunks))
    ensures exists i :: 0 <= i < |chunks| && id in BookIds(chunks[i])
  {
    var init, last := chunks[..|chunks| - 1], chunks[|chunks| - 1];
    BookIdsAppend(Flatten(init), last);
    if id in BookIds(Flatten(init)) {
      FlattenIds(init, id);
      var i :| 0 <= i < |init| && id in BookIds(init[i]);
      assert chunks[i] == init[i];
    }
  }

  lemma {:induction false} FlattenKeyed(chunks: seq<seq<Book>>)
    requires forall i :: 0 <= i < |chunks| ==> Keyed(chunks[i])
    ensures Keyed(Flatten(chunks))
  {
    if chunks != [] {
      var init, last := chunks[..|chunks| - 1], chunks[|chunks| - 1];
      assert forall i :: 0 <= i < |init| ==> init[i] == chunks[i];
      FlattenKeyed(init);
      var all := Flatten(init) + last;
      forall i | 0 <= i < |all| ensures all[i].bookId.Some? {
        if i >= |Flatten(init)| { assert all[i] == last[i - |Flatten(init)|]; }
      }
    }
  }

  lemma ChunkCountKeyed(rows: seq<Book>)
    requires Keyed(rows)
    ensures ChunkCount(rows) == |rows|
  {
    if rows != [] {
      assert rows[0].bookId.Some?;
    }
  }

  /**
   * Streaming in chunks and loading the whole extract at once leave the same
   * destination table and report the same number of loaded rows, when every
   * row has an id and no id occurs in two chunks.
   */
  lemma {:induction false} ChunkedMatchesWhole(table: seq<ProcessedRow>, chunks: seq<seq<Book>>)
    requires KeyedDisjoint(chunks)
    ensures ChunkedTable(table, chunks) == ChunkedTable(table, [Flatten(chunks)])
    ensures ChunkedCount(chunks) == |Flatten(chunks)|
  {
    if chunks == [] {
      LoadWithoutIds(table, TransformData([]));
    } else {
      var init, last := chunks[..|chunks| - 1], chunks[|chunks| - 1];
      assert forall i :: 0 <= i < |init| ==> init[i] == chunks[i];
      assert KeyedDisjoint(init);
      ChunkedMatchesWhole(table, init);
      assert [Flatten(init)][..0] == [];
      var before := Flatten(init);
      FlattenKeyed(init);
      TransformIds(before);
      TransformIds(last);
      forall id | id in BookIds(before) ensures id !in BookIds(last) {
        FlattenIds(init, id);
      }
      ConsecutiveLoads(table, TransformData(before), TransformData(last));
      TransformAppend(before, last);
      ChunkCountKeyed(last);
      assert ChunkedTable(table, [before + last]) == LoadedTable(table, TransformData(before + last));
    }
  }

  // ---------------------------------------------------------------------
  // The loader's end-to-end test

  /** A destination row left by an earlier run for book 1, carrying only its old title. */
  function StaleRow(): ProcessedRow
  {
    ProcessedRow(Some(1), "Old Title", 0, 0, "", "")
  }

  /**
   * Loading the three transformed sample books over a destination that holds
   * a stale row for book 1 returns 3 and leaves three rows, the one for book
   * 1 carrying the new title.
   */
  lemma LoadSample()
    ensures LoadCount(TransformData(SampleBooks())) == 3
    ensures |LoadedTable([StaleRow()], TransformData(SampleBooks()))| == 3
    ensures |WithId(LoadedTable([StaleRow()], TransformData(SampleBooks())), 1)| == 1
    ensures WithId(LoadedTable([StaleRow()], TransformData(SampleBooks())), 1)[0].title == "Cheap Book"
  {
    var batch := TransformData(SampleBooks());
    var p := Project(batch);
    TransformSample();
    TransformDataAt(SampleBooks(), 0);
    TransformDataAt(SampleBooks(), 1);
    TransformDataAt(SampleBooks(), 2);
    assert p[0].bookId == Some(1) && p[1].bookId == Some(2) && p[2].bookId == Some(3);
    assert 1 in RowIds(p);
    assert Purge([StaleRow()], RowIds(p)) == [];
    LoadByKey([StaleRow()], batch, 1);
    assert p[1..][1..][1..] == [];
    assert WithId(p[1..][1..], 1) == [];
    assert WithId(p, 1) == [p[0]];
  }
}
