/**
 * The idempotent loader `load_data` and the destination table it rewrites.
 *
 * A load projects the batch onto the destination columns, collects its
 * distinct non-null book ids and, in one transaction, deletes every
 * destination row with one of those ids and appends the whole batch. The
 * transaction runs under `retry`; a failed attempt rolls back.
 */
module Loader {
  import opened Wrappers
  import opened Books
  import opened Retrying

  /** One row restricted to the six destination columns. */
  function ProjectRow(book: ProcessedBook): ProcessedRow
  {
    ProcessedRow(book.bookId, book.title, book.originalPrice, book.roundedPrice, book.genre, book.priceCategory)
  }

  /** `df[cols]`: the batch restricted to the destination columns, row for row. */
  function Project(batch: seq<ProcessedBook>): (rows: seq<ProcessedRow>)
    ensures |rows| == |batch|
    ensures forall i :: 0 <= i < |batch| ==>
              && rows[i].bookId == batch[i].bookId
              && rows[i].title == batch[i].title
              && rows[i].originalPrice == batch[i].originalPrice
              && rows[i].roundedPrice == batch[i].roundedPrice
              && rows[i].genre == batch[i].genre
              && rows[i].priceCategory == batch[i].priceCategory
  {
    seq(|batch|, i requires 0 <= i < |batch| => ProjectRow(batch[i]))
  }

  /** Every row of the batch has a non-null book id. */
  ghost predicate AllKeyed(batch: seq<ProcessedBook>)
  {
    forall i :: 0 <= i < |batch| ==> batch[i].bookId.Some?
  }

  /** `book_id.dropna().astype(int).unique()`: the distinct non-null ids of some rows. */
  function RowIds(rows: seq<ProcessedRow>): (ids: set<int>)
    ensures forall id :: id in ids <==> exists i :: 0 <= i < |rows| && rows[i].bookId == Some(id)
  {
    set i | 0 <= i < |rows| && rows[i].bookId.Some? :: rows[i].bookId.value
  }

  /** `book_id IN ids`: a row with a null id never matches. */
  predicate Matches(row: ProcessedRow, ids: set<int>)
  {
    row.bookId.Some? && row.bookId.value in ids
  }

  /**
   * The table after `DELETE ... WHERE book_id IN ids`: the rows that do not
   * match, each as often as before, in their old order.
   */
  function Purge(table: seq<ProcessedRow>, ids: set<int>): (kept: seq<ProcessedRow>)
    ensures |kept| <= |table|
    ensures forall i :: 0 <= i < |kept| ==> !Matches(kept[i], ids)
  {
    if table == [] then []
    else
      (if Matches(table[0], ids) then [] else [table[0]]) + Purge(table[1..], ids)
  }

  /** The rows with a null book id, in order. */
  function Unkeyed(rows: seq<ProcessedRow>): (nulls: seq<ProcessedRow>)
    ensures |nulls| <= |rows|
    ensures forall i :: 0 <= i < |nulls| ==> nulls[i].bookId.None?
  {
    if rows == [] then []
    else
      (if rows[0].bookId.None? then [rows[0]] else []) + Unkeyed(rows[1..])
  }

  /** The rows whose book id is `id`, in order: what `WHERE book_id = id` selects. */
  function WithId(rows: seq<ProcessedRow>, id: int): (selected: seq<ProcessedRow>)
    ensures |selected| <= |rows|
    ensures forall i :: 0 <= i < |selected| ==> selected[i].bookId == Some(id)
  {
    if rows == [] then []
    else
      (if rows[0].bookId == Some(id) then [rows[0]] else []) + WithId(rows[1..], id)
  }

  /**
   * The destination table after a committed load of `batch`: the old rows
   * whose id is not among the batch's ids, followed by the whole batch. A
   * batch with no non-null id is not loaded at all.
   */
  function LoadedTable(table: seq<ProcessedRow>, batch: seq<ProcessedBook>): seq<ProcessedRow>
  {
    var toLoad := Project(batch);
    var ids := RowIds(toLoad);
    if ids == {} then table else Purge(table, ids) + toLoad
  }

  /** The count `load_data` returns once its transaction has committed (or was skipped). */
  function LoadCount(batch: seq<ProcessedBook>): (count: nat)
    ensures count == 0 || count == |batch|
    ensures count == |batch| <==> batch == [] || exists i :: 0 <= i < |batch| && batch[i].bookId.Some?
  {
    if RowIds(Project(batch)) == {} then 0 else |batch|
  }

  // ---------------------------------------------------------------------
  // The delete step

  lemma {:induction false} PurgeAppend(a: seq<ProcessedRow>, b: seq<ProcessedRow>, ids: set<int>)
    ensures Purge(a + b, ids) == Purge(a, ids) + Purge(b, ids)
  {
    if a == [] {
      assert a + b == b;
    } else {
      assert (a + b)[0] == a[0] && (a + b)[1..] == a[1..] + b;
      PurgeAppend(a[1..], b, ids);
    }
  }

  /** Deleting two id sets one after the other deletes their union. */
  lemma {:induction false} PurgeTwice(table: seq<ProcessedRow>, first: set<int>, second: set<int>)
    ensures Purge(Purge(table, first), second) == Purge(table, first + second)
  {
    if table != [] {
      PurgeTwice(table[1..], first, second);
      if !Matches(table[0], first) {
        var head := if Matches(table[0], second) then [] else [table[0]];
        assert Purge(table, first) == [table[0]] + Purge(table[1..], first);
        PurgeAppend([table[0]], Purge(table[1..], first), second);
        assert [table[0]][1..] == [];
        assert Purge([table[0]], second) == head;
        assert Matches(table[0], first + second) == Matches(table[0], second);
        assert Purge(table, first + second) == head + Purge(table[1..], first + second);
        assert Purge(Purge(table, first), second) == head + Purge(Purge(table[1..], first), second);
      } else {
        assert Purge(table, first) == Purge(table[1..], first);
        assert Purge(table, first + second) == Purge(table[1..], first + second);
      }
    }
  }

  /** A delete that matches no row changes nothing. */
  lemma {:induction false} PurgeNoMatch(table: seq<ProcessedRow>, ids: set<int>)
    requires forall i :: 0 <= i < |table| ==> !Matches(table[i], ids)
    ensures Purge(table, ids) == table
  {
    if table != [] {
      PurgeNoMatch(table[1..], ids);
    }
  }

  /** Deleting a set that holds every non-null id of some rows leaves their null-id rows. */
  lemma {:induction false} PurgeKeyed(rows: seq<ProcessedRow>, ids: set<int>)
    requires RowIds(rows) <= ids
    ensures Purge(rows, ids) == Unkeyed(rows)
  {
    if rows != [] {
      assert RowIds(rows[1..]) <= RowIds(rows) by {
        forall id | id in RowIds(rows[1..]) ensures id in RowIds(rows) {
          var i :| 0 <= i < |rows[1..]| && rows[1..][i].bookId == Some(id);
          assert rows[i + 1].bookId == Some(id);
        }
      }
      PurgeKeyed(rows[1..], ids);
      assert rows[0].bookId.Some? ==> rows[0].bookId.value in RowIds(rows);
    }
  }

  lemma {:induction false} UnkeyedAppend(a: seq<ProcessedRow>, b: seq<ProcessedRow>)
    ensures Unkeyed(a + b) == Unkeyed(a) + Unkeyed(b)
  {
    if a == [] {
      assert a + b == b;
    } else {
      assert (a + b)[0] == a[0] && (a + b)[1..] == a[1..] + b;
      UnkeyedAppend(a[1..], b);
    }
  }

  lemma {:induction false} WithIdAppend(a: seq<ProcessedRow>, b: seq<ProcessedRow>, id: int)
    ensures WithId(a + b, id) == WithId(a, id) + WithId(b, id)
  {
    if a == [] {
      assert a + b == b;
    } else {
      assert (a + b)[0] == a[0] && (a + b)[1..] == a[1..] + b;
      WithIdAppend(a[1..], b, id);
    }
  }

  /** After the delete, an id of the set has no row left and any other id keeps all its rows. */
  lemma {:induction false} WithIdPurge(table: seq<ProcessedRow>, ids: set<int>, id: int)
    ensures WithId(Purge(table, ids), id) == if id in ids then [] else WithId(table, id)
  {
    if table != [] {
      WithIdPurge(table[1..], ids, id);
      var head := if Matches(table[0], ids) then [] else [table[0]];
      WithIdAppend(head, Purge(table[1..], ids), id);
    }
  }

  /** The null-id rows survive any delete. */
  lemma {:induction false} UnkeyedPurge(table: seq<ProcessedRow>, ids: set<int>)
    ensures Unkeyed(Purge(table, ids)) == Unkeyed(table)
  {
    if table != [] {
      UnkeyedPurge(table[1..], ids);
      var head := if Matches(table[0], ids) then [] else [table[0]];
      UnkeyedAppend(head, Purge(table[1..], ids));
    }
  }

  lemma ProjectAppend(a: seq<ProcessedBook>, b: seq<ProcessedBook>)
    ensures Project(a + b) == Project(a) + Project(b)
  {
    assert forall i :: 0 <= i < |a + b| ==> Project(a + b)[i] == ProjectRow((a + b)[i]);
  }

  lemma RowIdsAppend(a: seq<ProcessedRow>, b: seq<ProcessedRow>)
    ensures RowIds(a + b) == RowIds(a) + RowIds(b)
  {
    forall id | id in RowIds(a + b) ensures id in RowIds(a) + RowIds(b) {
      var i :| 0 <= i < |a + b| && (a + b)[i].bookId == Some(id);
      if i < |a| { assert a[i].bookId == Some(id); } else { assert b[i - |a|].bookId == Some(id); }
    }
    forall id | id in RowIds(a) + RowIds(b) ensures id in RowIds(a + b) {
      if id in RowIds(a) {
        var i :| 0 <= i < |a| && a[i].bookId == Some(id);
        assert (a + b)[i].bookId == Some(id);
      } else {
        var i :| 0 <= i < |b| && b[i].bookId == Some(id);
        assert (a + b)[|a| + i].bookId == Some(id);
      }
    }
  }

  lemma {:induction false} UnkeyedNone(rows: seq<ProcessedRow>)
    requires forall i :: 0 <= i < |rows| ==> rows[i].bookId.Some?
    ensures Unkeyed(rows) == []
  {
    if rows != [] {
      UnkeyedNone(rows[1..]);
    }
  }

  lemma {:induction false} WithIdNone(rows: seq<ProcessedRow>, id: int)
    requires forall i :: 0 <= i < |rows| ==> rows[i].bookId != Some(id)
    ensures WithId(rows, id) == []
  {
    if rows != [] {
      WithIdNone(rows[1..], id);
    }
  }

  /** A keyed batch has no null-id rows, and a non-empty one has an id. */
  lemma KeyedBatch(batch: seq<ProcessedBook>)
    requires AllKeyed(batch)
    ensures Unkeyed(Project(batch)) == []
    ensures batch != [] ==> RowIds(Project(batch)) != {}
  {
    var rows := Project(batch);
    UnkeyedNone(rows);
    if batch != [] {
      assert rows[0].bookId == Some(rows[0].bookId.value);
    }
  }

  // ---------------------------------------------------------------------
  // What a committed load does

  /**
   * Last writer wins, key by key: after a load of a batch with ids, the rows
   * for one of its ids are exactly the batch's rows for that id; every other
   * id keeps its old rows, and the null-id rows are the old ones followed by
   * the batch's.
   */
  lemma LoadByKey(table: seq<ProcessedRow>, batch: seq<ProcessedBook>, id: int)
    requires RowIds(Project(batch)) != {}
    ensures WithId(LoadedTable(table, batch), id) ==
              if id in RowIds(Project(batch)) then WithId(Project(batch), id) else WithId(table, id)
    ensures Unkeyed(LoadedTable(table, batch)) == Unkeyed(table) + Unkeyed(Project(batch))
    ensures |LoadedTable(table, batch)| == |Purge(table, RowIds(Project(batch)))| + |batch|
  {
    var toLoad := Project(batch);
    var ids := RowIds(toLoad);
    WithIdAppend(Purge(table, ids), toLoad, id);
    WithIdPurge(table, ids, id);
    if id !in ids {
      WithIdNone(toLoad, id);
    }
    UnkeyedAppend(Purge(table, ids), toLoad);
    UnkeyedPurge(table, ids);
  }

  /** A batch with no non-null id, in particular an empty one, leaves the table alone. */
  lemma LoadWithoutIds(table: seq<ProcessedRow>, batch: seq<ProcessedBook>)
    requires batch == [] || forall i :: 0 <= i < |batch| ==> batch[i].bookId.None?
    ensures LoadedTable(table, batch) == table
    ensures LoadCount(batch) == 0
  {
    assert RowIds(Project(batch)) == {};
  }

  /**
   * Loading the same batch again repeats only its null-id rows: the second
   * delete removes every keyed row the first one inserted.
   */
  lemma LoadTwice(table: seq<ProcessedRow>, batch: seq<ProcessedBook>)
    requires RowIds(Project(batch)) != {}
    ensures LoadedTable(table, batch) == Purge(table, RowIds(Project(batch))) + Project(batch)
    ensures LoadedTable(LoadedTable(table, batch), batch) ==
              Purge(table, RowIds(Project(batch))) + Unkeyed(Project(batch)) + Project(batch)
  {
    var toLoad := Project(batch);
    var ids := RowIds(toLoad);
    PurgeAppend(Purge(table, ids), toLoad, ids);
    PurgeTwice(table, ids, ids);
    assert ids + ids == ids;
    PurgeKeyed(toLoad, ids);
  }

  /** Re-loading a batch is a no-op exactly when the batch has no ids or no null-id rows. */
  lemma LoadIdempotentIff(table: seq<ProcessedRow>, batch: seq<ProcessedBook>)
    ensures LoadedTable(LoadedTable(table, batch), batch) == LoadedTable(table, batch)
            <==> RowIds(Project(batch)) == {} || Unkeyed(Project(batch)) == []
  {
    var toLoad := Project(batch);
    var ids := RowIds(toLoad);
    if ids != {} {
      LoadTwice(table, batch);
      var once := Purge(table, ids) + toLoad;
      var twice := Purge(table, ids) + Unkeyed(toLoad) + toLoad;
      assert LoadedTable(table, batch) == once;
      assert LoadedTable(LoadedTable(table, batch), batch) == twice;
      if Unkeyed(toLoad) == [] {
        assert twice == once;
      } else {
        assert |twice| == |once| + |Unkeyed(toLoad)|;
        assert twice != once;
      }
    }
  }

  /** `load_data` is idempotent on batches whose rows all have an id. */
  lemma LoadIdempotent(table: seq<ProcessedRow>, batch: seq<ProcessedBook>)
    requires AllKeyed(batch)
    ensures LoadedTable(LoadedTable(table, batch), batch) == LoadedTable(table, batch)
  {
    KeyedBatch(batch);
    LoadIdempotentIff(table, batch);
  }

  /** The delete and append of two batches that both have ids, done one after the other. */
  lemma ConsecutivePurges(table: seq<ProcessedRow>, p1: seq<ProcessedRow>, p2: seq<ProcessedRow>)
    requires forall i :: 0 <= i < |p1| ==> !Matches(p1[i], RowIds(p2))
    ensures Purge(Purge(table, RowIds(p1)) + p1, RowIds(p2)) + p2 == Purge(table, RowIds(p1) + RowIds(p2)) + p1 + p2
  {
    var ids1, ids2 := RowIds(p1), RowIds(p2);
    PurgeAppend(Purge(table, ids1), p1, ids2);
    PurgeTwice(table, ids1, ids2);
    PurgeNoMatch(p1, ids2);
  }

  /** No row of a batch matches a set of ids disjoint from the batch's own. */
  lemma DisjointNoMatch(rows: seq<ProcessedRow>, ids: set<int>)
    requires RowIds(rows) !! ids
    ensures forall i :: 0 <= i < |rows| ==> !Matches(rows[i], ids)
  {
    forall i | 0 <= i < |rows| ensures !Matches(rows[i], ids) {
      if rows[i].bookId.Some? {
        assert rows[i].bookId.value in RowIds(rows);
      }
    }
  }

  /** The loads of two batches that both have ids. */
  lemma ConsecutiveLoadsWithIds(table: seq<ProcessedRow>, first: seq<ProcessedBook>, second: seq<ProcessedBook>)
    requires RowIds(Project(first)) != {} && RowIds(Project(second)) != {}
    requires RowIds(Project(first)) !! RowIds(Project(second))
    ensures LoadedTable(LoadedTable(table, first), second) == LoadedTable(table, first + second)
  {
    var p1, p2 := Project(first), Project(second);
    var ids1, ids2 := RowIds(p1), RowIds(p2);
    DisjointNoMatch(p1, ids2);
    ConsecutivePurges(table, p1, p2);
    ProjectAppend(first, second);
    RowIdsAppend(p1, p2);
    var mid := Purge(table, ids1) + p1;
    assert LoadedTable(table, first) == mid;
    assert LoadedTable(mid, second) == Purge(mid, ids2) + p2;
    assert LoadedTable(table, first + second) == Purge(table, ids1 + ids2) + (p1 + p2);
  }

  /**
   * Two keyed batches with disjoint ids, loaded one after the other, leave
   * the table a single load of both would.
   */
  lemma ConsecutiveLoads(table: seq<ProcessedRow>, first: seq<ProcessedBook>, second: seq<ProcessedBook>)
    requires AllKeyed(first) && AllKeyed(second)
    requires RowIds(Project(first)) !! RowIds(Project(second))
    ensures LoadedTable(LoadedTable(table, first), second) == LoadedTable(table, first + second)
  {
    KeyedBatch(first);
    KeyedBatch(second);
    if first == [] {
      assert first + second == second;
    } else if second == [] {
      assert first + second == first;
    } else {
      ConsecutiveLoadsWithIds(table, first, second);
    }
  }

  // ---------------------------------------------------------------------
  // The destination table as state

  /** The destination table `books_processed`. */
  class Destination {
    var rows: seq<ProcessedRow>

    constructor (initial: seq<ProcessedRow>)
      ensures rows == initial
    {
      rows := initial;
    }

    /**
     * `load_data`. With an empty batch, or one whose ids are all null, it
     * returns 0 and opens no transaction. Otherwise it retries the
     * delete-and-append transaction; if an attempt commits, the table is the
     * LoadedTable and the batch length is returned, and if every attempt fails
     * the table is as it was and the last failure is raised.
     */
    method Load(batch: seq<ProcessedBook>, txCalls: seq<Call<(), string>>, policy: RetryPolicy)
      returns (r: Result<nat, RetryFailure<string>>)
      requires policy.attempts <= |txCalls|
      modifies this
      ensures r.Ok? <==> RowIds(Project(batch)) == {} || Succeeds(txCalls, policy)
      ensures r.Ok? ==> r.value == LoadCount(batch)
      ensures rows == if r.Ok? then LoadedTable(old(rows), batch) else old(rows)
    {
      if batch == [] {
        return Ok(0);
      }
      var toLoad := Project(batch);
      var ids := RowIds(toLoad);
      if ids == {} {
        return Ok(0);
      }
      var outcome, _, _ := Retry(txCalls, policy);
      if outcome.Ok? {
        Commit(ids, toLoad);
        r := Ok(|toLoad|);
      } else {
        r := Err(outcome.error);
      }
    }

    /** The body of the transaction: delete the rows with these ids, then append the batch. */
    method Commit(ids: set<int>, toLoad: seq<ProcessedRow>)
      modifies this
      ensures rows == Purge(old(rows), ids) + toLoad
    {
      rows := Purge(rows, ids);
      rows := rows + toLoad;
    }
  }
}
