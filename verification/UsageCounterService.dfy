/** The batching service as the program writes it: a buffer incremented in place, copied
    and cleared by a flush, and a loop that writes every entry. */
module UsageCounterService {
  import opened Prelude
  import opened UsageCounters
  import opened UsageCounterRuns

  function RowFor(batch: map<string, int>, times: map<string, int>, key: string): Option<Row>
    requires key in batch && key in times
  {
    match Decode(key)
    case None => None
    case Some(t) => Some(Row(t, HourOf(times[key]), batch[key]))
  }

  // The rows hold the entries of the batch that are no longer left, one row an entry.
  ghost predicate Written(rows: seq<Row>, batch: map<string, int>, left: set<string>, times: map<string, int>)
    requires batch.Keys <= times.Keys
  {
    && |rows| + |left| == |batch|
    && forall k :: k in batch && k !in left ==> exists i :: 0 <= i < |rows| && RowFor(batch, times, k) == Some(rows[i])
  }

  class UsageService {
    var buffer: map<string, int>
    var db: seq<Row>

    constructor (db: seq<Row>)
      ensures buffer == map[] && this.db == db
    {
      buffer, this.db := map[], db;
    }

    // `full` says that the caller goes on to flush.
    method Increment(t: Triple, amount: int) returns (full: bool)
      modifies this`buffer
      ensures buffer == Add(old(buffer), Encode(t), amount)
      ensures full <==> |buffer| >= 50
    {
      var key := Part(t.tenant) + [':'] + (Part(t.user) + [':'] + t.metric);
      buffer := buffer[key := Get(buffer, key) + amount];
      return |buffer| >= BATCH_SIZE;
    }

    // A flush not interleaved with others. It may fail to get a session, or after some
    // number of writes; `times` are the clock readings at its writes.
    method FlushBatch(acquired: bool, failAfter: Option<nat>, times: map<string, int>) returns (ok: bool)
      requires buffer.Keys <= times.Keys
      modifies this
      ensures buffer == if acquired then map[] else old(buffer)
      ensures ok == (old(buffer) == map[] || (acquired && failAfter.None? && AllDecodable(old(buffer))))
      ensures !ok ==> db == old(db)
      ensures ok ==> Flushed(old(db), db, old(buffer), times) && Recorded(old(db), db, old(buffer))
    {
      if buffer == map[] {
        assert Written([], buffer, {}, times) && db == UpsertAll(db, []);
        return true;
      }
      if !acquired {
        return false;
      }
      ghost var batch, before := buffer, db;
      var rows := WriteEntries(buffer, failAfter, times);
      buffer := map[];
      if rows.None? {
        return false;
      }
      db := UpsertAll(db, rows.value);
      CarriedIsRecorded(before, rows.value, batch);
      return true;
    }

    // The loop of upserts, in any order; None when one of them raises.
    static method WriteEntries(batch: map<string, int>, failAfter: Option<nat>, times: map<string, int>)
      returns (written: Option<seq<Row>>)
      requires batch.Keys <= times.Keys
      ensures written.Some? <==> failAfter.None? && AllDecodable(batch)
      ensures written.Some? ==> Written(written.value, batch, {}, times) && Carried(written.value, batch, map[])
    {
      var left := batch;
      var rows: seq<Row> := [];
      while left != map[]
        invariant left.Keys <= batch.Keys && (forall k :: k in left ==> left[k] == batch[k])
        invariant Written(rows, batch, left.Keys, times)
        invariant Carried(rows, batch, left)
        invariant forall k :: k in batch && k !in left ==> Decode(k).Some?
        decreases left.Keys
      {
        var key :| key in left;
        if failAfter.Some? && failAfter.value <= |rows| {
          return None;
        }
        var parts := Decode(key);
        if parts.None? {
          return None;
        }
        var row := Row(parts.value, HourOf(times[key]), left[key]);
        ExtendWritten(rows, row, batch, left.Keys, times, key);
        ExtendCarried(rows, row, batch, left, key);
        rows := rows + [row];
        left := left - {key};
      }
      return if failAfter.Some? then None else Some(rows);
    }
  }

  ghost predicate AllDecodable(batch: map<string, int>) {
    forall k :: k in batch ==> Decode(k).Some?
  }

  // For every key, rows and remaining entries together hold what the batch held.
  ghost predicate Carried(rows: seq<Row>, batch: map<string, int>, left: map<string, int>) {
    forall key, t :: Decode(key) == Some(t) ==> Holds(Writing(left, rows), key, t) == Get(batch, key)
  }

  // The table has been given one upsert for every entry of the batch.
  ghost predicate Flushed(before: seq<Row>, after: seq<Row>, batch: map<string, int>, times: map<string, int>)
    requires batch.Keys <= times.Keys
  {
    exists rows: seq<Row> :: Written(rows, batch, {}, times) && after == UpsertAll(before, rows)
  }

  // The table's totals have grown by the batch, key by key.
  ghost predicate Recorded(before: seq<Row>, after: seq<Row>, batch: map<string, int>) {
    forall key, t :: Decode(key) == Some(t) ==> Total(after, t) == Total(before, t) + Get(batch, key)
  }

  lemma CarriedIsRecorded(before: seq<Row>, rows: seq<Row>, batch: map<string, int>)
    requires Carried(rows, batch, map[])
    ensures Recorded(before, UpsertAll(before, rows), batch)
  {
    forall key, t | Decode(key) == Some(t)
      ensures Total(UpsertAll(before, rows), t) == Total(before, t) + Get(batch, key)
    {
      UpsertAllAdds(before, rows, t);
      assert Holds(Writing(map[], rows), key, t) == Get(batch, key);
    }
  }

  lemma ExtendCarried(rows: seq<Row>, row: Row, batch: map<string, int>, left: map<string, int>, key: string)
    requires Carried(rows, batch, left) && key in left
    requires Decode(key) == Some(row.triple) && row.amount == left[key]
    ensures Carried(rows + [row], batch, left - {key})
  {
    forall k, t | Decode(k) == Some(t)
      ensures Holds(Writing(left - {key}, rows + [row]), k, t) == Get(batch, k)
    {
      ExecuteHolds(Writing(left, rows), key, row.window, k, t);
    }
  }

  lemma ExtendWritten(rows: seq<Row>, row: Row, batch: map<string, int>, left: set<string>, times: map<string, int>,
      key: string)
    requires batch.Keys <= times.Keys && left <= batch.Keys && key in left
    requires Written(rows, batch, left, times) && RowFor(batch, times, key) == Some(row)
    ensures Written(rows + [row], batch, left - {key}, times)
  {
    var more := rows + [row];
    forall k | k in batch && k !in left - {key}
      ensures exists i :: 0 <= i < |more| && RowFor(batch, times, k) == Some(more[i])
    {
      if k == key {
        assert more[|rows|] == row;
      } else {
        var i :| 0 <= i < |rows| && RowFor(batch, times, k) == Some(rows[i]);
        assert more[i] == rows[i];
      }
    }
  }
}
