/** What the usage counters' steps do, on keys, rows and hours, with the numbers written out. */
module UsageCounterMeaning {
  import opened Prelude
  import opened UsageCounters
  import opened UsageCounterRuns

  const AN_HOUR: int := 3_600_000_000

  /******* Keys and hours *******/

  // The key of a triple reads tenant, user, metric, in this order, with the word none for an
  // absent or empty id.
  lemma KeyText(tenant: string, user: string, metric: string)
    requires tenant != "" && user != ""
    ensures Encode(Triple(Some(tenant), Some(user), metric)) == tenant + ":" + user + ":" + metric
    ensures Encode(Triple(None, Some(user), metric)) == "none:" + user + ":" + metric
    ensures Encode(Triple(Some(tenant), None, metric)) == tenant + ":none:" + metric
    ensures Encode(Triple(Some(""), Some(""), metric)) == "none:none:" + metric
    ensures Encode(Triple(None, None, metric)) == "none:none:" + metric
  {
    assert tenant + [':'] + (user + [':'] + metric) == tenant + ":" + user + ":" + metric;
    assert tenant + [':'] + ("none" + [':'] + metric) == tenant + ":none:" + metric;
    assert "none" + [':'] + ("none" + [':'] + metric) == "none:none:" + metric;
    assert "none" + [':'] + (user + [':'] + metric) == "none:" + user + ":" + metric;
  }

  // A write belongs to the full hour it falls in.
  lemma HourMeans(now: int)
    ensures HourOf(now) % AN_HOUR == 0 && HourOf(now) <= now < HourOf(now) + AN_HOUR
  {
  }

  /******* The steps *******/

  // An increment adds its amount to the slot of its key and touches nothing else.
  lemma IncrementExactly(w: World, t: Triple, amount: int, now: int)
    requires Enabled(w, Increment(t, amount, now))
    ensures var w', key := Next(w, Increment(t, amount, now)), Encode(t);
      && w'.buffer == w.buffer[key := (if key in w.buffer then w.buffer[key] else 0) + amount]
      && w'.flushes == w.flushes && w'.db == w.db && w'.lost == w.lost
  {
  }

  // A flush that has its session takes the whole buffer at once, and leaves it empty.
  lemma AcquireExactly(w: World, i: nat, now: int)
    requires Enabled(w, Acquire(i, now))
    ensures var w' := Next(w, Acquire(i, now));
      && w'.buffer == map[] && w'.flushes == w.flushes[i := Writing(w.buffer, [])]
      && w'.db == w.db && w'.lost == w.lost
  {
  }

  // Writing an entry makes a row of it, for the triple its key stands for, the hour of the
  // write and its amount; nothing is in the table before the commit.
  lemma ExecuteExactly(w: World, i: nat, t: Triple, now: int)
    requires Enabled(w, Execute(i, Encode(t), now)) && Plain(t)
    ensures var f, w' := w.flushes[i], Next(w, Execute(i, Encode(t), now));
      && w'.flushes ==
         w.flushes[i := Writing(f.left - {Encode(t)}, f.rows + [Row(t, HourOf(now), f.left[Encode(t)])])]
      && w'.buffer == w.buffer && w'.db == w.db && w'.lost == w.lost
  {
    RoundTripExactly(t);
  }

  // Any call of a flush that is not over may fail. It takes what it holds with it, and
  // leaves buffer and table alone.
  lemma FailExactly(w: World, i: nat, now: int)
    requires i < |w.flushes| && w.clock <= now && w.flushes[i] != Closed
    ensures Enabled(w, Fail(i, now))
    ensures var w' := Next(w, Fail(i, now));
      && w'.flushes == w.flushes[i := Closed] && w'.lost == w.lost + [w.flushes[i]]
      && w'.buffer == w.buffer && w'.db == w.db
  {
  }

  /******* The table *******/

  // Same triple, with both ids given, and same hour: the database takes these for one.
  predicate SameRow(a: Row, b: Row) {
    a.triple == b.triple && a.window == b.window && a.triple.tenant != None && a.triple.user != None
  }

  // The amount has gone to row i, the first the database takes for the same.
  ghost predicate AddedAt(db: seq<Row>, row: Row, db': seq<Row>, i: nat) {
    && i < |db| && SameRow(db[i], row) && (forall j: nat :: j < i ==> !SameRow(db[j], row))
    && db' == db[i := Row(db[i].triple, db[i].window, db[i].amount + row.amount)]
  }

  lemma AddedBehind(first: Row, rest: seq<Row>, row: Row, rest': seq<Row>, i: nat)
    requires AddedAt(rest, row, rest', i) && !SameRow(first, row)
    ensures AddedAt([first] + rest, row, [first] + rest', i + 1)
  {
    assert forall j: nat :: 0 < j <= i ==> ([first] + rest)[j] == rest[j - 1];
  }

  // An upsert adds to the first row it takes for the same, and puts a new row behind the
  // others if there is none.
  lemma {:induction false} UpsertExactly(db: seq<Row>, row: Row)
    ensures (exists i: nat :: AddedAt(db, row, Upsert(db, row), i))
      || ((forall i: nat :: i < |db| ==> !SameRow(db[i], row)) && Upsert(db, row) == db + [row])
  {
    if db == [] {
    } else if SameRow(db[0], row) {
      assert AddedAt(db, row, Upsert(db, row), 0);
    } else {
      var rest := db[1..];
      assert db == [db[0]] + rest;
      UpsertExactly(rest, row);
      assert Upsert(db, row) == [db[0]] + Upsert(rest, row);
      if i: nat :| AddedAt(rest, row, Upsert(rest, row), i) {
        AddedBehind(db[0], rest, row, Upsert(rest, row), i);
        assert AddedAt(db, row, Upsert(db, row), i + 1);
      } else {
        forall i: nat | i < |db| ensures !SameRow(db[i], row) {
          assert i > 0 ==> db[i] == rest[i - 1];
        }
        assert Upsert(db, row) == [db[0]] + (rest + [row]);
      }
    }
  }

  ghost predicate OneEach(db: seq<Row>) {
    forall i, j :: 0 <= i < j < |db| ==> !SameRow(db[i], db[j])
  }

  lemma UpsertKeepsOneEach(db: seq<Row>, row: Row)
    requires OneEach(db)
    ensures OneEach(Upsert(db, row))
  {
    UpsertExactly(db, row);
  }

  lemma {:induction false} UpsertAllKeepsOneEach(db: seq<Row>, rows: seq<Row>)
    requires OneEach(db)
    ensures OneEach(UpsertAll(db, rows))
    decreases |rows|
  {
    if rows != [] {
      UpsertKeepsOneEach(db, rows[0]);
      UpsertAllKeepsOneEach(Upsert(db, rows[0]), rows[1..]);
    }
  }

  lemma {:induction false} OneEachRun(w: World, es: seq<Event>)
    requires OneEach(w.db) && ValidRun(w, es)
    ensures OneEach(After(w, es).db)
    decreases |es|
  {
    if es != [] {
      if es[0].Commit? {
        UpsertAllKeepsOneEach(w.db, w.flushes[es[0].i].rows);
      }
      OneEachRun(Next(w, es[0]), es[1..]);
    }
  }

  // On every run there is at most one row for a tenant, a user, a metric and an hour.
  lemma OneRowPerHour(now: int, es: seq<Event>)
    requires ValidRun(Start(now), es)
    ensures OneEach(After(Start(now), es).db)
  {
    OneEachRun(Start(now), es);
  }
}
