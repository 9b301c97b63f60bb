/** In which hours batched increments are recorded: an amount is recorded in the hour of its
    write, so the table agrees with direct upserts hour by hour exactly when no net amount
    waits from one hour to the next. */
module UsageCounterHours {
  import opened Prelude
  import opened UsageCounters
  import opened UsageCounterRuns

  /******* Totals up to an hour *******/

  // What the rows record for a triple in windows that start no later than h.
  function Until(rows: seq<Row>, t: Triple, h: int): int {
    if rows == [] then 0
    else (if rows[0].triple == t && rows[0].window <= h then rows[0].amount else 0) + Until(rows[1..], t, h)
  }

  function AskedUntil(asks: seq<Ask>, key: string, h: int): int {
    if asks == [] then 0
    else
      (if Encode(asks[0].triple) == key && HourOf(asks[0].at) <= h then asks[0].amount else 0)
      + AskedUntil(asks[1..], key, h)
  }

  lemma {:induction false} UntilAppend(a: seq<Row>, b: seq<Row>, t: Triple, h: int)
    ensures Until(a + b, t, h) == Until(a, t, h) + Until(b, t, h)
  {
    if a == [] {
      assert a + b == b;
    } else {
      assert (a + b)[1..] == a[1..] + b;
      UntilAppend(a[1..], b, t, h);
    }
  }

  lemma {:induction false} AskedUntilAppend(asks: seq<Ask>, a: Ask, key: string, h: int)
    ensures AskedUntil(asks + [a], key, h) ==
      AskedUntil(asks, key, h) + (if Encode(a.triple) == key && HourOf(a.at) <= h then a.amount else 0)
  {
    if asks == [] {
      assert asks + [a] == [a];
    } else {
      assert (asks + [a])[1..] == asks[1..] + [a];
      AskedUntilAppend(asks[1..], a, key, h);
    }
  }

  lemma {:induction false} UpsertUntil(db: seq<Row>, row: Row, t: Triple, h: int)
    ensures Until(Upsert(db, row), t, h) ==
      Until(db, t, h) + (if row.triple == t && row.window <= h then row.amount else 0)
  {
    if db != [] {
      UpsertUntil(db[1..], row, t, h);
    }
  }

  lemma {:induction false} UpsertAllUntil(db: seq<Row>, rows: seq<Row>, t: Triple, h: int)
    ensures Until(UpsertAll(db, rows), t, h) == Until(db, t, h) + Until(rows, t, h)
    decreases |rows|
  {
    if rows != [] {
      UpsertUntil(db, rows[0], t, h);
      UpsertAllUntil(Upsert(db, rows[0]), rows[1..], t, h);
    }
  }

  lemma {:induction false} DirectUpsertUntil(db: seq<Row>, row: Row, t: Triple, h: int)
    ensures Until(DirectUpsert(db, row), t, h) ==
      Until(db, t, h) + (if row.triple == t && row.window <= h then row.amount else 0)
  {
    if db != [] {
      DirectUpsertUntil(db[1..], row, t, h);
    }
  }

  lemma {:induction false} DirectUntil(asks: seq<Ask>, t: Triple, h: int)
    requires AllPlain(asks) && Plain(t)
    ensures Until(Direct(asks), t, h) == AskedUntil(asks, Encode(t), h)
    decreases |asks|
  {
    if asks != [] {
      var n := |asks| - 1;
      var a := asks[n];
      assert asks == asks[..n] + [a];
      DirectUntil(asks[..n], t, h);
      DirectUpsertUntil(Direct(asks[..n]), Row(a.triple, HourOf(a.at), a.amount), t, h);
      AskedUntilAppend(asks[..n], a, Encode(t), h);
      if Encode(a.triple) == Encode(t) {
        SlotsAreSeparate(a.triple, t);
      }
    }
  }

  /******* What waits, and what is behind *******/

  function Left(f: Flush, key: string): int {
    if f.Writing? then Get(f.left, key) else 0
  }

  function Rows(f: Flush, t: Triple, h: int): int {
    if f.Writing? then Until(f.rows, t, h) else 0
  }

  function AllLeft(fs: seq<Flush>, key: string): int {
    if fs == [] then 0 else Left(fs[0], key) + AllLeft(fs[1..], key)
  }

  function AllRows(fs: seq<Flush>, t: Triple, h: int): int {
    if fs == [] then 0 else Rows(fs[0], t, h) + AllRows(fs[1..], t, h)
  }

  // Asked for under a key and not yet given to an upsert.
  function Pending(w: World, key: string): int {
    Get(w.buffer, key) + AllLeft(w.flushes, key) + AllLeft(w.lost, key)
  }

  // Asked for in hours up to h and not in an upsert for such an hour.
  function Behind(w: World, key: string, t: Triple, h: int): int {
    AskedUntil(w.asked, key, h) - Until(w.db, t, h) - AllRows(w.flushes, t, h) - AllRows(w.lost, t, h)
  }

  lemma {:induction false} FlushesAppend(fs: seq<Flush>, f: Flush, key: string, t: Triple, h: int)
    ensures AllLeft(fs + [f], key) == AllLeft(fs, key) + Left(f, key)
    ensures AllRows(fs + [f], t, h) == AllRows(fs, t, h) + Rows(f, t, h)
  {
    if fs == [] {
      assert fs + [f] == [f];
    } else {
      assert (fs + [f])[1..] == fs[1..] + [f];
      FlushesAppend(fs[1..], f, key, t, h);
    }
  }

  lemma {:induction false} FlushesUpdate(fs: seq<Flush>, i: nat, f: Flush, key: string, t: Triple, h: int)
    requires i < |fs|
    ensures AllLeft(fs[i := f], key) == AllLeft(fs, key) - Left(fs[i], key) + Left(f, key)
    ensures AllRows(fs[i := f], t, h) == AllRows(fs, t, h) - Rows(fs[i], t, h) + Rows(f, t, h)
  {
    if i == 0 {
      assert fs[0 := f][1..] == fs[1..];
    } else {
      assert fs[i := f][1..] == fs[1..][i - 1 := f];
      FlushesUpdate(fs[1..], i - 1, f, key, t, h);
    }
  }

  // Writing an entry moves its amount to a row of the hour of the write.
  lemma WriteMoves(f: Flush, k: string, hour: int, key: string, t: Triple, h: int)
    requires f.Writing? && k in f.left && Decode(k).Some? && Decode(key) == Some(t)
    ensures var f' := Writing(f.left - {k}, f.rows + [Row(Decode(k).value, hour, f.left[k])]);
      && Left(f', key) == Left(f, key) - (if k == key then f.left[k] else 0)
      && Rows(f', t, h) == Rows(f, t, h) + (if k == key && hour <= h then f.left[k] else 0)
  {
    var row := Row(Decode(k).value, hour, f.left[k]);
    UntilAppend(f.rows, [row], t, h);
    assert [row][1..] == [];
    assert Until([row], t, h) == if row.triple == t && hour <= h then row.amount else 0;
    if row.triple == t {
      DecodeInjective(k, key);
    }
  }

  // An event in an hour up to h changes both alike; a later one does not change what is
  // behind.
  lemma BehindStep(w: World, e: Event, key: string, t: Triple, h: int)
    requires Enabled(w, e) && Decode(key) == Some(t)
    ensures Behind(Next(w, e), key, t, h) == Behind(w, key, t, h) +
      (if HourOf(e.now) <= h then Pending(Next(w, e), key) - Pending(w, key) else 0)
  {
    match e
    case Increment(triple, amount, now) => AskedUntilAppend(w.asked, Ask(triple, amount, now), key, h);
    case Begin(_) => FlushesAppend(w.flushes, Waiting, key, t, h);
    case Acquire(i, _) => FlushesUpdate(w.flushes, i, Writing(w.buffer, []), key, t, h);
    case Execute(i, k, now) =>
      if Decode(k).Some? {
        var f := w.flushes[i];
        WriteMoves(f, k, HourOf(now), key, t, h);
        var f' := Writing(f.left - {k}, f.rows + [Row(Decode(k).value, HourOf(now), f.left[k])]);
        FlushesUpdate(w.flushes, i, f', key, t, h);
      } else {
        AbandonMoves(w, i, key, t, h);
      }
    case Commit(i, _) =>
      FlushesUpdate(w.flushes, i, Closed, key, t, h);
      UpsertAllUntil(w.db, w.flushes[i].rows, t, h);
    case Fail(i, _) => AbandonMoves(w, i, key, t, h);
  }

  lemma AbandonMoves(w: World, i: nat, key: string, t: Triple, h: int)
    requires i < |w.flushes|
    ensures Pending(Abandon(w, i), key) == Pending(w, key)
    ensures Behind(Abandon(w, i), key, t, h) == Behind(w, key, t, h)
  {
    FlushesUpdate(w.flushes, i, Closed, key, t, h);
    FlushesAppend(w.lost, w.flushes[i], key, t, h);
  }

  /******* Hour by hour *******/

  // In the present hour and later, what is behind is what waits.
  ghost predicate Level(w: World, key: string, t: Triple) {
    forall h :: HourOf(w.clock) <= h ==> Behind(w, key, t, h) == Pending(w, key)
  }

  lemma LevelStep(w: World, e: Event, key: string, t: Triple)
    requires Enabled(w, e) && Decode(key) == Some(t) && Level(w, key, t)
    ensures Level(Next(w, e), key, t)
  {
    forall h | HourOf(e.now) <= h ensures Behind(Next(w, e), key, t, h) == Pending(Next(w, e), key) {
      BehindStep(w, e, key, t, h);
    }
  }

  // What is behind for an hour that has passed stays so.
  lemma {:induction false} PassedHour(w: World, es: seq<Event>, key: string, t: Triple, h: int)
    requires ValidRun(w, es) && Decode(key) == Some(t) && h < HourOf(w.clock)
    ensures Behind(After(w, es), key, t, h) == Behind(w, key, t, h)
    decreases |es|
  {
    if es != [] {
      BehindStep(w, es[0], key, t, h);
      PassedHour(Next(w, es[0]), es[1..], key, t, h);
    }
  }

  // Whenever an event is the first in a new hour, no net amount waits under the key.
  ghost predicate NothingWaitsOver(w: World, es: seq<Event>, key: string)
    requires ValidRun(w, es)
    decreases |es|
  {
    es == [] ||
    ((HourOf(w.clock) < HourOf(es[0].now) ==> Pending(w, key) == 0) && NothingWaitsOver(Next(w, es[0]), es[1..], key))
  }

  lemma {:induction false} BehindExactly(w: World, es: seq<Event>, key: string, t: Triple)
    requires ValidRun(w, es) && Decode(key) == Some(t) && Level(w, key, t)
    requires Pending(After(w, es), key) == 0
    ensures NothingWaitsOver(w, es, key) <==>
      forall h :: HourOf(w.clock) <= h ==> Behind(After(w, es), key, t, h) == 0
    decreases |es|
  {
    if es != [] {
      var e, w', last := es[0], Next(w, es[0]), After(w, es);
      LevelStep(w, e, key, t);
      BehindExactly(w', es[1..], key, t);
      forall h | HourOf(w.clock) <= h < HourOf(e.now) ensures Behind(last, key, t, h) == Pending(w, key) {
        BehindStep(w, e, key, t, h);
        PassedHour(w', es[1..], key, t, h);
      }
      assert HourOf(w.clock) < HourOf(e.now) ==> Behind(last, key, t, HourOf(w.clock)) == Pending(w, key);
    }
  }

  lemma {:induction false} RestHoldsNothing(fs: seq<Flush>, key: string, t: Triple, h: int)
    requires forall f :: f in fs ==> f.Closed?
    ensures AllLeft(fs, key) == 0 && AllRows(fs, t, h) == 0
  {
    if fs != [] {
      assert fs[0] in fs;
      RestHoldsNothing(fs[1..], key, t, h);
    }
  }

  // Once the service is at rest, the table has recorded for a triple by the end of every
  // hour what direct upserts would have, exactly when no net amount of it ever waited, in
  // the buffer or in a batch, from one hour to the next.
  lemma HourlyExactly(now: int, es: seq<Event>, t: Triple)
    requires ValidRun(Start(now), es) && Plain(t)
    requires var w := After(Start(now), es); AtRest(w) && AllPlain(w.asked)
    ensures NothingWaitsOver(Start(now), es, Encode(t)) <==>
      forall h :: Until(After(Start(now), es).db, t, h) == Until(Direct(After(Start(now), es).asked), t, h)
  {
    var w := After(Start(now), es);
    var key := Encode(t);
    RoundTripExactly(t);
    RestHoldsNothing(w.flushes, key, t, 0);
    BehindExactly(Start(now), es, key, t);
    if NothingWaitsOver(Start(now), es, key) {
      forall h ensures Until(w.db, t, h) == Until(Direct(w.asked), t, h) {
        BehindAtRest(w, t, h);
        if h < HourOf(now) {
          PassedHour(Start(now), es, key, t, h);
        }
      }
    } else {
      var h :| HourOf(now) <= h && Behind(w, key, t, h) != 0;
      BehindAtRest(w, t, h);
    }
  }

  lemma BehindAtRest(w: World, t: Triple, h: int)
    requires AtRest(w) && AllPlain(w.asked) && Plain(t)
    ensures Behind(w, Encode(t), t, h) == Until(Direct(w.asked), t, h) - Until(w.db, t, h)
  {
    RestHoldsNothing(w.flushes, Encode(t), t, h);
    DirectUntil(w.asked, t, h);
  }

  // One second before the hour and one second after: the increment is recorded an hour late.
  lemma LateWrite(t: Triple, amount: int)
    requires Plain(t) && amount != 0
    ensures var es := OneIncrement(t, amount, HOUR - SECOND, HOUR + SECOND);
      && ValidRun(Start(HOUR - SECOND), es)
      && var w := After(Start(HOUR - SECOND), es);
      AtRest(w) && Until(w.db, t, 0) == 0 && Until(Direct(w.asked), t, 0) == amount
  {
    OneIncrementRun(t, amount, HOUR - SECOND, HOUR + SECOND);
    RoundTripExactly(t);
    var w := After(Start(HOUR - SECOND), OneIncrement(t, amount, HOUR - SECOND, HOUR + SECOND));
    assert AllPlain(w.asked);
    DirectUntil(w.asked, t, 0);
    assert w.asked[1..] == [] && w.db[1..] == [];
  }
}
