/** Increments and flushes interleaved at every await: no amount is lost or counted twice,
    and a flush that fails takes with it its own batch only. */
module UsageCounterRuns {
  import opened Prelude
  import opened UsageCounters

  /******* The interleaved service *******/

  // A call of `flush_batch`: waiting for a session, writing its copy of the buffer, over.
  datatype Flush = Waiting | Writing(left: map<string, int>, rows: seq<Row>) | Closed

  datatype Ask = Ask(triple: Triple, amount: int, at: int)

  datatype World = World(
    buffer: map<string, int>,
    flushes: seq<Flush>,
    db: seq<Row>,
    lost: seq<Flush>,    // what failed flushes held
    asked: seq<Ask>,
    clock: int)

  datatype Event =
    | Increment(triple: Triple, amount: int, now: int)
    | Begin(now: int)
    | Acquire(i: nat, now: int)
    | Execute(i: nat, key: string, now: int)
    | Commit(i: nat, now: int)
    | Fail(i: nat, now: int)

  predicate Enabled(w: World, e: Event) {
    w.clock <= e.now &&
    match e
    case Increment(_, _, _) => true
    case Begin(_) => w.buffer != map[]
    case Acquire(i, _) => i < |w.flushes| && w.flushes[i].Waiting?
    case Execute(i, key, _) => i < |w.flushes| && w.flushes[i].Writing? && key in w.flushes[i].left
    case Commit(i, _) => i < |w.flushes| && w.flushes[i].Writing? && w.flushes[i].left == map[]
    case Fail(i, _) => i < |w.flushes| && !w.flushes[i].Closed?
  }

  function Abandon(w: World, i: nat): World
    requires i < |w.flushes|
  {
    w.(flushes := w.flushes[i := Closed], lost := w.lost + [w.flushes[i]])
  }

  function Next(w: World, e: Event): World
    requires Enabled(w, e)
  {
    match e
    case Increment(triple, amount, now) =>
      w.(buffer := Add(w.buffer, Encode(triple), amount), asked := w.asked + [Ask(triple, amount, now)], clock := now)
    case Begin(now) => w.(flushes := w.flushes + [Waiting], clock := now)
    case Acquire(i, now) => w.(buffer := map[], flushes := w.flushes[i := Writing(w.buffer, [])], clock := now)
    case Execute(i, key, now) =>
      var f := w.flushes[i];
      (match Decode(key)
       case None => Abandon(w, i).(clock := now)
       case Some(t) =>
         var f' := Writing(f.left - {key}, f.rows + [Row(t, HourOf(now), f.left[key])]);
         w.(flushes := w.flushes[i := f'], clock := now))
    case Commit(i, now) => w.(flushes := w.flushes[i := Closed], db := UpsertAll(w.db, w.flushes[i].rows), clock := now)
    case Fail(i, now) => Abandon(w, i).(clock := now)
  }

  function Start(now: int): World {
    World(map[], [], [], [], [], now)
  }

  ghost predicate ValidRun(w: World, es: seq<Event>)
    decreases |es|
  {
    es == [] || (Enabled(w, es[0]) && ValidRun(Next(w, es[0]), es[1..]))
  }

  ghost function After(w: World, es: seq<Event>): World
    requires ValidRun(w, es)
    decreases |es|
  {
    if es == [] then w else After(Next(w, es[0]), es[1..])
  }

  /******* Counting *******/

  function Holds(f: Flush, key: string, t: Triple): int {
    match f
    case Waiting => 0
    case Writing(left, rows) => Get(left, key) + Total(rows, t)
    case Closed => 0
  }

  function Held(fs: seq<Flush>, key: string, t: Triple): int {
    if fs == [] then 0 else Holds(fs[0], key, t) + Held(fs[1..], key, t)
  }

  // The amount asked for under a key.
  function Asked(asks: seq<Ask>, key: string): int {
    if asks == [] then 0
    else (if Encode(asks[0].triple) == key then asks[0].amount else 0) + Asked(asks[1..], key)
  }

  lemma {:induction false} HeldAppend(fs: seq<Flush>, f: Flush, key: string, t: Triple)
    ensures Held(fs + [f], key, t) == Held(fs, key, t) + Holds(f, key, t)
  {
    if fs == [] {
      assert fs + [f] == [f];
    } else {
      assert (fs + [f])[1..] == fs[1..] + [f];
      HeldAppend(fs[1..], f, key, t);
    }
  }

  lemma {:induction false} HeldUpdate(fs: seq<Flush>, i: nat, f: Flush, key: string, t: Triple)
    requires i < |fs|
    ensures Held(fs[i := f], key, t) == Held(fs, key, t) - Holds(fs[i], key, t) + Holds(f, key, t)
  {
    if i == 0 {
      assert fs[0 := f][1..] == fs[1..];
    } else {
      assert fs[i := f][1..] == fs[1..][i - 1 := f];
      HeldUpdate(fs[1..], i - 1, f, key, t);
    }
  }

  lemma {:induction false} AskedAppend(asks: seq<Ask>, a: Ask, key: string)
    ensures Asked(asks + [a], key) == Asked(asks, key) + (if Encode(a.triple) == key then a.amount else 0)
  {
    if asks == [] {
      assert asks + [a] == [a];
    } else {
      assert (asks + [a])[1..] == asks[1..] + [a];
      AskedAppend(asks[1..], a, key);
    }
  }

  /******* Conservation *******/

  ghost predicate Conserved(w: World, key: string, t: Triple) {
    Total(w.db, t) + Get(w.buffer, key) + Held(w.flushes, key, t) + Held(w.lost, key, t) == Asked(w.asked, key)
  }

  // Writing one entry moves its amount from the batch to the rows.
  lemma ExecuteHolds(f: Flush, k: string, hour: int, key: string, t: Triple)
    requires f.Writing? && k in f.left && Decode(k).Some? && Decode(key) == Some(t)
    ensures Holds(Writing(f.left - {k}, f.rows + [Row(Decode(k).value, hour, f.left[k])]), key, t) == Holds(f, key, t)
  {
    var row := Row(Decode(k).value, hour, f.left[k]);
    TotalAppend(f.rows, [row], t);
    assert Total([row], t) == if row.triple == t then row.amount else 0;
    if row.triple == t {
      DecodeInjective(k, key);
    }
  }

  lemma ConservedStep(w: World, e: Event, key: string, t: Triple)
    requires Enabled(w, e) && Decode(key) == Some(t) && Conserved(w, key, t)
    ensures Conserved(Next(w, e), key, t)
  {
    match e
    case Increment(triple, amount, now) => AskedAppend(w.asked, Ask(triple, amount, now), key);
    case Begin(_) => HeldAppend(w.flushes, Waiting, key, t);
    case Acquire(i, _) => HeldUpdate(w.flushes, i, Writing(w.buffer, []), key, t);
    case Execute(i, k, now) =>
      if Decode(k).Some? {
        var f := w.flushes[i];
        ExecuteHolds(f, k, HourOf(now), key, t);
        var f' := Writing(f.left - {k}, f.rows + [Row(Decode(k).value, HourOf(now), f.left[k])]);
        HeldUpdate(w.flushes, i, f', key, t);
      } else {
        HeldUpdate(w.flushes, i, Closed, key, t);
        HeldAppend(w.lost, w.flushes[i], key, t);
      }
    case Commit(i, _) =>
      HeldUpdate(w.flushes, i, Closed, key, t);
      UpsertAllAdds(w.db, w.flushes[i].rows, t);
    case Fail(i, _) =>
      HeldUpdate(w.flushes, i, Closed, key, t);
      HeldAppend(w.lost, w.flushes[i], key, t);
  }

  lemma {:induction false} ConservedRun(w: World, es: seq<Event>, key: string, t: Triple)
    requires ValidRun(w, es) && Decode(key) == Some(t) && Conserved(w, key, t)
    ensures Conserved(After(w, es), key, t)
    decreases |es|
  {
    if es != [] {
      ConservedStep(w, es[0], key, t);
      ConservedRun(Next(w, es[0]), es[1..], key, t);
    }
  }

  // However increments and flushes interleave, and wherever flushes fail: what the table
  // records for a triple, what is buffered under its key, in batches being written and in
  // failed ones add up to what was asked for under that key.
  lemma NothingIsLost(now: int, es: seq<Event>, key: string, t: Triple)
    requires ValidRun(Start(now), es) && Decode(key) == Some(t)
    ensures var w := After(Start(now), es);
      Total(w.db, t) + Get(w.buffer, key) + Held(w.flushes, key, t) + Held(w.lost, key, t) == Asked(w.asked, key)
  {
    ConservedRun(Start(now), es, key, t);
  }

  /******* Batched and direct upserts *******/

  // The table that one direct upsert for every increment produces.
  function Direct(asks: seq<Ask>): seq<Row>
    decreases |asks|
  {
    if asks == [] then []
    else
      var n := |asks| - 1;
      DirectUpsert(Direct(asks[..n]), Row(asks[n].triple, HourOf(asks[n].at), asks[n].amount))
  }

  ghost predicate AllPlain(asks: seq<Ask>) {
    forall a :: a in asks ==> Plain(a.triple)
  }

  lemma {:induction false} DirectTotal(asks: seq<Ask>, t: Triple)
    requires AllPlain(asks) && Plain(t)
    ensures Total(Direct(asks), t) == Asked(asks, Encode(t))
    decreases |asks|
  {
    if asks != [] {
      var n := |asks| - 1;
      var a := asks[n];
      assert asks == asks[..n] + [a];
      DirectTotal(asks[..n], t);
      DirectAdds(Direct(asks[..n]), Row(a.triple, HourOf(a.at), a.amount), t);
      AskedAppend(asks[..n], a, Encode(t));
      if Encode(a.triple) == Encode(t) {
        SlotsAreSeparate(a.triple, t);
      }
    }
  }

  predicate AtRest(w: World) {
    w.buffer == map[] && w.lost == [] && (forall f :: f in w.flushes ==> f.Closed?)
  }

  lemma {:induction false} ClosedHoldNothing(fs: seq<Flush>, key: string, t: Triple)
    requires forall f :: f in fs ==> f.Closed?
    ensures Held(fs, key, t) == 0
  {
    if fs != [] {
      assert fs[0] in fs;
      ClosedHoldNothing(fs[1..], key, t);
    }
  }

  // Once the buffer has been flushed, with no flush under way and none failed, the table's
  // totals are those of direct upserts.
  lemma BatchedIsDirect(now: int, es: seq<Event>, t: Triple)
    requires ValidRun(Start(now), es)
    requires var w := After(Start(now), es); AtRest(w) && AllPlain(w.asked)
    requires Plain(t)
    ensures Total(After(Start(now), es).db, t) == Total(Direct(After(Start(now), es).asked), t)
  {
    var w := After(Start(now), es);
    RoundTripExactly(t);
    NothingIsLost(now, es, Encode(t), t);
    ClosedHoldNothing(w.flushes, Encode(t), t);
    DirectTotal(w.asked, t);
  }

  // An increment, and a flush of it then or later.
  function OneIncrement(t: Triple, amount: int, at: int, now: int): seq<Event> {
    [Increment(t, amount, at), Begin(now), Acquire(0, now), Execute(0, Encode(t), now), Commit(0, now)]
  }

  lemma OneIncrementRun(t: Triple, amount: int, at: int, now: int)
    requires at <= now
    ensures Decode(Encode(t)).Some?
    ensures ValidRun(Start(at), OneIncrement(t, amount, at, now))
    ensures var w := After(Start(at), OneIncrement(t, amount, at, now));
      && w.asked == [Ask(t, amount, at)] && AtRest(w)
      && w.db == [Row(Decode(Encode(t)).value, HourOf(now), amount)]
  {
    EncodedIsDecodable(t);
    var es := OneIncrement(t, amount, at, now);
    var w1 := Next(Start(at), es[0]);
    var w2 := Next(w1, es[1]);
    var w3 := Next(w2, es[2]);
    assert w3.flushes == [Writing(map[Encode(t) := amount], [])];
    var w4 := Next(w3, es[3]);
    var row := Row(Decode(Encode(t)).value, HourOf(now), amount);
    assert w4.flushes[0].left == map[] && w4.flushes[0].rows == [row];
    var w5 := Next(w4, es[4]);
    assert w5.flushes == [Closed];
    assert w5.db == UpsertAll([], [row]) == UpsertAll([row], []) by {
      assert Upsert([], row) == [row] && [row][1..] == [];
    }
    assert ValidRun(w5, es[5..]) && After(w5, es[5..]) == w5;
    assert es[4..][1..] == es[5..] && es[3..][1..] == es[4..] && es[2..][1..] == es[3..] && es[1..][1..] == es[2..];
    assert ValidRun(w4, es[4..]) && After(w4, es[4..]) == w5;
    assert ValidRun(w3, es[3..]) && After(w3, es[3..]) == w5;
    assert ValidRun(w2, es[2..]) && After(w2, es[2..]) == w5;
    assert ValidRun(w1, es[1..]) && After(w1, es[1..]) == w5;
  }

  ghost predicate SameTotals(a: seq<Row>, b: seq<Row>) {
    forall t :: Total(a, t) == Total(b, t)
  }

  lemma OneRowTotals(a: Row, b: Row)
    requires a.amount == b.amount != 0
    ensures SameTotals([a], [b]) <==> a.triple == b.triple
  {
    assert forall r: Row, t :: Total([r], t) == if r.triple == t then r.amount else 0;
    if a.triple != b.triple {
      assert Total([a], a.triple) != Total([b], a.triple);
    }
  }

  // One increment, flushed, is recorded where a direct upsert would record it exactly when
  // its triple survives the encoding.
  lemma OneIncrementExactly(t: Triple, amount: int, at: int, now: int)
    requires amount != 0 && at <= now
    ensures ValidRun(Start(at), OneIncrement(t, amount, at, now))
    ensures SameTotals(After(Start(at), OneIncrement(t, amount, at, now)).db, Direct([Ask(t, amount, at)])) <==>
      Plain(t)
  {
    OneIncrementRun(t, amount, at, now);
    RoundTripExactly(t);
    var direct := Row(t, HourOf(at), amount);
    assert Direct([Ask(t, amount, at)]) == [direct] by {
      assert [Ask(t, amount, at)][..0] == [] && Direct([]) == [];
    }
    OneRowTotals(Row(Decode(Encode(t)).value, HourOf(now), amount), direct);
  }
}
