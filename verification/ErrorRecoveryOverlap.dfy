/** Calls of `handle_error` that overlap at the suspension in the strategy: the table of
    recoveries in flight, and what overlap does to the hourly limit. */
module ErrorRecoveryOverlap {
  import opened Prelude
  import opened Strings
  import opened ErrorRecovery
  import opened ErrorRecoveryRuns

  /******* Interleaved runs *******/

  // The calls suspended in their strategies, in the order in which they got there: the
  // attempt of each, and the key it holds in a local variable.
  datatype World = World(s: State, calls: seq<Attempt>, keys: seq<Key>)

  datatype Step =
    | Enter(error: ExtensionError, readings: Readings)
    | Leave(i: nat, outcome: Outcome, complete: int, count: int)
    | Reset(now: int)

  predicate Enabled(w: World, e: Step) {
    match e
    case Enter(_, r) => InOrder(r)
    case Leave(i, _, _, _) => i < |w.calls| == |w.keys|
    case Reset(_) => true
  }

  function Without<T>(list: seq<T>, i: nat): seq<T>
    requires i < |list|
  {
    list[..i] + list[i + 1..]
  }

  function Advance(wiring: Wiring, w: World, e: Step): World
    requires Enabled(w, e)
  {
    match e
    case Enter(error, r) =>
      var (s', reply) := Begin(wiring, w.s, error, r);
      if reply.Started? then World(s', w.calls + [reply.attempt], w.keys + [KeyOf(error)]) else w.(s := s')
    case Leave(i, o, complete, count) =>
      World(FinishAt(w.s, w.keys[i], w.calls[i], o, complete, count), Without(w.calls, i), Without(w.keys, i))
    case Reset(now) => w.(s := ForceReset(w.s, now))
  }

  ghost predicate Valid(wiring: Wiring, w: World, es: seq<Step>)
    decreases |es|
  {
    es == [] || (Enabled(w, es[0]) && Valid(wiring, Advance(wiring, w, es[0]), es[1..]))
  }

  ghost function End(wiring: Wiring, w: World, es: seq<Step>): World
    requires Valid(wiring, w, es)
    decreases |es|
  {
    if es == [] then w else End(wiring, Advance(wiring, w, es[0]), es[1..])
  }

  function Idle(start: int): World {
    World(Fresh(start), [], [])
  }

  /******* The table of recoveries in flight *******/

  // The table holds the calls in flight, each under its key, and no two share a key.
  ghost predicate Table(active: map<Key, Attempt>, keys: seq<Key>, calls: seq<Attempt>) {
    && |keys| == |calls|
    && active.Keys == (set k | k in keys)
    && (forall i :: 0 <= i < |keys| ==> keys[i] in active && active[keys[i]] == calls[i] && calls[i].completedAt.None?)
    && (forall i, j :: 0 <= i < j < |keys| ==> keys[i] != keys[j])
  }

  ghost predicate OwnKeys(keys: seq<Key>, calls: seq<Attempt>) {
    |keys| == |calls| && forall i :: 0 <= i < |keys| ==> keys[i] == KeyOf(calls[i].error)
  }

  ghost predicate InFlight(w: World) {
    Table(w.s.active, w.keys, w.calls) && OwnKeys(w.keys, w.calls)
  }

  lemma TableAdd(active: map<Key, Attempt>, keys: seq<Key>, calls: seq<Attempt>, key: Key, a: Attempt)
    requires Table(active, keys, calls) && key !in active && a.completedAt.None?
    ensures Table(active[key := a], keys + [key], calls + [a])
  {
  }

  // What is left of a list, by index.
  lemma WithoutAt<T>(list: seq<T>, i: nat)
    requires i < |list|
    ensures |Without(list, i)| == |list| - 1
    ensures forall j :: 0 <= j < |list| - 1 ==> Without(list, i)[j] == list[if j < i then j else j + 1]
  {
  }

  lemma WithoutMembers(keys: seq<Key>, i: nat)
    requires i < |keys| && forall a, b :: 0 <= a < b < |keys| ==> keys[a] != keys[b]
    ensures (set k | k in Without(keys, i)) == (set k | k in keys) - {keys[i]}
  {
    var rest := Without(keys, i);
    WithoutAt(keys, i);
    forall k | k in keys && k != keys[i] ensures k in rest {
      var j :| 0 <= j < |keys| && keys[j] == k;
      assert rest[if j < i then j else j - 1] == k;
    }
    forall k | k in rest ensures k in keys && k != keys[i] {
      var j :| 0 <= j < |rest| && rest[j] == k;
      assert keys[if j < i then j else j + 1] == k;
    }
  }

  lemma TableRemove(active: map<Key, Attempt>, keys: seq<Key>, calls: seq<Attempt>, i: nat)
    requires Table(active, keys, calls) && i < |calls|
    ensures Table(active - {keys[i]}, Without(keys, i), Without(calls, i))
  {
    WithoutMembers(keys, i);
    WithoutAt(keys, i);
    WithoutAt(calls, i);
  }

  lemma OwnKeysRemove(keys: seq<Key>, calls: seq<Attempt>, i: nat)
    requires OwnKeys(keys, calls) && i < |calls|
    ensures OwnKeys(Without(keys, i), Without(calls, i))
  {
    WithoutAt(keys, i);
    WithoutAt(calls, i);
  }

  // A call that goes on to a strategy finds its key free when the table is in order.
  lemma EnterTable(wiring: Wiring, s: State, keys: seq<Key>, calls: seq<Attempt>, key: Key, e: ExtensionError,
      r: Readings)
    requires Table(s.active, keys, calls)
    ensures var (s', reply) := BeginAt(wiring, s, key, e, r);
      if reply.Started? then reply.attempt.error == e && Table(s'.active, keys + [key], calls + [reply.attempt])
      else s'.active == s.active
  {
    var (s', reply) := BeginAt(wiring, s, key, e, r);
    if reply.Started? {
      assert key !in s.active;
      TableAdd(s.active, keys, calls, key, reply.attempt);
    }
  }

  lemma FlightStep(wiring: Wiring, w: World, e: Step)
    requires InFlight(w) && Enabled(w, e)
    ensures InFlight(Advance(wiring, w, e))
  {
    match e
    case Enter(error, r) => EnterTable(wiring, w.s, w.keys, w.calls, KeyOf(error), error, r);
    case Leave(i, _, _, _) =>
      TableRemove(w.s.active, w.keys, w.calls, i);
      OwnKeysRemove(w.keys, w.calls, i);
    case Reset(_) =>
  }

  lemma {:induction false} FlightRun(wiring: Wiring, w: World, es: seq<Step>)
    requires InFlight(w) && Valid(wiring, w, es)
    ensures InFlight(End(wiring, w, es))
    decreases |es|
  {
    if es != [] {
      FlightStep(wiring, w, es[0]);
      FlightRun(wiring, Advance(wiring, w, es[0]), es[1..]);
    }
  }

  // On every interleaved run no two calls in flight have the same key, and a call is told
  // that its recovery is in progress exactly when the breaker lets it through and one with
  // its key is in flight.
  lemma OnePerKey(wiring: Wiring, start: int, es: seq<Step>, e: ExtensionError, r: Readings)
    requires Valid(wiring, Idle(start), es)
    ensures var w := End(wiring, Idle(start), es);
      && (forall i, j :: 0 <= i < j < |w.calls| ==> KeyOf(w.calls[i].error) != KeyOf(w.calls[j].error))
      && (Begin(wiring, w.s, e, r).1.AlreadyInProgress? <==>
            !AfterLook(w.s, r.look).isOpen && exists i :: 0 <= i < |w.calls| && KeyOf(w.calls[i].error) == KeyOf(e))
  {
    FlightRun(wiring, Idle(start), es);
    var w := End(wiring, Idle(start), es);
    BusyExactly(wiring, w.s, w.keys, w.calls, KeyOf(e), e, r);
  }

  lemma BusyExactly(wiring: Wiring, s: State, keys: seq<Key>, calls: seq<Attempt>, key: Key, e: ExtensionError,
      r: Readings)
    requires Table(s.active, keys, calls)
    ensures BeginAt(wiring, s, key, e, r).1.AlreadyInProgress? <==>
      !AfterLook(s, r.look).isOpen && exists i :: 0 <= i < |keys| && keys[i] == key
  {
    assert AfterLook(s, r.look).active == s.active;
  }

  /******* Keys *******/

  // What the key is made of.
  predicate SameSubject(e: ExtensionError, e': ExtensionError) {
    e.category == e'.category && e.code == e'.code && e.endpoint == e'.endpoint && e.operation == e'.operation
  }

  predicate OwnKey(e: ExtensionError) {
    ':' !in e.code && Distinct(e.endpoint) && Distinct(e.operation)
  }

  lemma CategoryNames(c: Category, c': Category)
    ensures ':' !in ShowCategory(c)
    ensures ShowCategory(c) == ShowCategory(c') ==> c == c'
  {
    var n, n' := ShowCategory(c), ShowCategory(c');
    if n == n' {
      assert |n| == |n'| && n[0] == n'[0] && n[1] == n'[1];
    }
  }

  lemma KeyColons(e: ExtensionError)
    ensures Count(KeyOf(e), ':') == Count(e.code, ':') + Count(Show(e.endpoint), ':')
      + Count(Show(e.operation), ':') + 3
  {
    var o := Show(e.endpoint) + ":" + Show(e.operation);
    CategoryNames(e.category, e.category);
    CountNone(ShowCategory(e.category), ':');
    CountJoined(Show(e.endpoint), Show(e.operation));
    CountJoined(e.code, o);
    CountJoined(ShowCategory(e.category), e.code + ":" + o);
  }

  // Without colons in code and endpoint a key shows all of its parts.
  lemma KeyParts(e: ExtensionError, e': ExtensionError)
    requires ':' !in e.code && ':' !in Show(e.endpoint) && ':' !in e'.code && ':' !in Show(e'.endpoint)
    requires KeyOf(e) == KeyOf(e')
    ensures e.category == e'.category && e.code == e'.code
    ensures Show(e.endpoint) == Show(e'.endpoint) && Show(e.operation) == Show(e'.operation)
  {
    var o, o' := Show(e.endpoint) + ":" + Show(e.operation), Show(e'.endpoint) + ":" + Show(e'.operation);
    CategoryNames(e.category, e'.category);
    CategoryNames(e'.category, e.category);
    SplitUnique(ShowCategory(e.category), e.code + ":" + o, ShowCategory(e'.category), e'.code + ":" + o', ':');
    SplitUnique(e.code, o, e'.code, o', ':');
    SplitUnique(Show(e.endpoint), Show(e.operation), Show(e'.endpoint), Show(e'.operation), ':');
  }

  // Another error with the same key, for any error that has one.
  lemma Double(e: ExtensionError) returns (e': ExtensionError)
    requires !OwnKey(e)
    ensures !SameSubject(e, e') && KeyOf(e') == KeyOf(e)
  {
    e' := e.(endpoint := Twin(e.endpoint), operation := Twin(e.operation));
    if SameSubject(e, e') {
      var c, p, o := e.code, e.endpoint.value, e.operation.value;
      if ':' in c {
        var a, b := SplitAt(c, ':');
        e' := e.(code := a, endpoint := Some(b + ":" + p));
        assert c + ":" + (p + ":" + o) == a + ":" + ((b + ":" + p) + ":" + o);
      } else if ':' in p {
        var a, b := SplitAt(p, ':');
        e' := e.(code := c + ":" + a, endpoint := Some(b));
        assert c + ":" + (p + ":" + o) == (c + ":" + a) + ":" + (b + ":" + o);
      } else {
        var a, b := SplitAt(o, ':');
        e' := e.(endpoint := Some(p + ":" + a), operation := Some(b));
        assert p + ":" + o == (p + ":" + a) + ":" + b;
      }
    }
  }

  // An error shares its key with no other subject exactly when endpoint and operation are
  // given and do not read None, and neither they nor the code contain a colon.
  lemma KeyUniqueExactly(e: ExtensionError)
    ensures OwnKey(e) <==> forall e' :: KeyOf(e') == KeyOf(e) ==> SameSubject(e, e')
  {
    if OwnKey(e) {
      forall e' | KeyOf(e') == KeyOf(e) ensures SameSubject(e, e') {
        KeyColons(e);
        KeyColons(e');
        CountNone(e.code, ':');
        CountNone(Show(e.endpoint), ':');
        CountNone(Show(e.operation), ':');
        CountNone(e'.code, ':');
        CountNone(Show(e'.endpoint), ':');
        KeyParts(e, e');
      }
    } else {
      var e' := Double(e);
    }
  }

  /******* The hourly limit under overlap *******/

  // Calls in flight with this code and strategy.
  function Overlap(calls: seq<Attempt>, code: string, st: Strategy): nat {
    if calls == [] then 0
    else
      var last := calls[|calls| - 1];
      Overlap(calls[..|calls| - 1], code, st) + (if last.error.code == code && last.strategy == st then 1 else 0)
  }

  // A call that goes on to a strategy finds at most n calls with its code and that strategy
  // in flight.
  predicate MeetsAtMost(wiring: Wiring, w: World, e: Step, n: nat) {
    e.Enter? ==>
      var reply := Begin(wiring, w.s, e.error, e.readings).1;
      reply.Started? ==> Overlap(w.calls, e.error.code, reply.attempt.strategy) <= n
  }

  ghost predicate OverlapsAtMost(wiring: Wiring, w: World, es: seq<Step>, n: nat)
    requires Valid(wiring, w, es)
    decreases |es|
  {
    es == [] || (MeetsAtMost(wiring, w, es[0], n) && OverlapsAtMost(wiring, Advance(wiring, w, es[0]), es[1..], n))
  }

  // Begun attempts, finished or in flight, in every sliding hour.
  ghost predicate LimitedBy(history: seq<Attempt>, calls: seq<Attempt>, n: nat) {
    forall code, st, lo, hi :: hi - lo <= HOUR ==>
      CountIn(history, code, st, lo, hi) + CountIn(calls, code, st, lo, hi) <= MaxAttempts(st) + n
  }

  function One(a: Attempt, code: string, st: Strategy, lo: int, hi: int): nat {
    if a.error.code == code && a.strategy == st && lo < a.startedAt <= hi then 1 else 0
  }

  lemma CountInLast(list: seq<Attempt>, a: Attempt, code: string, st: Strategy, lo: int, hi: int)
    ensures CountIn(list + [a], code, st, lo, hi) ==
      CountIn(list, code, st, lo, hi) + One(a, code, st, lo, hi)
  {
    assert (list + [a])[..|list|] == list;
  }

  lemma {:induction false} CountInJoin(a: seq<Attempt>, b: seq<Attempt>, code: string, st: Strategy, lo: int, hi: int)
    ensures CountIn(a + b, code, st, lo, hi) == CountIn(a, code, st, lo, hi) + CountIn(b, code, st, lo, hi)
    decreases |b|
  {
    if b == [] {
      assert a + b == a;
    } else {
      var n := |b| - 1;
      assert a + b == (a + b[..n]) + [b[n]] && b == b[..n] + [b[n]];
      CountInJoin(a, b[..n], code, st, lo, hi);
      CountInLast(a + b[..n], b[n], code, st, lo, hi);
      CountInLast(b[..n], b[n], code, st, lo, hi);
    }
  }

  lemma CountInWithout(list: seq<Attempt>, i: nat, code: string, st: Strategy, lo: int, hi: int)
    requires i < |list|
    ensures CountIn(list, code, st, lo, hi) == CountIn(Without(list, i), code, st, lo, hi) + One(list[i], code, st,
      lo, hi)
  {
    assert list == (list[..i] + [list[i]]) + list[i + 1..];
    CountInJoin(list[..i] + [list[i]], list[i + 1..], code, st, lo, hi);
    CountInLast(list[..i], list[i], code, st, lo, hi);
    CountInJoin(list[..i], list[i + 1..], code, st, lo, hi);
  }

  lemma {:induction false} CountInOverlap(calls: seq<Attempt>, code: string, st: Strategy, lo: int, hi: int)
    ensures CountIn(calls, code, st, lo, hi) <= Overlap(calls, code, st)
  {
    if calls != [] {
      CountInOverlap(calls[..|calls| - 1], code, st, lo, hi);
    }
  }

  // What starting an attempt needs and does.
  lemma StartedAttempt(wiring: Wiring, s: State, e: ExtensionError, r: Readings)
    requires InOrder(r)
    ensures var (s', reply) := Begin(wiring, s, e, r);
      && s'.history == s.history
      && (reply.Started? ==>
            var a := reply.attempt;
            && a.error == e && a.startedAt == r.start
            && CountSince(s.history, e.code, a.strategy, r.choose - HOUR) < MaxAttempts(a.strategy))
  {
    SelectIsFirstFit(wiring, s.history, e, r.choose);
  }

  lemma OneMoreInFlight(history: seq<Attempt>, calls: seq<Attempt>, a: Attempt, choose: int, n: nat)
    requires LimitedBy(history, calls, n) && choose <= a.startedAt
    requires CountSince(history, a.error.code, a.strategy, choose - HOUR) < MaxAttempts(a.strategy)
    requires Overlap(calls, a.error.code, a.strategy) <= n
    ensures LimitedBy(history, calls + [a], n)
  {
    forall code, st, lo, hi | hi - lo <= HOUR
      ensures CountIn(history, code, st, lo, hi) + CountIn(calls + [a], code, st, lo, hi) <= MaxAttempts(st) + n
    {
      CountInLast(calls, a, code, st, lo, hi);
      if a.error.code == code && a.strategy == st && lo < a.startedAt <= hi {
        CountInBelowSince(history, code, st, lo, hi, choose - HOUR);
        CountInOverlap(calls, code, st, lo, hi);
      }
    }
  }

  lemma OneFinished(history: seq<Attempt>, calls: seq<Attempt>, i: nat, done: Attempt, n: nat)
    requires LimitedBy(history, calls, n) && i < |calls|
    requires done == calls[i].(completedAt := done.completedAt, success := done.success)
    ensures LimitedBy(history + [done], Without(calls, i), n)
  {
    forall code, st, lo, hi | hi - lo <= HOUR
      ensures CountIn(history + [done], code, st, lo, hi) + CountIn(Without(calls, i), code, st, lo, hi)
        <= MaxAttempts(st) + n
    {
      CountInLast(history, done, code, st, lo, hi);
      CountInWithout(calls, i, code, st, lo, hi);
    }
  }

  lemma LimitedStep(wiring: Wiring, w: World, e: Step, n: nat)
    requires Enabled(w, e) && LimitedBy(w.s.history, w.calls, n) && MeetsAtMost(wiring, w, e, n)
    ensures var w' := Advance(wiring, w, e); LimitedBy(w'.s.history, w'.calls, n)
  {
    match e
    case Enter(error, r) =>
      StartedAttempt(wiring, w.s, error, r);
      var reply := Begin(wiring, w.s, error, r).1;
      if reply.Started? {
        OneMoreInFlight(w.s.history, w.calls, reply.attempt, r.choose, n);
      }
    case Leave(i, o, complete, _) =>
      OneFinished(w.s.history, w.calls, i, w.calls[i].(completedAt := Some(complete), success := o.Succeeded?), n);
    case Reset(_) =>
  }

  lemma {:induction false} LimitedRun(wiring: Wiring, w: World, es: seq<Step>, n: nat)
    requires LimitedBy(w.s.history, w.calls, n) && Valid(wiring, w, es) && OverlapsAtMost(wiring, w, es, n)
    ensures var w' := End(wiring, w, es); LimitedBy(w'.s.history, w'.calls, n)
    decreases |es|
  {
    if es != [] {
      LimitedStep(wiring, w, es[0], n);
      LimitedRun(wiring, Advance(wiring, w, es[0]), es[1..], n);
    }
  }

  // Over every interleaved run on which no call that goes on to a strategy finds more than
  // n calls of its code and strategy in flight: in any sliding hour the attempts begun,
  // finished or in flight, exceed the strategy's limit by n at most. So they stay within
  // it if no such call is ever in flight then, however calls overlap otherwise.
  lemma OverlappingLimit(wiring: Wiring, start: int, es: seq<Step>, n: nat, code: string, st: Strategy, lo: int,
      hi: int)
    requires Valid(wiring, Idle(start), es) && OverlapsAtMost(wiring, Idle(start), es, n) && hi - lo <= HOUR
    ensures var w := End(wiring, Idle(start), es);
      CountIn(w.s.history, code, st, lo, hi) + CountIn(w.calls, code, st, lo, hi) <= MaxAttempts(st) + n
  {
    LimitedRun(wiring, Idle(start), es, n);
  }

  /******* What overlap costs *******/

  // Errors of one code at different endpoints, all for graceful degradation.
  function Ith(i: nat): ExtensionError {
    ExtensionError(UnknownError, MediumSeverity, "E", Some(seq(i, _ => 'x')), None)
  }

  function IthAttempt(i: nat, now: int): Attempt {
    Attempt(Ith(i), Degradation, now, None, false)
  }

  // Calls for the i-th to the n-th of them at one instant.
  function Crowd(i: nat, n: nat, now: int): seq<Step>
    requires i <= n
    decreases n - i
  {
    if i == n then [] else [Enter(Ith(i), Readings(now, now, now, now, now))] + Crowd(i + 1, n, now)
  }

  ghost predicate Crowded(w: World, i: nat, now: int) {
    && !w.s.isOpen && w.s.history == [] && |w.calls| == i
    && (forall k :: 0 <= k < i ==> w.calls[k] == IthAttempt(k, now))
    && (forall key :: key in w.s.active ==> exists k: nat :: k < i && KeyOf(Ith(k)) == key)
  }

  lemma KeysDiffer(i: nat, j: nat)
    requires KeyOf(Ith(i)) == KeyOf(Ith(j))
    ensures i == j
  {
    KeyParts(Ith(i), Ith(j));
    assert |Show(Ith(i).endpoint)| == i && |Show(Ith(j).endpoint)| == j;
  }

  lemma CrowdStep(wiring: Wiring, w: World, i: nat, now: int)
    requires Crowded(w, i, now)
    ensures var e := Enter(Ith(i), Readings(now, now, now, now, now));
      && Crowded(Advance(wiring, w, e), i + 1, now)
      && MeetsAtMost(wiring, w, e, i)
  {
    var r := Readings(now, now, now, now, now);
    forall k: nat | KeyOf(Ith(k)) == KeyOf(Ith(i)) ensures k == i {
      KeysDiffer(k, i);
    }
    DegradationIsChosen(wiring, [], Ith(i), now);
    assert Begin(wiring, w.s, Ith(i), r).1 == Started(IthAttempt(i, now));
    OverlapBelow(w.calls, "E", Degradation);
  }

  lemma {:induction false} OverlapBelow(calls: seq<Attempt>, code: string, st: Strategy)
    ensures Overlap(calls, code, st) <= |calls|
  {
    if calls != [] {
      OverlapBelow(calls[..|calls| - 1], code, st);
    }
  }

  lemma {:induction false} CrowdRun(wiring: Wiring, w: World, i: nat, n: nat, now: int)
    requires Crowded(w, i, now) && i <= n + 1
    ensures Valid(wiring, w, Crowd(i, n + 1, now)) && OverlapsAtMost(wiring, w, Crowd(i, n + 1, now), n)
    ensures Crowded(End(wiring, w, Crowd(i, n + 1, now)), n + 1, now)
    decreases n + 1 - i
  {
    if i <= n {
      var es := Crowd(i, n + 1, now);
      CrowdStep(wiring, w, i, now);
      assert es[1..] == Crowd(i + 1, n + 1, now);
      CrowdRun(wiring, Advance(wiring, w, es[0]), i + 1, n, now);
    }
  }

  lemma {:induction false} CountCrowd(calls: seq<Attempt>, now: int)
    requires forall k :: 0 <= k < |calls| ==> calls[k] == IthAttempt(k, now)
    ensures CountIn(calls, "E", Degradation, now - HOUR, now) == |calls|
  {
    if calls != [] {
      CountCrowd(calls[..|calls| - 1], now);
    }
  }

  // The excess is real for every n: n + 1 calls for one code at different endpoints all
  // pass the check of a strategy that allows one attempt.
  lemma OverlapExceedsLimit(wiring: Wiring, now: int, n: nat)
    ensures var es := Crowd(0, n + 1, now);
      && Valid(wiring, Idle(now), es) && OverlapsAtMost(wiring, Idle(now), es, n)
      && var w := End(wiring, Idle(now), es);
      CountIn(w.s.history, "E", Degradation, now - HOUR, now) + CountIn(w.calls, "E", Degradation, now - HOUR, now)
        == MaxAttempts(Degradation) + n
  {
    CrowdRun(wiring, Idle(now), 0, n, now);
    CountCrowd(End(wiring, Idle(now), Crowd(0, n + 1, now)).calls, now);
  }
}
