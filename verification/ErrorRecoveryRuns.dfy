/** What every run of sequential `handle_error` calls keeps: the breaker against a
    sliding hour, and the hourly limit of each strategy. */
module ErrorRecoveryRuns {
  import opened Prelude
  import opened ErrorRecovery

  /******* First fit *******/

  lemma {:induction false} SelectFromIsFirstFit(w: Wiring, history: seq<Attempt>, e: ExtensionError, now: int, i: nat)
    requires i <= |STRATEGIES|
    ensures match SelectFrom(w, history, e, now, i)
      case Some(st) => (exists k :: i <= k < |STRATEGIES| && STRATEGIES[k] == st
                          && Eligible(w, history, e, STRATEGIES[k], now)
                          && forall j :: i <= j < k ==> !Eligible(w, history, e, STRATEGIES[j], now))
      case None => forall j :: i <= j < |STRATEGIES| ==> !Eligible(w, history, e, STRATEGIES[j], now)
    decreases |STRATEGIES| - i
  {
    if i < |STRATEGIES| && !Eligible(w, history, e, STRATEGIES[i], now) {
      SelectFromIsFirstFit(w, history, e, now, i + 1);
    }
  }

  // The chosen strategy is eligible and every earlier one in the list is not; none is
  // chosen only when none is eligible.
  lemma SelectIsFirstFit(w: Wiring, history: seq<Attempt>, e: ExtensionError, now: int)
    ensures match Select(w, history, e, now)
      case Some(st) => (exists k :: 0 <= k < |STRATEGIES| && STRATEGIES[k] == st
                          && Eligible(w, history, e, STRATEGIES[k], now)
                          && forall j :: 0 <= j < k ==> !Eligible(w, history, e, STRATEGIES[j], now))
      case None => forall st :: !Eligible(w, history, e, st, now)
  {
    SelectFromIsFirstFit(w, history, e, now, 0);
    if Select(w, history, e, now) == None {
      forall st ensures !Eligible(w, history, e, st, now) {
        EveryStrategyListed(st);
      }
    }
  }

  lemma EveryStrategyListed(st: Strategy)
    ensures exists k :: 0 <= k < |STRATEGIES| && STRATEGIES[k] == st
  {
    match st
    case AuthTokenRefresh => assert STRATEGIES[0] == st;
    case ServiceRestart => assert STRATEGIES[1] == st;
    case CachedData => assert STRATEGIES[2] == st;
    case ReadOnlyFallback => assert STRATEGIES[3] == st;
    case NetworkRetry => assert STRATEGIES[4] == st;
    case Degradation => assert STRATEGIES[5] == st;
    case Escalation => assert STRATEGIES[6] == st;
  }

  /******* Runs, and the log of counted failures *******/

  // One counted failure: when, the counter after it, the start of the counter's hour,
  // and whether it set the breaker open.
  datatype Failure = Failure(time: int, count: nat, since: int, tripped: bool)

  datatype Ledger = Ledger(failures: seq<Failure>, clock: int)

  predicate Counts(w: Wiring, s: State, key: Key, e: Event) {
    e.HandleError? && BeginAt(w, s, key, e.error, e.readings).1.Started? && !e.outcome.Succeeded?
  }

  function Record(w: Wiring, s: State, l: Ledger, e: Event): Ledger {
    RecordAt(w, s, l, KeyFor(e), e)
  }

  function RecordAt(w: Wiring, s: State, l: Ledger, key: Key, e: Event): Ledger {
    var s' := NextAt(w, s, key, e);
    Ledger(
      if Counts(w, s, key, e) then
        var now := e.readings.count;
        l.failures + [Failure(now, s'.errorCount, s'.lastReset, s'.isOpen && s'.openedAt == Some(now))]
      else l.failures,
      EndOf(e))
  }

  ghost predicate ValidRun(w: Wiring, s: State, l: Ledger, es: seq<Event>)
    decreases |es|
  {
    es == [] || (InTime(es[0], l.clock) && ValidRun(w, Next(w, s, es[0]), Record(w, s, l, es[0]), es[1..]))
  }

  ghost function After(w: Wiring, s: State, l: Ledger, es: seq<Event>): (State, Ledger)
    decreases |es|
  {
    if es == [] then (s, l) else After(w, Next(w, s, es[0]), Record(w, s, l, es[0]), es[1..])
  }

  predicate NoReset(es: seq<Event>) {
    forall e :: e in es ==> e.HandleError?
  }

  /******* The breaker *******/

  // One entry of the log against those before it: as many failures as the counter says
  // lie within the counter's hour.
  ghost predicate EntryOk(log: seq<Failure>, k: nat)
    requires k < |log|
  {
    && 1 <= log[k].count <= k + 1
    && log[k].since <= log[k + 1 - log[k].count].time
    && log[k].time - log[k].since <= HOUR
    && (log[k].tripped <==> log[k].count >= BREAKER_THRESHOLD)
  }

  ghost predicate Ordered(log: seq<Failure>) {
    forall i, j :: 0 <= i < j < |log| ==> log[i].time <= log[j].time
  }

  ghost predicate LogOk(log: seq<Failure>) {
    Ordered(log) && forall k :: 0 <= k < |log| ==> EntryOk(log, k)
  }

  ghost predicate Inv(s: State, l: Ledger) {
    && LogOk(l.failures)
    && (l.failures != [] ==> l.failures[|l.failures| - 1].time <= l.clock)
    && s.errorCount <= |l.failures|
    && (s.errorCount > 0 ==> s.lastReset <= l.failures[|l.failures| - s.errorCount].time)
    && s.lastReset <= l.clock
    && (s.isOpen ==> s.openedAt.Some? && s.openedAt.value <= l.clock)
    && s.active == map[]
    && (forall i, j :: 0 <= i < j < |s.history| ==> s.history[i].startedAt <= s.history[j].startedAt)
    && (forall i :: 0 <= i < |s.history| ==> s.history[i].startedAt <= l.clock)
  }

  lemma ExtendLog(log: seq<Failure>, f: Failure)
    requires LogOk(log)
    requires forall k :: 0 <= k < |log| ==> log[k].time <= f.time
    requires EntryOk(log + [f], |log|)
    ensures LogOk(log + [f])
  {
    forall k | 0 <= k < |log + [f]| ensures EntryOk(log + [f], k) {
      if k < |log| { assert EntryOk(log, k); }
    }
  }

  lemma BeginKeeps(w: Wiring, s: State, l: Ledger, key: Key, e: ExtensionError, r: Readings)
    requires Inv(s, l) && l.clock <= r.look && InOrder(r)
    ensures var (s1, reply) := BeginAt(w, s, key, e, r);
      && s1.history == s.history && s1.errorCount == s.errorCount && s1.lastReset == s.lastReset
      && (s1.isOpen ==> s1.openedAt == s.openedAt && s.isOpen)
      && !reply.AlreadyInProgress?
      && (reply.Started? ==>
            && !s1.isOpen
            && s1.active == map[key := reply.attempt]
            && reply.attempt.error == e && reply.attempt.startedAt == r.start
            && CountSince(s.history, e.code, reply.attempt.strategy, r.choose - HOUR)
               < MaxAttempts(reply.attempt.strategy))
      && (!reply.Started? ==> s1.active == map[])
  {
    SelectIsFirstFit(w, s.history, e, r.choose);
  }

  // What a counted failure adds to the log fits the entries before it.
  lemma FailureEntry(s: State, s': State, log: seq<Failure>, now: int)
    requires LogOk(log) && s'.errorCount == IncrementErrorCount(s, now).errorCount
    requires s'.lastReset == IncrementErrorCount(s, now).lastReset
    requires forall k :: 0 <= k < |log| ==> log[k].time <= now
    requires s.errorCount <= |log| && s.lastReset <= now
    requires s.errorCount > 0 ==> s.lastReset <= log[|log| - s.errorCount].time
    ensures LogOk(log + [Failure(now, s'.errorCount, s'.lastReset, s'.errorCount >= BREAKER_THRESHOLD)])
    ensures var log' := log + [Failure(now, s'.errorCount, s'.lastReset, s'.errorCount >= BREAKER_THRESHOLD)];
      1 <= s'.errorCount <= |log'| && s'.lastReset <= log'[|log'| - s'.errorCount].time
  {
    var f := Failure(now, s'.errorCount, s'.lastReset, s'.errorCount >= BREAKER_THRESHOLD);
    assert (log + [f])[|log|] == f;
    ExtendLog(log, f);
  }

  lemma SuccessKeeps(s: State, l: Ledger, key: Key, a: Attempt, complete: int, clock: int)
    requires Inv(s.(active := map[]), l) && s.active == map[key := a]
    requires forall i :: 0 <= i < |s.history| ==> s.history[i].startedAt <= a.startedAt
    requires l.clock <= clock && a.startedAt <= clock
    ensures Inv(FinishAt(s, key, a, Succeeded, complete, clock), Ledger(l.failures, clock))
  {
    assert s.active - {key} == map[];
  }

  lemma FailureKeeps(s: State, l: Ledger, key: Key, a: Attempt, o: Outcome, complete: int, clock: int)
    requires Inv(s.(active := map[]), l) && s.active == map[key := a] && !s.isOpen && !o.Succeeded?
    requires forall i :: 0 <= i < |s.history| ==> s.history[i].startedAt <= a.startedAt
    requires l.clock <= clock && a.startedAt <= clock
    ensures var s' := FinishAt(s, key, a, o, complete, clock);
      var failure := Failure(clock, s'.errorCount, s'.lastReset, s'.errorCount >= BREAKER_THRESHOLD);
      Inv(s', Ledger(l.failures + [failure], clock))
    ensures var s' := FinishAt(s, key, a, o, complete, clock);
      s'.isOpen && s'.openedAt == Some(clock) <==> s'.errorCount >= BREAKER_THRESHOLD
  {
    assert s.active - {key} == map[];
    assert forall k :: 0 <= k < |l.failures| ==> l.failures[k].time <= l.failures[|l.failures| - 1].time;
    FailureEntry(s, FinishAt(s, key, a, o, complete, clock), l.failures, clock);
  }

  lemma HandleKeeps(w: Wiring, s: State, l: Ledger, key: Key, e: Event)
    requires Inv(s, l) && InTime(e, l.clock) && e.HandleError?
    ensures Inv(NextAt(w, s, key, e), RecordAt(w, s, l, key, e))
  {
    var r := e.readings;
    BeginKeeps(w, s, l, key, e.error, r);
    var (s1, reply) := BeginAt(w, s, key, e.error, r);
    if reply.Started? && e.outcome.Succeeded? {
      SuccessKeeps(s1, l, key, reply.attempt, r.complete, r.count);
    } else if reply.Started? {
      FailureKeeps(s1, l, key, reply.attempt, e.outcome, r.complete, r.count);
    }
  }

  lemma StepKeeps(w: Wiring, s: State, l: Ledger, e: Event)
    requires Inv(s, l) && InTime(e, l.clock)
    ensures Inv(Next(w, s, e), Record(w, s, l, e))
  {
    if e.HandleError? { HandleKeeps(w, s, l, KeyFor(e), e); }
  }

  lemma {:induction false} RunKeeps(w: Wiring, s: State, l: Ledger, es: seq<Event>)
    requires Inv(s, l) && ValidRun(w, s, l, es)
    ensures Inv(After(w, s, l, es).0, After(w, s, l, es).1)
    decreases |es|
  {
    if es != [] {
      StepKeeps(w, s, l, es[0]);
      RunKeeps(w, Next(w, s, es[0]), Record(w, s, l, es[0]), es[1..]);
    }
  }

  // The breaker is set open only by a failure that has nine others within the hour
  // before it, whatever resets an administrator forces in between.
  lemma OpensOnlyAfterTen(w: Wiring, start: int, es: seq<Event>, k: nat)
    requires ValidRun(w, Fresh(start), Ledger([], start), es)
    requires k < |After(w, Fresh(start), Ledger([], start), es).1.failures|
    ensures var log := After(w, Fresh(start), Ledger([], start), es).1.failures;
      log[k].tripped ==> k >= 9 && log[k].time - HOUR <= log[k - 9].time <= log[k].time
  {
    RunKeeps(w, Fresh(start), Ledger([], start), es);
    var log := After(w, Fresh(start), Ledger([], start), es).1.failures;
    if log[k].tripped {
      TrippedAfterTen(log, k);
    }
  }

  lemma TrippedAfterTen(log: seq<Failure>, k: nat)
    requires LogOk(log) && k < |log| && log[k].tripped
    ensures k >= 9 && log[k].time - HOUR <= log[k - 9].time <= log[k].time
  {
    assert EntryOk(log, k);
    assert log[k + 1 - log[k].count].time <= log[k - 9].time;
  }

  /******* Nineteen failures in an hour, without forced resets *******/

  // How the counter goes from one counted failure to the next.
  ghost predicate Continues(log: seq<Failure>, k: nat)
    requires 0 < k < |log|
  {
    if log[k].time - log[k - 1].since > HOUR
    then log[k].count == 1 && log[k].since == log[k].time
    else log[k].count == log[k - 1].count + 1 && log[k].since == log[k - 1].since
  }

  ghost predicate Linked(s: State, log: seq<Failure>) {
    && (forall k :: 0 < k < |log| ==> Continues(log, k))
    && (log != [] ==> log[|log| - 1].count == s.errorCount && log[|log| - 1].since == s.lastReset)
  }

  lemma LinkStep(w: Wiring, s: State, l: Ledger, key: Key, e: Event)
    requires Linked(s, l.failures) && e.HandleError?
    ensures Linked(NextAt(w, s, key, e), RecordAt(w, s, l, key, e).failures)
  {
    var log, log' := l.failures, RecordAt(w, s, l, key, e).failures;
    forall k | 0 < k < |log'| ensures Continues(log', k) {
      if k < |log| { assert Continues(log, k); }
    }
  }

  lemma {:induction false} LinkRun(w: Wiring, s: State, l: Ledger, es: seq<Event>)
    requires Linked(s, l.failures) && NoReset(es)
    ensures Linked(After(w, s, l, es).0, After(w, s, l, es).1.failures)
    decreases |es|
  {
    if es != [] {
      LinkStep(w, s, l, KeyFor(es[0]), es[0]);
      LinkRun(w, Next(w, s, es[0]), Record(w, s, l, es[0]), es[1..]);
    }
  }

  // As long as the counter's hour is not over, it counts up by one.
  lemma {:induction false} CountsUp(log: seq<Failure>, i: nat, j: nat)
    requires i <= j < |log|
    requires forall k :: i < k <= j ==> Continues(log, k) && log[k].time - log[k - 1].since <= HOUR
    ensures log[j].count == log[i].count + (j - i) && log[j].since == log[i].since
  {
    if i < j {
      CountsUp(log, i, j - 1);
      assert Continues(log, j);
    }
  }

  // The first of the entries i+1..j at which the counter starts a new hour.
  lemma {:induction false} FirstTumble(log: seq<Failure>, i: nat, j: nat) returns (r: nat)
    requires i <= j < |log|
    ensures i < r <= j + 1
    ensures forall k :: i < k < r ==> log[k].time - log[k - 1].since <= HOUR
    ensures r <= j ==> log[r].time - log[r - 1].since > HOUR
  {
    r := i + 1;
    while r <= j && log[r].time - log[r - 1].since <= HOUR
      invariant i < r <= j + 1
      invariant forall k :: i < k < r ==> log[k].time - log[k - 1].since <= HOUR
    {
      r := r + 1;
    }
  }

  lemma {:induction false} NoSecondTumble(log: seq<Failure>, r: nat, j: nat, k: nat)
    requires 0 < r <= k <= j < |log| && Ordered(log)
    requires forall n :: 0 < n < |log| ==> Continues(log, n)
    requires log[r].since == log[r].time && log[j].time - log[r].time <= HOUR
    ensures log[k].since == log[r].time && log[k].count == log[r].count + (k - r)
  {
    if r < k {
      NoSecondTumble(log, r, j, k - 1);
      assert Continues(log, k);
      assert log[k].time <= log[j].time;
    }
  }

  lemma NineteenInAnHour(log: seq<Failure>, i: nat)
    requires LogOk(log) && forall k :: 0 < k < |log| ==> Continues(log, k)
    requires i + 18 < |log| && log[i + 18].time - log[i].time <= HOUR
    ensures exists k :: i <= k <= i + 18 && log[k].tripped
  {
    var j := i + 18;
    assert EntryOk(log, i) && EntryOk(log, j);
    var r := FirstTumble(log, i, j);
    CountsUp(log, i, r - 1);
    assert EntryOk(log, r - 1);
    if r <= j {
      assert Continues(log, r);
      assert r == i || log[i].time <= log[r].time;
      NoSecondTumble(log, r, j, j);
    }
    assert log[r - 1].tripped || log[j].tripped;
  }

  // Without forced resets, an interval of at most an hour that holds nineteen counted
  // failures holds one that sets the breaker open.
  lemma NineteenOpen(w: Wiring, start: int, es: seq<Event>, i: nat)
    requires ValidRun(w, Fresh(start), Ledger([], start), es) && NoReset(es)
    requires i + 18 < |After(w, Fresh(start), Ledger([], start), es).1.failures|
    ensures var log := After(w, Fresh(start), Ledger([], start), es).1.failures;
      log[i + 18].time - log[i].time <= HOUR ==> exists k :: i <= k <= i + 18 && log[k].tripped
  {
    RunKeeps(w, Fresh(start), Ledger([], start), es);
    LinkRun(w, Fresh(start), Ledger([], start), es);
    var log := After(w, Fresh(start), Ledger([], start), es).1.failures;
    if log[i + 18].time - log[i].time <= HOUR {
      NineteenInAnHour(log, i);
    }
  }

  /******* Nineteen is exact *******/

  // Nine errors when the hour of a fresh counter has just not passed, nine a microsecond
  // later, each with a code of its own.
  function NthTime(start: int, i: nat): int {
    if i < 9 then start + HOUR else start + HOUR + 1
  }

  function NthError(i: nat): ExtensionError {
    ExtensionError(UnknownError, MediumSeverity, seq(i, _ => 'c'), None, None)
  }

  function NthEvent(start: int, i: nat): Event {
    var t := NthTime(start, i);
    HandleError(NthError(i), Readings(t, t, t, t, t), Failed)
  }

  function FromNth(start: int, i: nat): seq<Event>
    requires i <= 18
    decreases 18 - i
  {
    if i == 18 then [] else [NthEvent(start, i)] + FromNth(start, i + 1)
  }

  // What the first i of them lead to.
  ghost predicate AfterNth(start: int, s: State, l: Ledger, i: nat) {
    && !s.isOpen && s.active == map[] && |s.history| == i && |l.failures| == i
    && s.errorCount == (if i <= 9 then i else i - 9)
    && s.lastReset == (if i <= 9 then start else start + HOUR + 1)
    && l.clock <= NthTime(start, i)
    && (forall k :: 0 <= k < i ==> |s.history[k].error.code| == k)
    && (forall k :: 0 <= k < i ==> l.failures[k].time == NthTime(start, k) && !l.failures[k].tripped)
  }

  lemma {:induction false} NewCode(history: seq<Attempt>, code: string, st: Strategy, since: int)
    requires forall k :: 0 <= k < |history| ==> history[k].error.code != code
    ensures CountSince(history, code, st, since) == 0
  {
    if history != [] {
      NewCode(history[..|history| - 1], code, st, since);
    }
  }

  lemma NthStep(w: Wiring, start: int, s: State, l: Ledger, i: nat)
    requires AfterNth(start, s, l, i) && i < 18
    ensures InTime(NthEvent(start, i), l.clock)
    ensures AfterNth(start, Next(w, s, NthEvent(start, i)), Record(w, s, l, NthEvent(start, i)), i + 1)
  {
    var e := NthEvent(start, i);
    NewCode(s.history, e.error.code, Degradation, e.readings.choose - HOUR);
    DegradationIsChosen(w, s.history, e.error, e.readings.choose);
    var a := Attempt(e.error, Degradation, e.readings.start, None, false);
    assert Begin(w, s, e.error, e.readings) == (s.(active := map[KeyOf(e.error) := a]), Started(a));
    assert map[KeyOf(e.error) := a] - {KeyOf(e.error)} == map[];
  }

  lemma {:induction false} NthRun(w: Wiring, start: int, s: State, l: Ledger, i: nat)
    requires AfterNth(start, s, l, i) && i <= 18
    ensures ValidRun(w, s, l, FromNth(start, i))
    ensures var (s', l') := After(w, s, l, FromNth(start, i)); AfterNth(start, s', l', 18)
    decreases 18 - i
  {
    if i < 18 {
      NthStep(w, start, s, l, i);
      assert FromNth(start, i)[1..] == FromNth(start, i + 1);
      NthRun(w, start, Next(w, s, NthEvent(start, i)), Record(w, s, l, NthEvent(start, i)), i + 1);
    }
  }

  // Eighteen calls within an hour that all fail leave the breaker closed.
  lemma EighteenMayPass(w: Wiring, start: int)
    ensures var es := FromNth(start, 0);
      && ValidRun(w, Fresh(start), Ledger([], start), es) && NoReset(es)
      && var (s, l) := After(w, Fresh(start), Ledger([], start), es);
      && |l.failures| == 18 && l.failures[17].time - l.failures[0].time <= HOUR
      && (forall k :: 0 <= k < 18 ==> !l.failures[k].tripped) && !s.isOpen
  {
    NthRun(w, start, Fresh(start), Ledger([], start), 0);
    OnlyErrors(start, 0);
  }

  lemma {:induction false} OnlyErrors(start: int, i: nat)
    requires i <= 18
    ensures NoReset(FromNth(start, i))
    decreases 18 - i
  {
    if i < 18 {
      OnlyErrors(start, i + 1);
    }
  }

  // While the breaker is open, calls change nothing at all until five minutes after the
  // failure that opened it.
  lemma {:induction false} QuietWhileOpen(w: Wiring, s: State, l: Ledger, es: seq<Event>)
    requires s.isOpen && s.openedAt.Some? && NoReset(es) && ValidRun(w, s, l, es)
    requires forall e :: e in es && e.HandleError? ==> e.readings.look < s.openedAt.value + OPEN_PERIOD
    ensures After(w, s, l, es).0 == s && After(w, s, l, es).1.failures == l.failures
    decreases |es|
  {
    if es != [] {
      assert es[0] in es && es[0].HandleError?;
      assert Next(w, s, es[0]) == s;
      QuietWhileOpen(w, s, Record(w, s, l, es[0]), es[1..]);
    }
  }

  /******* The hourly limit *******/

  // Attempts for a code and strategy that began in (lo, hi].
  function CountIn(history: seq<Attempt>, code: string, st: Strategy, lo: int, hi: int): nat {
    if history == [] then 0
    else
      var last := history[|history| - 1];
      CountIn(history[..|history| - 1], code, st, lo, hi) +
      (if last.error.code == code && last.strategy == st && lo < last.startedAt <= hi then 1 else 0)
  }

  lemma {:induction false} CountInBelowSince(history: seq<Attempt>, code: string, st: Strategy, lo: int, hi: int,
      since: int)
    requires since <= lo
    ensures CountIn(history, code, st, lo, hi) <= CountSince(history, code, st, since)
  {
    if history != [] {
      CountInBelowSince(history[..|history| - 1], code, st, lo, hi, since);
    }
  }

  ghost predicate Limited(history: seq<Attempt>) {
    forall code, st, lo, hi :: hi - lo <= HOUR ==> CountIn(history, code, st, lo, hi) <= MaxAttempts(st)
  }

  lemma OneMore(history: seq<Attempt>, a: Attempt, choose: int)
    requires Limited(history) && choose <= a.startedAt
    requires CountSince(history, a.error.code, a.strategy, choose - HOUR) < MaxAttempts(a.strategy)
    ensures Limited(history + [a])
  {
    var history' := history + [a];
    assert history'[..|history'| - 1] == history;
    forall code, st, lo, hi | hi - lo <= HOUR
      ensures CountIn(history', code, st, lo, hi) <= MaxAttempts(st)
    {
      if a.error.code == code && a.strategy == st && lo < a.startedAt <= hi {
        CountInBelowSince(history, code, st, lo, hi, choose - HOUR);
      }
    }
  }

  lemma StepLimited(w: Wiring, s: State, l: Ledger, key: Key, e: Event)
    requires Inv(s, l) && InTime(e, l.clock) && Limited(s.history)
    ensures Limited(NextAt(w, s, key, e).history)
  {
    if e.HandleError? {
      BeginKeeps(w, s, l, key, e.error, e.readings);
      var reply := BeginAt(w, s, key, e.error, e.readings).1;
      if reply.Started? {
        var done := reply.attempt.(completedAt := Some(e.readings.complete), success := e.outcome.Succeeded?);
        assert NextAt(w, s, key, e).history == s.history + [done];
        OneMore(s.history, done, e.readings.choose);
      }
    }
  }

  lemma {:induction false} RunLimited(w: Wiring, s: State, l: Ledger, es: seq<Event>)
    requires Inv(s, l) && ValidRun(w, s, l, es) && Limited(s.history)
    ensures Limited(After(w, s, l, es).0.history)
    decreases |es|
  {
    if es != [] {
      StepKeeps(w, s, l, es[0]);
      StepLimited(w, s, l, KeyFor(es[0]), es[0]);
      RunLimited(w, Next(w, s, es[0]), Record(w, s, l, es[0]), es[1..]);
    }
  }

  // Over any sequential run, in any sliding hour (lo, hi], the attempts begun for an
  // error code with a strategy stay within that strategy's limit.
  lemma HourlyLimit(w: Wiring, start: int, es: seq<Event>, code: string, st: Strategy, lo: int, hi: int)
    requires ValidRun(w, Fresh(start), Ledger([], start), es) && hi - lo <= HOUR
    ensures CountIn(After(w, Fresh(start), Ledger([], start), es).0.history, code, st, lo, hi) <= MaxAttempts(st)
  {
    RunLimited(w, Fresh(start), Ledger([], start), es);
  }

  // An unknown error of medium severity is for graceful degradation only.
  lemma DegradationIsChosen(w: Wiring, history: seq<Attempt>, e: ExtensionError, now: int)
    requires e.category == UnknownError && e.severity == MediumSeverity
    requires CountSince(history, e.code, Degradation, now - HOUR) == 0
    ensures Select(w, history, e, now) == Some(Degradation)
  {
    SelectIsFirstFit(w, history, e, now);
    assert Eligible(w, history, e, Degradation, now);
    assert forall st :: st != Degradation ==> !CanHandle(w, st, e);
  }
}
