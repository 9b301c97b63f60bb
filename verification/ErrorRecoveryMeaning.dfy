/** What a call of `handle_error` does, on the fields of the manager and with the numbers
    written out: when the breaker refuses, when it closes, and which strategy is chosen. */
module ErrorRecoveryMeaning {
  import opened Prelude
  import opened Strings
  import opened ErrorRecovery
  import opened ErrorRecoveryRuns

  const FIVE_MINUTES: int := 300_000_000
  const ONE_HOUR: int := 3_600_000_000

  /******* Refused by the breaker, or not *******/

  // The breaker is open, and was not opened five minutes ago or more.
  predicate Refuses(s: State, look: int) {
    s.isOpen && (s.openedAt.None? || look < s.openedAt.value + FIVE_MINUTES)
  }

  // In any state: a call is refused exactly by a breaker that was not opened five minutes
  // ago or more, and changes nothing then; any other call finds the breaker closed, and
  // closes it if it was open.
  lemma RefusedExactly(w: Wiring, s: State, e: ExtensionError, r: Readings)
    ensures Begin(w, s, e, r).1.BreakerOpen? <==> Refuses(s, r.look)
    ensures var s' := Begin(w, s, e, r).0;
      if Refuses(s, r.look) then s' == s
      else
        && !s'.isOpen && s'.openedAt == (if s.isOpen then None else s.openedAt)
        && s'.errorCount == s.errorCount && s'.lastReset == s.lastReset && s'.history == s.history
  {
  }

  // What is noted about failures and the breaker at any moment without forced resets: it is
  // open exactly by the last failure, and every earlier opening is five minutes past.
  ghost predicate Openings(s: State, l: Ledger) {
    && (s.isOpen ==> l.failures != [] && l.failures[|l.failures| - 1].tripped
                     && s.openedAt == Some(l.failures[|l.failures| - 1].time))
    && forall k :: 0 <= k < |l.failures| && l.failures[k].tripped ==>
         (s.isOpen && k == |l.failures| - 1) || l.failures[k].time + FIVE_MINUTES <= l.clock
  }

  lemma OpeningsStep(w: Wiring, s: State, l: Ledger, key: Key, e: Event)
    requires Inv(s, l) && Openings(s, l) && InTime(e, l.clock) && e.HandleError?
    ensures Openings(NextAt(w, s, key, e), RecordAt(w, s, l, key, e))
  {
    BeginKeeps(w, s, l, key, e.error, e.readings);
  }

  lemma {:induction false} OpeningsRun(w: Wiring, s: State, l: Ledger, es: seq<Event>)
    requires Inv(s, l) && Openings(s, l) && ValidRun(w, s, l, es) && NoReset(es)
    ensures var (s', l') := After(w, s, l, es); Openings(s', l')
    decreases |es|
  {
    if es != [] {
      assert es[0] in es;
      StepKeeps(w, s, l, es[0]);
      OpeningsStep(w, s, l, KeyFor(es[0]), es[0]);
      OpeningsRun(w, Next(w, s, es[0]), Record(w, s, l, es[0]), es[1..]);
    }
  }

  // Over every run of calls one after another without forced resets: the next call is
  // refused exactly if some failure has set the breaker open less than five minutes before.
  // So the first call five minutes or more after the last opening is not refused.
  lemma RefusedWithinFiveMinutesExactly(w: Wiring, start: int, es: seq<Event>, e: ExtensionError, r: Readings)
    requires ValidRun(w, Fresh(start), Ledger([], start), es) && NoReset(es)
    requires After(w, Fresh(start), Ledger([], start), es).1.clock <= r.look
    ensures var (s, l) := After(w, Fresh(start), Ledger([], start), es);
      Begin(w, s, e, r).1.BreakerOpen? <==>
        exists k :: 0 <= k < |l.failures| && l.failures[k].tripped && r.look < l.failures[k].time + FIVE_MINUTES
  {
    var (s, l) := After(w, Fresh(start), Ledger([], start), es);
    OpeningsRun(w, Fresh(start), Ledger([], start), es);
    RefusedExactly(w, s, e, r);
    OpeningsRefuse(s, l, r.look);
  }

  lemma OpeningsRefuse(s: State, l: Ledger, look: int)
    requires Openings(s, l) && l.clock <= look
    ensures Refuses(s, look) <==>
      exists k :: 0 <= k < |l.failures| && l.failures[k].tripped && look < l.failures[k].time + FIVE_MINUTES
  {
    if s.isOpen {
      assert l.failures[|l.failures| - 1].tripped;
    }
  }

  // A forced reset closes the breaker at once and starts the count again.
  lemma ResetMeans(w: Wiring, s: State, now: int, e: ExtensionError, r: Readings)
    ensures var s' := Next(w, s, AdminReset(now));
      && !s'.isOpen && s'.errorCount == 0 && s'.lastReset == now
      && s'.history == s.history && s'.active == s.active
      && !Begin(w, s', e, r).1.BreakerOpen?
  {
  }

  /******* The end of an attempt *******/

  // The attempt leaves the table and is noted with its outcome. A success closes the
  // breaker and counts nothing; a failure is counted, from one again if the count began
  // more than an hour ago, and the tenth opens the breaker.
  lemma EndExactly(s: State, a: Attempt, o: Outcome, complete: int, count: int)
    ensures var s' := Finish(s, a, o, complete, count);
      && s'.history == s.history + [Attempt(a.error, a.strategy, a.startedAt, Some(complete), o == Succeeded)]
      && s'.active == s.active - {KeyOf(a.error)}
      && (o == Succeeded ==>
            !s'.isOpen && s'.errorCount == s.errorCount && s'.lastReset == s.lastReset
            && s'.openedAt == (if s.isOpen then None else s.openedAt))
      && (o != Succeeded ==>
            && s'.errorCount == (if count - s.lastReset > ONE_HOUR then 1 else s.errorCount + 1)
            && s'.lastReset == (if count - s.lastReset > ONE_HOUR then count else s.lastReset)
            && s'.isOpen == (s.isOpen || s'.errorCount >= 10)
            && s'.openedAt == (if s'.errorCount >= 10 then Some(count) else s.openedAt))
  {
  }

  /******* The strategy for an error *******/

  // Attempts of one strategy for one code that began less than an hour before.
  function Recent(history: seq<Attempt>, code: string, st: Strategy, now: int): set<nat> {
    set i: nat | i < |history| && IsRecent(history[i], code, st, now)
  }

  predicate IsRecent(a: Attempt, code: string, st: Strategy, now: int) {
    a.error.code == code && a.strategy == st && a.startedAt > now - ONE_HOUR
  }

  lemma {:induction false} CountSinceIsRecent(history: seq<Attempt>, code: string, st: Strategy, now: int)
    ensures CountSince(history, code, st, now - HOUR) == |Recent(history, code, st, now)|
  {
    if history == [] {
      assert Recent(history, code, st, now) == {};
    } else {
      var n := |history| - 1;
      var fewer, last := history[..n], history[n];
      CountSinceIsRecent(fewer, code, st, now);
      assert history == fewer + [last];
      RecentLast(fewer, last, code, st, now);
    }
  }

  lemma RecentLast(fewer: seq<Attempt>, last: Attempt, code: string, st: Strategy, now: int)
    ensures |Recent(fewer + [last], code, st, now)| == |Recent(fewer, code, st, now)| +
      (if IsRecent(last, code, st, now) then 1 else 0)
  {
    var all, n := fewer + [last], |fewer|;
    var before, after := Recent(fewer, code, st, now), Recent(all, code, st, now);
    forall i: nat ensures i in after <==> i in before || (i == n && IsRecent(last, code, st, now)) {
      if i < n {
        assert all[i] == fewer[i];
      }
    }
    if IsRecent(last, code, st, now) {
      assert after == before + {n};
    } else {
      assert after == before;
    }
  }

  // The manager's list, in order, with how often an hour each may be tried for one code.
  function Listed(): seq<(Strategy, nat)> {
    [(AuthTokenRefresh, 2), (ServiceRestart, 3), (CachedData, 1), (ReadOnlyFallback, 1),
     (NetworkRetry, 5), (Degradation, 1), (Escalation, 1)]
  }

  // Which errors a strategy is for.
  predicate IsFor(w: Wiring, st: Strategy, e: ExtensionError) {
    match st
    case AuthTokenRefresh =>
      w.auth && e.category == AuthenticationError && (e.code == "TOKEN_EXPIRED" || e.code == "TOKEN_INVALID")
    case ServiceRestart =>
      w.restarter && e.category == ServiceUnavailable && (e.severity == HighSeverity || e.severity == CriticalSeverity)
    case CachedData => w.cache && (e.category == ServiceUnavailable || e.category == NetworkError)
    case ReadOnlyFallback => e.category == PermissionError
    case NetworkRetry => e.category == NetworkError || e.category == TimeoutError
    case Degradation => e.severity == MediumSeverity || e.severity == HighSeverity
    case Escalation => e.severity == CriticalSeverity || e.category == ConfigurationError
  }

  ghost predicate Open(w: Wiring, history: seq<Attempt>, e: ExtensionError, k: nat, now: int)
    requires k < 7
  {
    var (st, limit) := Listed()[k];
    IsFor(w, st, e) && |Recent(history, e.code, st, now)| < limit
  }

  // An error gets the first strategy of the list that is for it and has been tried for its
  // code less often than its limit within the hour; and none exactly if there is no such.
  lemma ChoiceExactly(w: Wiring, history: seq<Attempt>, e: ExtensionError, now: int)
    ensures match Select(w, history, e, now)
      case Some(st) => (exists k: nat :: k < 7 && Listed()[k].0 == st && Open(w, history, e, k, now)
                          && forall j: nat :: j < k ==> !Open(w, history, e, j, now))
      case None => forall k: nat :: k < 7 ==> !Open(w, history, e, k, now)
  {
    forall k: nat | k < 7 ensures Open(w, history, e, k, now) <==> Eligible(w, history, e, STRATEGIES[k], now) {
      CountSinceIsRecent(history, e.code, STRATEGIES[k], now);
      assert Listed()[k] == (STRATEGIES[k], MaxAttempts(STRATEGIES[k]));
      assert IsFor(w, STRATEGIES[k], e) <==> CanHandle(w, STRATEGIES[k], e);
    }
    SelectIsFirstFit(w, history, e, now);
  }
}
