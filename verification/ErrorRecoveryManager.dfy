/** The error recovery manager as the program writes it. Each method is proved to take the
    step of module ErrorRecovery. */
module ErrorRecoveryManager {
  import opened Prelude
  import opened ErrorRecovery

  class RecoveryManager {
    const wiring: Wiring
    var isOpen: bool
    var openedAt: Option<int>
    var errorCount: nat
    var lastReset: int
    var history: seq<Attempt>
    var active: map<Key, Attempt>

    ghost function View(): State
      reads this
    {
      State(isOpen, openedAt, errorCount, lastReset, history, active)
    }

    constructor (wiring: Wiring, now: int)
      ensures View() == Fresh(now) && this.wiring == wiring
      ensures !isOpen && openedAt == None && errorCount == 0 && lastReset == now && history == [] && active == map[]
    {
      this.wiring := wiring;
      isOpen, openedAt, errorCount, lastReset := false, None, 0, now;
      history, active := [], map[];
    }

    method ResetCircuitBreaker()
      modifies this
      ensures View() == ResetBreaker(old(View()))
    {
      if isOpen {
        isOpen := false;
        openedAt := None;
      }
    }

    method IsCircuitBreakerOpen(now: int) returns (open: bool)
      modifies this
      ensures View() == AfterLook(old(View()), now)
      ensures open == isOpen
      ensures open <==> old(isOpen) && (old(openedAt).None? || now < old(openedAt).value + 300_000_000)
      ensures openedAt == (if old(isOpen) && !open then None else old(openedAt))
      ensures unchanged(`errorCount, `lastReset, `history, `active)
    {
      if !isOpen {
        return false;
      }
      if openedAt.Some? {
        if now >= openedAt.value + OPEN_PERIOD {
          ResetCircuitBreaker();
          return false;
        }
      }
      return true;
    }

    method CountError(now: int)
      modifies this
      ensures View() == IncrementErrorCount(old(View()), now)
    {
      if now - lastReset > HOUR {
        errorCount := 0;
        lastReset := now;
      }
      errorCount := errorCount + 1;
      if errorCount >= BREAKER_THRESHOLD {
        isOpen := true;
        openedAt := Some(now);
      }
    }

    method ForceCircuitBreakerReset(now: int)
      modifies this
      ensures View() == ForceReset(old(View()), now)
    {
      ResetCircuitBreaker();
      errorCount := 0;
      lastReset := now;
    }

    method SelectRecoveryStrategy(e: ExtensionError, now: int) returns (choice: Option<Strategy>)
      ensures choice == Select(wiring, history, e, now)
    {
      var i := 0;
      while i < |STRATEGIES|
        invariant i <= |STRATEGIES|
        invariant SelectFrom(wiring, history, e, now, i) == Select(wiring, history, e, now)
      {
        var st := STRATEGIES[i];
        if CanHandle(wiring, st, e) {
          var attempts := CountRecent(e.code, st, now);
          if attempts < MaxAttempts(st) {
            return Some(st);
          }
        }
        i := i + 1;
      }
      return None;
    }

    method CountRecent(code: string, st: Strategy, now: int) returns (n: nat)
      ensures n == CountSince(history, code, st, now - HOUR)
    {
      n := 0;
      var i := 0;
      while i < |history|
        invariant i <= |history|
        invariant n == CountSince(history[..i], code, st, now - HOUR)
      {
        assert history[..i + 1][..i] == history[..i];
        if history[i].error.code == code && history[i].strategy == st && history[i].startedAt > now - HOUR {
          n := n + 1;
        }
        i := i + 1;
      }
      assert history[..|history|] == history;
    }

    // Up to the suspension in the strategy.
    method BeginRecovery(e: ExtensionError, r: Readings) returns (reply: Reply)
      modifies this
      ensures (View(), reply) == Begin(wiring, old(View()), e, r)
    {
      var open := IsCircuitBreakerOpen(r.look);
      if open {
        return BreakerOpen;
      }
      if KeyOf(e) in active {
        if active[KeyOf(e)].completedAt.None? {
          return AlreadyInProgress(active[KeyOf(e)].strategy);
        }
      }
      var choice := SelectRecoveryStrategy(e, r.choose);
      if choice.None? {
        return NoStrategy;
      }
      var attempt := Attempt(e, choice.value, r.start, None, false);
      active := active[KeyOf(e) := attempt];
      return Started(attempt);
    }

    // From the end of the strategy on, whichever way it ended.
    method EndRecovery(attempt: Attempt, o: Outcome, complete: int, count: int)
      modifies this
      ensures View() == Finish(old(View()), attempt, o, complete, count)
    {
      var done := attempt.(completedAt := Some(complete), success := o.Succeeded?);
      history := history + [done];
      active := active - {KeyOf(attempt.error)};
      if o.Succeeded? {
        ResetCircuitBreaker();
      } else {
        CountError(count);
      }
    }

    method HandleOne(e: ExtensionError, r: Readings, o: Outcome) returns (reply: Reply)
      modifies this
      ensures View() == Handle(wiring, old(View()), e, r, o)
      ensures reply == Begin(wiring, old(View()), e, r).1
    {
      reply := BeginRecovery(e, r);
      if reply.Started? {
        EndRecovery(reply.attempt, o, r.complete, r.count);
      }
    }
  }
}
