/** The error recovery manager: a circuit breaker over a tumbling hour, first-fit choice
    of a strategy limited by a sliding hour, and a table of recoveries in flight. */
module ErrorRecovery {
  import opened Prelude
  import opened Strings

  datatype Category =
    | AuthenticationError | ServiceUnavailable | NetworkError | PermissionError
    | ConfigurationError | RateLimit | TimeoutError | UnknownError

  datatype Severity = LowSeverity | MediumSeverity | HighSeverity | CriticalSeverity

  datatype Strategy =
    | AuthTokenRefresh | ServiceRestart | CachedData | ReadOnlyFallback
    | NetworkRetry | Degradation | Escalation

  datatype ExtensionError = ExtensionError(
    category: Category,
    severity: Severity,
    code: string,
    endpoint: Option<string>,
    operation: Option<string>)

  datatype Attempt = Attempt(
    error: ExtensionError,
    strategy: Strategy,
    startedAt: int,
    completedAt: Option<int>,
    success: bool)

  // The collaborators the manager was built with.
  datatype Wiring = Wiring(auth: bool, restarter: bool, cache: bool)

  // Recoveries in flight are keyed by category, code, endpoint and operation, joined.
  type Key = string

  datatype State = State(
    isOpen: bool,
    openedAt: Option<int>,
    errorCount: nat,
    lastReset: int,
    history: seq<Attempt>,
    active: map<Key, Attempt>)

  const BREAKER_THRESHOLD: nat := 10
  const OPEN_PERIOD: int := 5 * MINUTE

  function Fresh(now: int): State {
    State(false, None, 0, now, [], map[])
  }

  function ShowCategory(c: Category): string {
    match c
    case AuthenticationError => "authentication"
    case ServiceUnavailable => "service_unavailable"
    case NetworkError => "network"
    case PermissionError => "permission"
    case ConfigurationError => "configuration"
    case RateLimit => "rate_limit"
    case TimeoutError => "timeout"
    case UnknownError => "unknown"
  }

  function KeyOf(e: ExtensionError): Key {
    ShowCategory(e.category) + ":" + (e.code + ":" + (Show(e.endpoint) + ":" + Show(e.operation)))
  }

  /******* The circuit breaker *******/

  function ResetBreaker(s: State): State {
    if s.isOpen then s.(isOpen := false, openedAt := None) else s
  }

  // Looking at the breaker may close it.
  function AfterLook(s: State, now: int): State {
    if s.isOpen && s.openedAt.Some? && now >= s.openedAt.value + OPEN_PERIOD then ResetBreaker(s) else s
  }

  function IncrementErrorCount(s: State, now: int): State {
    var s1 := if now - s.lastReset > HOUR then s.(errorCount := 0, lastReset := now) else s;
    var s2 := s1.(errorCount := s1.errorCount + 1);
    if s2.errorCount >= BREAKER_THRESHOLD then s2.(isOpen := true, openedAt := Some(now)) else s2
  }

  function ForceReset(s: State, now: int): State {
    ResetBreaker(s).(errorCount := 0, lastReset := now)
  }

  /******* Choice of a strategy *******/

  const STRATEGIES: seq<Strategy> :=
    [AuthTokenRefresh, ServiceRestart, CachedData, ReadOnlyFallback, NetworkRetry, Degradation, Escalation]

  predicate CanHandle(w: Wiring, st: Strategy, e: ExtensionError) {
    match st
    case AuthTokenRefresh =>
      e.category == AuthenticationError && e.code in ["TOKEN_EXPIRED", "TOKEN_INVALID"] && w.auth
    case ServiceRestart =>
      e.category == ServiceUnavailable && e.severity in [HighSeverity, CriticalSeverity] && w.restarter
    case CachedData => e.category in [ServiceUnavailable, NetworkError] && w.cache
    case ReadOnlyFallback => e.category == PermissionError
    case NetworkRetry => e.category in [NetworkError, TimeoutError]
    case Degradation => e.severity in [MediumSeverity, HighSeverity]
    case Escalation => e.severity == CriticalSeverity || e.category == ConfigurationError
  }

  function MaxAttempts(st: Strategy): nat {
    match st
    case AuthTokenRefresh => 2
    case ServiceRestart => 3
    case NetworkRetry => 5
    case _ => 1
  }

  // Attempts in the log for this error code and strategy that began after `since`.
  function CountSince(history: seq<Attempt>, code: string, st: Strategy, since: int): nat {
    if history == [] then 0
    else
      var last := history[|history| - 1];
      CountSince(history[..|history| - 1], code, st, since) +
      (if last.error.code == code && last.strategy == st && last.startedAt > since then 1 else 0)
  }

  predicate Eligible(w: Wiring, history: seq<Attempt>, e: ExtensionError, st: Strategy, now: int) {
    CanHandle(w, st, e) && CountSince(history, e.code, st, now - HOUR) < MaxAttempts(st)
  }

  function SelectFrom(w: Wiring, history: seq<Attempt>, e: ExtensionError, now: int, i: nat): Option<Strategy>
    requires i <= |STRATEGIES|
    decreases |STRATEGIES| - i
  {
    if i == |STRATEGIES| then None
    else if Eligible(w, history, e, STRATEGIES[i], now) then Some(STRATEGIES[i])
    else SelectFrom(w, history, e, now, i + 1)
  }

  function Select(w: Wiring, history: seq<Attempt>, e: ExtensionError, now: int): Option<Strategy> {
    SelectFrom(w, history, e, now, 0)
  }

  /******* Handling one error *******/

  // Readings of the clock in the course of one call.
  datatype Readings = Readings(look: int, choose: int, start: int, complete: int, count: int)

  predicate InOrder(r: Readings) {
    r.look <= r.choose <= r.start <= r.complete <= r.count
  }

  // How the strategy's `execute` ended.
  datatype Outcome = Succeeded | Failed | Raised

  datatype Reply = BreakerOpen | AlreadyInProgress(strategy: Strategy) | NoStrategy | Started(attempt: Attempt)

  // Up to the suspension in `execute`.
  function Begin(w: Wiring, s: State, e: ExtensionError, r: Readings): (State, Reply) {
    BeginAt(w, s, KeyOf(e), e, r)
  }

  function BeginAt(w: Wiring, s: State, key: Key, e: ExtensionError, r: Readings): (State, Reply) {
    var s1 := AfterLook(s, r.look);
    if s1.isOpen then (s1, BreakerOpen)
    else if key in s1.active && s1.active[key].completedAt.None? then
      (s1, AlreadyInProgress(s1.active[key].strategy))
    else match Select(w, s1.history, e, r.choose)
      case None => (s1, NoStrategy)
      case Some(st) =>
        var a := Attempt(e, st, r.start, None, false);
        (s1.(active := s1.active[key := a]), Started(a))
  }

  // From there on.
  function Finish(s: State, a: Attempt, o: Outcome, complete: int, count: int): State {
    FinishAt(s, KeyOf(a.error), a, o, complete, count)
  }

  function FinishAt(s: State, key: Key, a: Attempt, o: Outcome, complete: int, count: int): State {
    var s1 := s.(history := s.history + [a.(completedAt := Some(complete), success := o.Succeeded?)],
                 active := s.active - {key});
    if o.Succeeded? then ResetBreaker(s1) else IncrementErrorCount(s1, count)
  }

  // A whole call, with no other call overlapping it.
  function Handle(w: Wiring, s: State, e: ExtensionError, r: Readings, o: Outcome): State {
    HandleAt(w, s, KeyOf(e), e, r, o)
  }

  function HandleAt(w: Wiring, s: State, key: Key, e: ExtensionError, r: Readings, o: Outcome): State {
    var (s1, reply) := BeginAt(w, s, key, e, r);
    if reply.Started? then FinishAt(s1, key, reply.attempt, o, r.complete, r.count) else s1
  }

  /******* Runs of calls one after another *******/

  datatype Event =
    | HandleError(error: ExtensionError, readings: Readings, outcome: Outcome)
    | AdminReset(now: int)

  function Next(w: Wiring, s: State, e: Event): State {
    NextAt(w, s, KeyFor(e), e)
  }

  function KeyFor(e: Event): Key {
    if e.HandleError? then KeyOf(e.error) else ""
  }

  function NextAt(w: Wiring, s: State, key: Key, e: Event): State {
    match e
    case HandleError(error, r, o) => HandleAt(w, s, key, error, r, o)
    case AdminReset(now) => ForceReset(s, now)
  }

  predicate InTime(e: Event, clock: int) {
    match e
    case HandleError(_, r, _) => clock <= r.look && InOrder(r)
    case AdminReset(now) => clock <= now
  }

  function EndOf(e: Event): int {
    match e
    case HandleError(_, r, _) => r.count
    case AdminReset(now) => now
  }
}
