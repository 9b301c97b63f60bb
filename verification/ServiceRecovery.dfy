/** The service recovery scheduler: services, the recovery queue and the tasks that
    carry out recovery actions, as pure steps from one state to the next.

    Each step is one stretch of the program without a suspension point; a run is any
    interleaving of such stretches. */
module ServiceRecovery {
  import opened Prelude

  datatype ServiceKind = Extension | Authentication | Database | BackgroundTasks | ExtensionApi | OtherKind

  datatype Strategy =
    | RestartService | ReloadExtension | ResetConnections
    | GracefulDegradation | EscalateToAdmin | WaitAndRetry

  datatype Priority = Critical | High | Medium | Low

  datatype Service = Service(
    kind: ServiceKind,
    healthy: bool,
    failureCount: int,
    recoveryAttempts: nat,
    lastAttempt: Option<int>,
    inProgress: bool,
    degraded: bool,
    escalated: bool)

  datatype Action = Action(
    strategy: Strategy,
    target: string,
    priority: Priority,
    maxAttempts: nat,
    attempts: nat,
    createdAt: int,
    lastAttempt: Option<int>,
    success: bool)

  // Where the coroutine of a recovery task is suspended: not yet scheduled, awaiting
  // the recovery function, or sleeping before a retry.
  datatype Phase = Created | Executing | Backoff(wakeAt: int)

  datatype Task = Task(action: Action, phase: Phase)

  datatype State = State(
    order: seq<string>,          // names in the order the services were registered
    services: map<string, Service>,
    queue: seq<Action>,
    active: map<string, nat>,    // target -> task
    tasks: map<nat, Task>,       // tasks that have not finished
    nextTask: nat,
    history: seq<Action>)

  const MAX_CONCURRENT: nat := 3
  const ESCALATION_THRESHOLD: int := 5
  const DEGRADATION_THRESHOLD: int := 3
  const COOL_DOWN: int := 5 * MINUTE
  const ACTION_BACKOFF: int := SECOND
  const MAX_BACKOFF: int := 60 * SECOND
  const HISTORY_RETENTION: int := 24 * HOUR

  /******* Decisions taken for one service *******/

  function StrategyFor(v: Service): Strategy {
    if v.failureCount >= ESCALATION_THRESHOLD then EscalateToAdmin
    else if v.failureCount >= DEGRADATION_THRESHOLD && v.kind == Extension then GracefulDegradation
    else if v.failureCount >= DEGRADATION_THRESHOLD && v.kind == Database then ResetConnections
    else match v.kind
      case Extension => ReloadExtension
      case Authentication => RestartService
      case Database => RestartService
      case BackgroundTasks => RestartService
      case ExtensionApi => WaitAndRetry
      case OtherKind => WaitAndRetry
  }

  function PriorityFor(v: Service): Priority {
    match v.kind
    case Authentication => Critical
    case Extension => High
    case ExtensionApi => High
    case Database => High
    case BackgroundTasks => High
    case OtherKind => Medium
  }

  function MaxAttemptsFor(kind: ServiceKind): nat {
    match kind
    case Authentication => 5
    case Extension => 3
    case _ => 2
  }

  predicate ShouldAttempt(v: Service, now: int) {
    && !v.escalated
    && !(v.lastAttempt.Some? && now - v.lastAttempt.value < COOL_DOWN && v.recoveryAttempts >= 3)
  }

  function Pow2(n: nat): nat {
    if n == 0 then 1 else 2 * Pow2(n - 1)
  }

  // Pause after the attempt with the given ordinal (1, 2, ...) of an action.
  function BackoffAfter(ordinal: nat): int
    requires ordinal > 0
  {
    Min(ACTION_BACKOFF * Pow2(ordinal - 1), MAX_BACKOFF)
  }

  /******* Priority order of the queue *******/

  function Rank(p: Priority): nat {
    match p
    case Critical => 0
    case High => 1
    case Medium => 2
    case Low => 3
  }

  // Insert in front of the first action that is not more urgent.
  function Insert(a: Action, q: seq<Action>): seq<Action> {
    if q == [] || Rank(a.priority) <= Rank(q[0].priority) then [a] + q
    else [q[0]] + Insert(a, q[1..])
  }

  function StableSort(q: seq<Action>): seq<Action> {
    if q == [] then [] else Insert(q[0], StableSort(q[1..]))
  }

  /******* Steps *******/

  function UpdateHealth(s: State, name: string, healthy: bool): State {
    if name !in s.services then s else
      var v := s.services[name];
      s.(services := s.services[name := v.(
        healthy := healthy,
        failureCount := if healthy then 0 else v.failureCount + 1)])
  }

  predicate NeedsRecovery(v: Service, now: int) {
    !v.healthy && !v.inProgress && ShouldAttempt(v, now)
  }

  function NewAction(name: string, v: Service, now: int): Action {
    Action(StrategyFor(v), name, PriorityFor(v), MaxAttemptsFor(v.kind), 0, now, None, false)
  }

  function DetectOne(s: State, name: string, now: int): State {
    if name in s.services && NeedsRecovery(s.services[name], now) then
      var v := s.services[name];
      s.(queue := s.queue + [NewAction(name, v, now)],
         services := s.services[name := v.(inProgress := true)])
    else s
  }

  // The first n registered services have been looked at.
  function DetectFirst(s: State, n: nat, now: int): State
    requires n <= |s.order|
    ensures DetectFirst(s, n, now).order == s.order
  {
    if n == 0 then s else DetectOne(DetectFirst(s, n - 1, now), s.order[n - 1], now)
  }

  function Detect(s: State, now: int): State {
    DetectFirst(s, |s.order|, now)
  }

  function StartOne(s: State): State
    requires s.queue != []
  {
    s.(queue := s.queue[1..],
       tasks := s.tasks[s.nextTask := Task(s.queue[0], Created)],
       active := s.active[s.queue[0].target := s.nextTask],
       nextTask := s.nextTask + 1)
  }

  function StartWhileFree(s: State): State
    decreases |s.queue|
  {
    if |s.active| < MAX_CONCURRENT && s.queue != [] then StartWhileFree(StartOne(s)) else s
  }

  function ProcessQueue(s: State): State {
    if s.queue == [] then s else StartWhileFree(s.(queue := StableSort(s.queue)))
  }

  predicate InPhase(s: State, t: nat, phase: Phase) {
    t in s.tasks && s.tasks[t].phase == phase
  }

  function BeginAttempt(s: State, t: nat, now: int): State
    requires InPhase(s, t, Created)
  {
    var a := s.tasks[t].action.(attempts := s.tasks[t].action.attempts + 1, lastAttempt := Some(now));
    var services' :=
      if a.target in s.services then
        var v := s.services[a.target];
        s.services[a.target := v.(recoveryAttempts := v.recoveryAttempts + 1, lastAttempt := Some(now))]
      else s.services;
    s.(tasks := s.tasks[t := Task(a, Executing)], services := services')
  }

  // What a recovery function writes to the state of its service while it runs.
  function Affected(v: Service, strategy: Strategy): Service {
    match strategy
    case GracefulDegradation => v.(degraded := true)
    case EscalateToAdmin => v.(escalated := true)
    case WaitAndRetry => v.(failureCount := if v.failureCount - 1 > 0 then v.failureCount - 1 else 0)
    case _ => v
  }

  function RecoveryEffect(s: State, t: nat): State
    requires InPhase(s, t, Executing)
  {
    var a := s.tasks[t].action;
    if a.target !in s.services then s else
      s.(services := s.services[a.target := Affected(s.services[a.target], a.strategy)])
  }

  // The task ends: it leaves the task table, and the entry of its target leaves `active`.
  function EndTask(s: State, t: nat): State
    requires t in s.tasks
  {
    s.(tasks := s.tasks - {t}, active := s.active - {s.tasks[t].action.target})
  }

  function Succeed(s: State, t: nat): State
    requires InPhase(s, t, Executing)
  {
    var a := s.tasks[t].action.(success := true);
    var s1 := EndTask(s, t);
    s1.(history := s.history + [a],
        services := if a.target in s.services
                    then s.services[a.target := s.services[a.target].(inProgress := false, failureCount := 0)]
                    else s.services)
  }

  predicate LastTry(a: Action) {
    a.attempts >= a.maxAttempts
  }

  function Fail(s: State, t: nat, now: int): State
    requires InPhase(s, t, Executing) && s.tasks[t].action.attempts > 0
  {
    var a := s.tasks[t].action;
    if !LastTry(a) then
      s.(tasks := s.tasks[t := Task(a, Backoff(now + BackoffAfter(a.attempts)))])
    else
      var s1 := EndTask(s, t);
      s1.(history := s.history + [a],
          services := if a.target in s.services
                      then s.services[a.target := s.services[a.target].(inProgress := false, escalated := true)]
                      else s.services)
  }

  function Requeue(s: State, t: nat): State
    requires t in s.tasks && s.tasks[t].phase.Backoff?
  {
    EndTask(s, t).(queue := s.queue + [s.tasks[t].action])
  }

  function DropFinished(s: State): State {
    s.(active := map name | name in s.active && s.active[name] in s.tasks :: s.active[name])
  }

  function RecentOnly(h: seq<Action>, cutoff: int): seq<Action> {
    if h == [] then []
    else if h[0].createdAt >= cutoff then [h[0]] + RecentOnly(h[1..], cutoff)
    else RecentOnly(h[1..], cutoff)
  }

  function CleanHistory(s: State, now: int): State {
    s.(history := RecentOnly(s.history, now - HISTORY_RETENTION))
  }

  /******* Runs *******/

  datatype Event =
    | Health(name: string, healthy: bool)
    | DetectPass(now: int)
    | QueuePass
    | Begin(task: nat, now: int)
    | Effect(task: nat)
    | Success(task: nat)
    | Failure(task: nat, now: int)
    | Wake(task: nat, now: int)
    | CleanTasks
    | CleanOld(now: int)

  predicate Enabled(s: State, e: Event) {
    match e
    case Begin(t, _) => InPhase(s, t, Created)
    case Effect(t) => InPhase(s, t, Executing)
    case Success(t) => InPhase(s, t, Executing)
    case Failure(t, _) => InPhase(s, t, Executing) && s.tasks[t].action.attempts > 0
    case Wake(t, now) => t in s.tasks && s.tasks[t].phase.Backoff? && s.tasks[t].phase.wakeAt <= now
    case _ => true
  }

  function Next(s: State, e: Event): State
    requires Enabled(s, e)
  {
    match e
    case Health(name, healthy) => UpdateHealth(s, name, healthy)
    case DetectPass(now) => Detect(s, now)
    case QueuePass => ProcessQueue(s)
    case Begin(t, now) => BeginAttempt(s, t, now)
    case Effect(t) => RecoveryEffect(s, t)
    case Success(t) => Succeed(s, t)
    case Failure(t, now) => Fail(s, t, now)
    case Wake(t, _) => Requeue(s, t)
    case CleanTasks => DropFinished(s)
    case CleanOld(now) => CleanHistory(s, now)
  }

  // A fresh manager: services registered, nothing queued, running or tried yet.
  ghost predicate Initial(s: State) {
    && (forall i, j :: 0 <= i < j < |s.order| ==> s.order[i] != s.order[j])
    && (forall name :: name in s.order <==> name in s.services)
    && s.queue == [] && s.active == map[] && s.tasks == map[] && s.history == []
    && forall name :: name in s.services ==>
         var v := s.services[name];
         v.recoveryAttempts == 0 && v.lastAttempt == None && !v.inProgress && !v.escalated
  }

  function Register(s: State, name: string, kind: ServiceKind, healthy: bool): State {
    s.(order := if name in s.services then s.order else s.order + [name],
       services := s.services[name := Service(kind, healthy, 0, 0, None, false, false, false)])
  }

  // Registering services is what leads to the states in which runs begin.
  lemma RegisterKeepsInitial(s: State, name: string, kind: ServiceKind, healthy: bool)
    requires Initial(s)
    ensures Initial(Register(s, name, kind, healthy))
  {
    var s' := Register(s, name, kind, healthy);
    if name !in s.services {
      assert s'.order[|s.order|] == name;
      assert forall n :: n in s'.order <==> n in s.order || n == name;
    }
  }
}
