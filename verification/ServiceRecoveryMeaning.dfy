/** What the scheduler's steps do, on the fields of services, actions and tasks and with the
    numbers written out. */
module ServiceRecoveryMeaning {
  import opened Prelude
  import opened ServiceRecovery
  import opened ServiceRecoveryProofs
  import opened ServiceRecoveryRuns

  const A_SECOND: int := 1_000_000

  /******* Registration *******/

  // A manager without services is one in which runs begin, and so is every one that
  // registrations lead to.
  lemma FreshIsInitial()
    ensures Initial(State([], map[], [], map[], map[], 0, []))
  {
  }

  // A registered service is as healthy as said, has not failed or been tried, and is not
  // being recovered, degraded or given up.
  lemma RegisterExactly(s: State, name: string, kind: ServiceKind, healthy: bool)
    ensures var s', blank := Register(s, name, kind, healthy), Service(kind, healthy, 0, 0, None, false, false, false);
      && s' == s.(order := s'.order, services := s'.services)
      && s'.order == (if name in s.services then s.order else s.order + [name])
      && s'.services.Keys == s.services.Keys + {name} && s'.services[name] == blank
      && forall other :: other in s.services && other != name ==> s'.services[other] == s.services[other]
  {
  }

  // Every service has one place in the order of registration.
  ghost predicate Orderly(s: State) {
    && (forall i, j :: 0 <= i < j < |s.order| ==> s.order[i] != s.order[j])
    && (forall name :: name in s.order <==> name in s.services)
  }

  lemma OrderStays(s: State, e: Event)
    requires Enabled(s, e)
    ensures Next(s, e).order == s.order && Next(s, e).services.Keys == s.services.Keys
  {
    match e
    case DetectPass(now) =>
      DetectInduction(s, |s.order|, now, (s1: State) => s1.order == s.order && s1.services.Keys == s.services.Keys);
    case QueuePass => StartsLeaveServices(s.(queue := StableSort(s.queue)));
    case _ =>
  }

  lemma {:induction false} StartsLeaveServices(s: State)
    ensures StartWhileFree(s).order == s.order && StartWhileFree(s).services == s.services
    decreases |s.queue|
  {
    if |s.active| < MAX_CONCURRENT && s.queue != [] {
      StartsLeaveServices(StartOne(s));
    }
  }

  lemma {:induction false} OrderlyRun(s: State, l: Ledger, es: seq<Event>)
    requires Orderly(s) && ValidRun(s, l, es)
    ensures Orderly(After(s, l, es).0)
    decreases |es|
  {
    if es != [] {
      OrderStays(s, es[0]);
      OrderlyRun(Next(s, es[0]), Record(s, l, es[0]), es[1..]);
    }
  }

  lemma AlwaysOrderly(s: State, l: Ledger)
    requires Reachable(s, l)
    ensures Orderly(s)
  {
    var start: State, now: int, es: seq<Event> :|
      Initial(start) && ValidRun(start, EmptyLedger(start, now), es)
        && After(start, EmptyLedger(start, now), es) == (s, l);
    OrderlyRun(start, EmptyLedger(start, now), es);
  }

  /******* What detection queues *******/

  // Unhealthy, not being recovered, not given up, and not both tried three times or more and
  // last tried less than five minutes ago.
  predicate Due(v: Service, now: int) {
    && v.healthy == false && v.inProgress == false && v.escalated == false
    && !(v.recoveryAttempts >= 3 && v.lastAttempt.Some? && now - v.lastAttempt.value < 300 * A_SECOND)
  }

  // What is tried on a service of this kind after so many failures in a row.
  predicate IsTriedOn(st: Strategy, kind: ServiceKind, failures: int) {
    match st
    case EscalateToAdmin => failures >= 5
    case GracefulDegradation => 3 <= failures < 5 && kind == Extension
    case ResetConnections => 3 <= failures < 5 && kind == Database
    case ReloadExtension => failures < 3 && kind == Extension
    case RestartService =>
      failures < 5 && (kind == Authentication || kind == BackgroundTasks || (kind == Database && failures < 3))
    case WaitAndRetry => failures < 5 && (kind == ExtensionApi || kind == OtherKind)
  }

  predicate IsUrgency(p: Priority, kind: ServiceKind) {
    match p
    case Critical => kind == Authentication
    case High => kind == Extension || kind == ExtensionApi || kind == Database || kind == BackgroundTasks
    case Medium => kind == OtherKind
    case Low => false
  }

  // A new action for the service, as its kind and failures ask for.
  predicate IsActionFor(a: Action, name: string, v: Service, now: int) {
    && a.target == name && IsTriedOn(a.strategy, v.kind, v.failureCount) && IsUrgency(a.priority, v.kind)
    && a.maxAttempts == (if v.kind == Authentication then 5 else if v.kind == Extension then 3 else 2)
    && a.attempts == 0 && a.createdAt == now && a.lastAttempt == None && a.success == false
  }

  // The names of the services due, in the order given.
  function DueAmong(s: State, names: seq<string>, now: int): seq<string> {
    if names == [] then []
    else
      var n := |names| - 1;
      DueAmong(s, names[..n], now) +
      (if names[n] in s.services && Due(s.services[names[n]], now) then [names[n]] else [])
  }

  function Marked(s: State, names: seq<string>, now: int): map<string, Service> {
    map name | name in s.services ::
      if name in names && Due(s.services[name], now) then s.services[name].(inProgress := true) else s.services[name]
  }

  ghost predicate Detected(s: State, s': State, names: seq<string>, now: int) {
    && s' == s.(queue := s'.queue, services := Marked(s, names, now))
    && |s'.queue| == |s.queue| + |DueAmong(s, names, now)| && s'.queue[..|s.queue|] == s.queue
    && forall i :: 0 <= i < |DueAmong(s, names, now)| ==>
         var name := DueAmong(s, names, now)[i];
         name in s.services && IsActionFor(s'.queue[|s.queue| + i], name, s.services[name], now)
  }

  lemma DetectedNext(s: State, s': State, names: seq<string>, name: string, now: int)
    requires Detected(s, s', names, now) && name !in names
    ensures Detected(s, DetectOne(s', name, now), names + [name], now)
  {
    var all, s'' := names + [name], DetectOne(s', name, now);
    assert all[..|names|] == names;
    if name in s.services {
      assert s'.services[name] == s.services[name];
      assert NeedsRecovery(s.services[name], now) <==> Due(s.services[name], now);
      assert s''.services == Marked(s, all, now);
      assert IsActionFor(NewAction(name, s.services[name], now), name, s.services[name], now);
    } else {
      assert Marked(s, all, now) == Marked(s, names, now);
    }
  }

  lemma {:induction false} DetectedFirst(s: State, n: nat, now: int)
    requires n <= |s.order| && forall i, j :: 0 <= i < j < |s.order| ==> s.order[i] != s.order[j]
    ensures Detected(s, DetectFirst(s, n, now), s.order[..n], now)
    decreases n
  {
    if n == 0 {
      assert Marked(s, [], now) == s.services;
    } else {
      DetectedFirst(s, n - 1, now);
      assert s.order[..n - 1] + [s.order[n - 1]] == s.order[..n];
      DetectedNext(s, DetectFirst(s, n - 1, now), s.order[..n - 1], s.order[n - 1], now);
    }
  }

  lemma DetectedAll(s: State, now: int)
    requires Orderly(s)
    ensures Detected(s, Detect(s, now), s.order, now)
  {
    assert s.order[..|s.order|] == s.order;
    DetectedFirst(s, |s.order|, now);
  }

  // Detection puts exactly one new action into the queue, behind those there, for each
  // service that is due, in the order of registration, with strategy, priority and number of
  // tries as its kind and failures ask for; it marks exactly these services, and changes
  // nothing else. Every state reached is orderly (AlwaysOrderly).
  lemma DetectionExactly(s: State, now: int)
    requires Orderly(s)
    ensures var s' := Next(s, DetectPass(now));
      && s' == s.(queue := s'.queue, services := s'.services) && s'.services.Keys == s.services.Keys
      && (forall name :: name in s.services ==>
            s'.services[name] ==
            if Due(s.services[name], now) then s.services[name].(inProgress := true) else s.services[name])
      && var due := DueAmong(s, s.order, now);
      && |s'.queue| == |s.queue| + |due| && s'.queue[..|s.queue|] == s.queue
      && forall i :: 0 <= i < |due| ==>
           due[i] in s.services && IsActionFor(s'.queue[|s.queue| + i], due[i], s.services[due[i]], now)
  {
    DetectedAll(s, now);
  }

  // A strategy and a priority are fixed by this.
  lemma OneStrategyOneUrgency(kind: ServiceKind, failures: int)
    ensures exists st :: IsTriedOn(st, kind, failures) && forall other :: IsTriedOn(other, kind, failures) ==>
      other == st
    ensures exists p :: IsUrgency(p, kind) && forall other :: IsUrgency(other, kind) ==> other == p
  {
    var v := Service(kind, false, failures, 0, None, false, false, false);
    assert IsTriedOn(StrategyFor(v), kind, failures);
    assert IsUrgency(PriorityFor(v), kind);
  }

  // Critical actions come before high ones, those before medium ones, and low ones last.
  lemma UrgencyOrder(queue: seq<Action>, i: nat, j: nat)
    requires i < j < |StableSort(queue)|
    ensures var a, b := StableSort(queue)[i].priority, StableSort(queue)[j].priority;
      && (b == Critical ==> a == Critical)
      && (b == High ==> a == Critical || a == High)
      && (a == Low ==> b == Low)
      && (a == Medium ==> b == Medium || b == Low)
  {
    SortIsStable(queue);
  }

  /******* The life of a task *******/

  // A task begins by counting and dating its attempt, on the action and on its service.
  lemma BeginExactly(s: State, t: nat, now: int)
    requires Enabled(s, Begin(t, now))
    ensures var s', a := Next(s, Begin(t, now)), s.tasks[t].action;
      && s'.tasks.Keys == s.tasks.Keys
        && s'.tasks[t] == Task(a.(attempts := a.attempts + 1, lastAttempt := Some(now)), Executing)
      && (forall u :: u in s.tasks && u != t ==> s'.tasks[u] == s.tasks[u])
      && s'.services.Keys == s.services.Keys
      && (forall name :: name in s.services ==>
            var v := s.services[name];
            s'.services[name] == if name == a.target
              then v.(recoveryAttempts := v.recoveryAttempts + 1, lastAttempt := Some(now)) else v)
      && s' == s.(tasks := s'.tasks, services := s'.services)
  {
  }

  // While it executes, only three strategies write to the service: degrading sets its flag,
  // escalating too, and waiting takes one failure off, down to none.
  lemma EffectExactly(s: State, t: nat)
    requires Enabled(s, Effect(t))
    ensures var s', a := Next(s, Effect(t)), s.tasks[t].action;
      && s' == s.(services := s'.services) && s'.services.Keys == s.services.Keys
      && (forall name :: name in s.services && name != a.target ==> s'.services[name] == s.services[name])
      && (a.target in s.services ==>
            var v, v' := s.services[a.target], s'.services[a.target];
            && v'.degraded == (v.degraded || a.strategy == GracefulDegradation)
            && v'.escalated == (v.escalated || a.strategy == EscalateToAdmin)
            && v'.failureCount ==
               (if a.strategy != WaitAndRetry then v.failureCount
                 else if v.failureCount > 1 then v.failureCount - 1 else 0)
            && v' == v.(degraded := v'.degraded, escalated := v'.escalated, failureCount := v'.failureCount))
  {
  }

  // The task is gone, and so is the entry of its target.
  predicate Ended(s: State, s': State, t: nat)
    requires t in s.tasks
  {
    && s'.tasks == s.tasks - {t} && s'.active == s.active - {s.tasks[t].action.target}
    && s'.order == s.order && s'.nextTask == s.nextTask
  }

  predicate OnlyTarget(s: State, s': State, target: string) {
    s'.services.Keys == s.services.Keys &&
    forall name :: name in s.services && name != target ==> s'.services[name] == s.services[name]
  }

  // A success ends the task, notes the action as successful, unmarks its service and
  // forgets its failures.
  lemma SuccessExactly(s: State, t: nat)
    requires Enabled(s, Success(t))
    ensures var s', a := Next(s, Success(t)), s.tasks[t].action;
      && Ended(s, s', t) && s'.queue == s.queue && s'.history == s.history + [a.(success := true)]
      && OnlyTarget(s, s', a.target)
      && (a.target in s.services ==>
            s'.services[a.target] == s.services[a.target].(inProgress := false, failureCount := 0))
  {
  }

  // Seconds to wait after the k-th try: 1, 2, 4, 8, 16, 32, and 60 from the seventh on.
  function WaitSeconds(k: nat): int {
    if k <= 1 then 1 else if k == 2 then 2 else if k == 3 then 4 else if k == 4 then 8
    else if k == 5 then 16 else if k == 6 then 32 else 60
  }

  lemma {:induction false} WaitIsBackoff(k: nat)
    requires k > 0
    ensures BackoffAfter(k) == WaitSeconds(k) * A_SECOND
  {
    assert Pow2(0) == 1 && Pow2(1) == 2 && Pow2(2) == 4 && Pow2(3) == 8 && Pow2(4) == 16 && Pow2(5) == 32;
    if k >= 7 {
      PowGrows(k - 1);
    }
  }

  lemma {:induction false} PowGrows(n: nat)
    requires n >= 6
    ensures Pow2(n) >= 64
  {
    if n == 6 {
      assert Pow2(2) == 4 && Pow2(4) == 2 * Pow2(3) == 16 && Pow2(6) == 2 * Pow2(5) == 4 * Pow2(4);
    } else {
      PowGrows(n - 1);
    }
  }

  // A failure with tries left puts the task to sleep for that time and changes nothing else.
  // The last one ends the task, notes the action, and unmarks its service and gives it up.
  lemma FailureExactly(s: State, t: nat, now: int)
    requires Enabled(s, Failure(t, now))
    ensures var s', a := Next(s, Failure(t, now)), s.tasks[t].action;
      if a.attempts < a.maxAttempts then
        s' == s.(tasks := s.tasks[t := Task(a, Backoff(now + WaitSeconds(a.attempts) * A_SECOND))])
      else
        && Ended(s, s', t) && s'.queue == s.queue && s'.history == s.history + [a]
        && OnlyTarget(s, s', a.target)
        && (a.target in s.services ==>
              s'.services[a.target] == s.services[a.target].(inProgress := false, escalated := true))
  {
    WaitIsBackoff(s.tasks[t].action.attempts);
  }

  // After its sleep the task ends and its action goes to the end of the queue.
  lemma WakeExactly(s: State, t: nat, now: int)
    requires Enabled(s, Wake(t, now))
    ensures var s' := Next(s, Wake(t, now));
      && Ended(s, s', t) && s'.queue == s.queue + [s.tasks[t].action]
      && s'.services == s.services && s'.history == s.history
  {
  }

  /******* Reports and history *******/

  // A report sets the health of the service and counts failures in a row.
  lemma HealthExactly(s: State, name: string, healthy: bool)
    ensures var s' := Next(s, Health(name, healthy));
      && s' == s.(services := s'.services) && OnlyTarget(s, s', name)
      && (name in s.services ==>
            var v := s.services[name];
            s'.services[name] == v.(healthy := healthy, failureCount := if healthy then 0 else v.failureCount + 1))
  {
  }

  // A cleanup of the history keeps the actions created within the last 24 hours.
  lemma HistoryExactly(s: State, now: int)
    ensures var s' := Next(s, CleanOld(now));
      && s' == s.(history := s'.history)
      && forall a :: a in s'.history <==> a in s.history && a.createdAt >= now - 86_400 * A_SECOND
  {
    RecentMembers(s.history, now - 86_400 * A_SECOND);
  }

  lemma {:induction false} RecentMembers(h: seq<Action>, cutoff: int)
    ensures forall a :: a in RecentOnly(h, cutoff) <==> a in h && a.createdAt >= cutoff
  {
    if h != [] {
      RecentMembers(h[1..], cutoff);
      assert h == [h[0]] + h[1..];
    }
  }
}
