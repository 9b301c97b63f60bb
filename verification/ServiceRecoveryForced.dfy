/** Runs with forced recoveries: the map of active recoveries keeps its bound; one owner per
    service and the limit on tasks are kept exactly when no service is forced into recovery
    that is being recovered already. */
module ServiceRecoveryForced {
  import opened Prelude
  import opened ServiceRecovery
  import opened ServiceRecoveryRuns

  // `force_recovery` looks at nothing but the service's name, and jumps the queue.
  function Force(s: State, name: string, strategy: Option<Strategy>, now: int): State {
    if name !in s.services then s
    else
      var v := s.services[name];
      var chosen := if strategy.Some? then strategy.value else StrategyFor(v);
      var a := Action(chosen, name, PriorityFor(v), 1, 0, now, None, false);
      s.(queue := [a] + s.queue, services := s.services[name := v.(inProgress := true)])
  }

  datatype Step = Usual(event: Event) | Forced(name: string, strategy: Option<Strategy>, now: int)

  predicate May(s: State, e: Step) {
    e.Usual? ==> Enabled(s, e.event)
  }

  function Do(s: State, e: Step): State
    requires May(s, e)
  {
    match e
    case Usual(event) => Next(s, event)
    case Forced(name, strategy, now) => Force(s, name, strategy, now)
  }

  ghost predicate ValidSteps(s: State, es: seq<Step>)
    decreases |es|
  {
    es == [] || (May(s, es[0]) && ValidSteps(Do(s, es[0]), es[1..]))
  }

  ghost function End(s: State, es: seq<Step>): State
    requires ValidSteps(s, es)
    decreases |es|
  {
    if es == [] then s else End(Do(s, es[0]), es[1..])
  }

  /******* The bound on the map *******/

  lemma KeysSize<K, V>(m: map<K, V>)
    ensures |m| == |m.Keys|
  {
  }

  lemma FewerEntries<K, V>(m: map<K, V>, m': map<K, V>)
    requires m'.Keys <= m.Keys
    ensures |m'| <= |m|
  {
    SubsetIsSmaller(m'.Keys, m.Keys);
    KeysSize(m);
    KeysSize(m');
  }

  lemma OneMoreEntry<K, V>(m: map<K, V>, k: K, v: V)
    ensures |m[k := v]| <= |m| + 1
  {
    if k in m {
      FewerEntries(m, m[k := v]);
    } else {
      RemoveKey(m[k := v], k);
      FewerEntries(m, m[k := v] - {k});
    }
  }

  lemma {:induction false} StartsWithin(s: State)
    requires |s.active| <= MAX_CONCURRENT
    ensures |StartWhileFree(s).active| <= MAX_CONCURRENT
    decreases |s.queue|
  {
    if |s.active| < MAX_CONCURRENT && s.queue != [] {
      OneMoreEntry(s.active, s.queue[0].target, s.nextTask);
      StartsWithin(StartOne(s));
    }
  }

  lemma {:induction false} DetectLeavesActive(s: State, n: nat, now: int)
    requires n <= |s.order|
    ensures DetectFirst(s, n, now).active == s.active
  {
    if n > 0 { DetectLeavesActive(s, n - 1, now); }
  }

  lemma WithinStep(s: State, e: Step)
    requires May(s, e) && |s.active| <= MAX_CONCURRENT
    ensures |Do(s, e).active| <= MAX_CONCURRENT
  {
    if e.Usual? {
      match e.event
      case QueuePass => StartsWithin(s.(queue := StableSort(s.queue)));
      case DetectPass(now) => DetectLeavesActive(s, |s.order|, now);
      case _ => FewerEntries(s.active, Do(s, e).active);
    }
  }

  // On every run, however recoveries are forced in between, the map of active recoveries
  // never holds more than three entries.
  lemma {:induction false} NeverMoreThanThree(s: State, es: seq<Step>)
    requires |s.active| <= 3 && ValidSteps(s, es)
    ensures |End(s, es).active| <= 3
    decreases |es|
  {
    if es != [] {
      WithinStep(s, es[0]);
      NeverMoreThanThree(Do(s, es[0]), es[1..]);
    }
  }

  /******* One owner, exactly *******/

  // The service is known and is being recovered already.
  predicate Busy(s: State, e: Step) {
    e.Forced? && e.name in s.services && s.services[e.name].inProgress
  }

  ghost predicate NeverBusy(s: State, es: seq<Step>)
    requires ValidSteps(s, es)
    decreases |es|
  {
    es == [] || (!Busy(s, es[0]) && NeverBusy(Do(s, es[0]), es[1..]))
  }

  // One action for each service that is marked, none for another, and the map counts the
  // tasks, three at most.
  ghost predicate OneOwner(s: State) {
    && (forall name :: name in s.services ==>
          |QueuePlaces(s, name)| + |TaskPlaces(s, name)| == (if s.services[name].inProgress then 1 else 0))
    && |s.tasks| == |s.active| <= 3
  }

  ghost predicate AlwaysOneOwner(s: State, es: seq<Step>)
    requires ValidSteps(s, es)
    decreases |es|
  {
    OneOwner(s) && (es == [] || AlwaysOneOwner(Do(s, es[0]), es[1..]))
  }

  lemma TablesMeanOneOwner(s: State)
    requires Tables(s) && Owners(s)
    ensures OneOwner(s)
  {
    forall name | name in s.services
      ensures |QueuePlaces(s, name)| + |TaskPlaces(s, name)| == (if s.services[name].inProgress then 1 else 0)
    {
      PlacesOf(s, name);
    }
  }

  lemma QueuedFront(q: seq<Action>, a: Action)
    ensures DistinctTargets(q) && !Queued(q, a.target) ==> DistinctTargets([a] + q)
    ensures forall name :: Queued([a] + q, name) <==> Queued(q, name) || name == a.target
  {
    assert ([a] + q)[1..] == q;
    QueuedRest([a] + q);
  }

  lemma IdleForceKeepsTables(s: State, e: Step)
    requires Tables(s) && Owners(s) && e.Forced? && !Busy(s, e)
    ensures Tables(Do(s, e)) && Owners(Do(s, e))
  {
    if e.name in s.services {
      assert !Queued(s.queue, e.name);
      QueuedFront(s.queue, Do(s, e).queue[0]);
    }
  }

  lemma Pair(places: set<nat>, x: nat, y: nat)
    requires x in places && y in places && x != y
    ensures |places| >= 2
  {
    SubsetIsSmaller({x, y}, places);
  }

  // Forcing a service that is being recovered gives it a second action at once.
  lemma BusyForceBreaks(s: State, e: Step)
    requires Tables(s) && Owners(s) && Busy(s, e)
    ensures !OneOwner(Do(s, e))
  {
    PlacesOf(s, e.name);
    MorePlaces(s, Do(s, e), e.name);
  }

  // One more action for the service stands at the front of the queue.
  lemma MorePlaces(s: State, s': State, name: string)
    requires s'.queue != [] && s'.queue[0].target == name && s'.queue[1..] == s.queue && s'.tasks == s.tasks
    ensures |QueuePlaces(s', name)| >= (if Queued(s.queue, name) then 2 else 1)
    ensures TaskPlaces(s', name) == TaskPlaces(s, name)
  {
    assert 0 in QueuePlaces(s', name);
    if Queued(s.queue, name) {
      var i :| 0 <= i < |s.queue| && s.queue[i].target == name;
      assert s'.queue[i + 1] == s'.queue[1..][i];
      Pair(QueuePlaces(s', name), 0, i + 1);
    } else {
      SubsetIsSmaller({0}, QueuePlaces(s', name));
    }
  }

  lemma {:induction false} StartWhileFreeTables(s: State)
    requires Tables(s) && Owners(s)
    ensures Tables(StartWhileFree(s)) && Owners(StartWhileFree(s))
    decreases |s.queue|
  {
    if |s.active| < MAX_CONCURRENT && s.queue != [] {
      StartOneKeepsTables(s);
      StartWhileFreeTables(StartOne(s));
    }
  }

  lemma UsualKeepsTables(s: State, e: Event)
    requires Tables(s) && Owners(s) && Enabled(s, e)
    ensures Tables(Next(s, e)) && Owners(Next(s, e))
  {
    if e.DetectPass? {
      DetectKeepsTables(s, e.now);
    } else if e.QueuePass? {
      SortKeepsTables(s);
      StartWhileFreeTables(s.(queue := StableSort(s.queue)));
    } else if e.CleanTasks? {
      SweepFindsNothing(s);
    } else if ForTask(s, e) {
      TaskEventTables(s, e);
    } else {
      QuietEvents(s, e);
      QuietKeepsTables(s, Next(s, e));
    }
  }

  lemma {:induction false} OneOwnerFrom(s: State, es: seq<Step>)
    requires Tables(s) && Owners(s) && ValidSteps(s, es)
    ensures AlwaysOneOwner(s, es) <==> NeverBusy(s, es)
    decreases |es|
  {
    TablesMeanOneOwner(s);
    if es != [] {
      var e := es[0];
      if Busy(s, e) {
        BusyForceBreaks(s, e);
      } else {
        if e.Usual? {
          UsualKeepsTables(s, e.event);
        } else {
          IdleForceKeepsTables(s, e);
        }
        OneOwnerFrom(Do(s, e), es[1..]);
      }
    }
  }

  // On every run from a fresh manager with recoveries forced in between: at every moment
  // each service has one action if it is marked as being recovered and none otherwise, and
  // the map counts the running tasks, three at most, exactly when no recovery is ever
  // forced for a service that is so marked.
  lemma ForcedOwnerExactly(s: State, es: seq<Step>)
    requires Initial(s) && ValidSteps(s, es)
    ensures AlwaysOneOwner(s, es) <==> NeverBusy(s, es)
  {
    OneOwnerFrom(s, es);
  }

  /******* What the map no longer counts *******/

  // One service, forced into recovery n times; a pass over the queue; and the tasks it has
  // created begin.
  function Forcing(n: nat, m: nat, now: int): seq<Step>
    requires m <= n
    decreases n - m
  {
    if m == n then [Usual(QueuePass)] + Beginning(n, 0, now)
    else [Forced("a", None, now)] + Forcing(n, m + 1, now)
  }

  function Beginning(n: nat, k: nat, now: int): seq<Step>
    requires k <= n
    decreases n - k
  {
    if k == n then [] else [Usual(Begin(k, now))] + Beginning(n, k + 1, now)
  }

  function OneService(): State {
    State(["a"], map["a" := Service(Database, true, 0, 0, None, false, false, false)], [], map[], map[], 0, [])
  }

  ghost predicate Lined(s: State, m: nat, a: Action) {
    && "a" in s.services && s.services["a"].kind == Database && s.services["a"].failureCount == 0
    && s.tasks == map[] && s.active == map[] && s.nextTask == 0
    && s.queue == seq(m, _ => a)
  }

  lemma {:induction false} SortSame(n: nat, a: Action)
    ensures StableSort(seq(n, _ => a)) == seq(n, _ => a)
  {
    if n > 0 {
      SortSame(n - 1, a);
      assert seq(n, _ => a)[1..] == seq(n - 1, _ => a);
    }
  }

  // The first n numbers name tasks of the service; those from k on have not begun.
  ghost predicate Crowd(s: State, n: nat, k: nat) {
    && "a" in s.services && s.active.Keys <= {"a"}
    && (forall t: nat :: t in s.tasks <==> t < n)
    && forall t :: t in s.tasks ==>
         s.tasks[t].action.target == "a" && s.tasks[t].phase == (if t < k then Executing else Created)
  }

  lemma {:induction false} AllStart(s: State, a: Action)
    requires Crowd(s, s.nextTask, 0) && a.target == "a" && forall x :: x in s.queue ==> x == a
    ensures Crowd(StartWhileFree(s), s.nextTask + |s.queue|, 0)
    decreases |s.queue|
  {
    SubsetIsSmaller(s.active.Keys, {"a"});
    KeysSize(s.active);
    if s.queue != [] {
      assert s.queue[0] in s.queue && forall x :: x in s.queue[1..] ==> x in s.queue;
      AllStart(StartOne(s), a);
    }
  }

  lemma {:induction false} AllBegin(s: State, n: nat, k: nat, now: int)
    requires Crowd(s, n, k) && k <= n
    ensures ValidSteps(s, Beginning(n, k, now)) && Crowd(End(s, Beginning(n, k, now)), n, n)
    decreases n - k
  {
    if k < n {
      var es := Beginning(n, k, now);
      assert es[1..] == Beginning(n, k + 1, now);
      AllBegin(Do(s, es[0]), n, k + 1, now);
    }
  }

  lemma {:induction false} AllForced(s: State, n: nat, m: nat, now: int)
    requires m <= n && Lined(s, m, Action(RestartService, "a", High, 1, 0, now, None, false))
    ensures ValidSteps(s, Forcing(n, m, now)) && Crowd(End(s, Forcing(n, m, now)), n, n)
    decreases n - m
  {
    var es := Forcing(n, m, now);
    var s1 := Do(s, es[0]);
    var a := Action(RestartService, "a", High, 1, 0, now, None, false);
    if m == n {
      SortSame(n, a);
      assert es[1..] == Beginning(n, 0, now);
      assert s.active.Keys == {} && s.tasks.Keys == {};
      AllStart(s.(queue := StableSort(s.queue)), a);
      AllBegin(s1, n, 0, now);
    } else {
      assert es[1..] == Forcing(n, m + 1, now);
      assert s1.queue == seq(m + 1, _ => a);
      AllForced(s1, n, m + 1, now);
    }
  }

  // For every n a run from a fresh manager has n tasks executing recoveries of one service,
  // while the map that limits them has a single entry.
  lemma TasksOutnumberEntries(n: nat, now: int)
    ensures var s := OneService();
      && Initial(s) && ValidSteps(s, Forcing(n, 0, now))
      && var s' := End(s, Forcing(n, 0, now));
      && (forall t :: 0 <= t < n ==> InPhase(s', t, Executing) && s'.tasks[t].action.target == "a")
      && |s'.active| <= 1
  {
    var s := OneService();
    assert s.order[0] == "a";
    AllForced(s, n, 0, now);
    var s' := End(s, Forcing(n, 0, now));
    SubsetIsSmaller(s'.active.Keys, {"a"});
    KeysSize(s'.active);
  }
}
