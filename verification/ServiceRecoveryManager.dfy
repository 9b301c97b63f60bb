/** The recovery manager as the program writes it: an object whose tables are updated in
    place. Every method is one stretch of a coroutine without a suspension point, and is
    proved to take exactly the step of module ServiceRecovery. */
module ServiceRecoveryManager {
  import opened Prelude
  import opened ServiceRecovery
  import opened ServiceRecoveryMeaning

  class RecoveryManager {
    var order: seq<string>
    var services: map<string, Service>
    var queue: seq<Action>
    var active: map<string, nat>
    var tasks: map<nat, Task>
    var nextTask: nat
    var history: seq<Action>

    ghost function View(): State
      reads this
    {
      State(order, services, queue, active, tasks, nextTask, history)
    }

    constructor ()
      ensures View() == State([], map[], [], map[], map[], 0, [])
    {
      order, services, queue, active := [], map[], [], map[];
      tasks, nextTask, history := map[], 0, [];
    }

    method RegisterService(name: string, kind: ServiceKind, healthy: bool)
      modifies this
      ensures View() == Register(old(View()), name, kind, healthy)
    {
      if name !in services {
        order := order + [name];
      }
      services := services[name := Service(kind, healthy, 0, 0, None, false, false, false)];
    }

    // The extensions found, each with whether it is active, and then the core services.
    method InitializeServiceStates(extensions: seq<(string, bool)>)
      requires Initial(View())
      modifies this
      ensures Initial(View())
      ensures View() == CoreServices(Extensions(old(View()), extensions))
    {
      var i := 0;
      while i < |extensions|
        invariant i <= |extensions| && Initial(View())
        invariant View() == Extensions(old(View()), extensions[..i])
      {
        assert extensions[..i + 1][..i] == extensions[..i];
        RegisterKeepsInitial(View(), "extension_" + extensions[i].0, Extension, extensions[i].1);
        RegisterService("extension_" + extensions[i].0, Extension, extensions[i].1);
        i := i + 1;
      }
      assert extensions[..i] == extensions;
      CoreKeepsInitial(View());
      RegisterService("authentication", Authentication, true);
      RegisterService("database", Database, true);
      RegisterService("background_tasks", BackgroundTasks, true);
      RegisterService("extension_api", ExtensionApi, true);
    }

    method ReportHealth(name: string, healthy: bool)
      modifies this
      ensures View() == UpdateHealth(old(View()), name, healthy)
    {
      if name in services {
        var v := services[name];
        var failures := 0;
        if !healthy {
          failures := v.failureCount + 1;
        }
        services := services[name := v.(healthy := healthy, failureCount := failures)];
      }
    }

    method DetectAndQueueRecoveries(now: int)
      modifies this
      ensures View() == Detect(old(View()), now)
      ensures Orderly(old(View())) ==> Detected(old(View()), View(), order, now)
    {
      var i := 0;
      while i < |order|
        invariant i <= |order| && order == old(order)
        invariant View() == DetectFirst(old(View()), i, now)
      {
        var name := order[i];
        if name in services {
          var v := services[name];
          if !v.healthy && !v.inProgress && ShouldAttempt(v, now) {
            queue := queue + [NewAction(name, v, now)];
            services := services[name := v.(inProgress := true)];
          }
        }
        i := i + 1;
      }
      if Orderly(old(View())) {
        DetectedAll(old(View()), now);
      }
    }

    method ProcessRecoveryQueue()
      modifies this
      ensures View() == ProcessQueue(old(View()))
    {
      if queue == [] {
        return;
      }
      queue := StableSort(queue);
      while |active| < MAX_CONCURRENT && queue != []
        invariant StartWhileFree(View()) == ProcessQueue(old(View()))
        decreases |queue|
      {
        ghost var before := View();
        var action := queue[0];
        queue := queue[1..];
        tasks := tasks[nextTask := Task(action, Created)];
        active := active[action.target := nextTask];
        nextTask := nextTask + 1;
        assert View() == StartOne(before);
      }
    }

    // The stretch of a task from its start to the call of the recovery function.
    method BeginTask(t: nat, now: int)
      requires InPhase(View(), t, Created)
      modifies this
      ensures View() == BeginAttempt(old(View()), t, now)
    {
      var action := tasks[t].action;
      action := action.(attempts := action.attempts + 1, lastAttempt := Some(now));
      tasks := tasks[t := Task(action, Executing)];
      if action.target in services {
        var v := services[action.target];
        services := services[action.target :=
          v.(recoveryAttempts := v.recoveryAttempts + 1, lastAttempt := Some(now))];
      }
    }

    // What the recovery function does to its service while the task awaits it.
    method RunRecoveryFunction(t: nat)
      requires InPhase(View(), t, Executing)
      modifies this
      ensures View() == RecoveryEffect(old(View()), t)
    {
      var action := tasks[t].action;
      if action.target in services {
        var v := services[action.target];
        match action.strategy {
          case GracefulDegradation => services := services[action.target := v.(degraded := true)];
          case EscalateToAdmin => services := services[action.target := v.(escalated := true)];
          case WaitAndRetry =>
            var failures := v.failureCount - 1;
            if failures < 0 {
              failures := 0;
            }
            services := services[action.target := v.(failureCount := failures)];
          case _ =>
            assert services == services[action.target := v];
        }
      }
    }

    // The stretch of a task from the outcome of the recovery function to its end, or to
    // the sleep before the next try.
    method HandleOutcome(t: nat, succeeded: bool, now: int)
      requires InPhase(View(), t, Executing) && tasks[t].action.attempts > 0
      modifies this
      ensures View() == if succeeded then Succeed(old(View()), t) else Fail(old(View()), t, now)
    {
      var action := tasks[t].action;
      if succeeded {
        action := action.(success := true);
        if action.target in services {
          services := services[action.target :=
            services[action.target].(inProgress := false, failureCount := 0)];
        }
      }
      if !succeeded && action.attempts < action.maxAttempts {
        tasks := tasks[t := Task(action, Backoff(now + BackoffAfter(action.attempts)))];
      } else {
        history := history + [action];
        if action.target in services {
          services := services[action.target := services[action.target].(inProgress := false)];
          if !succeeded {
            services := services[action.target := services[action.target].(escalated := true)];
          }
        }
        Finish(t);
      }
    }

    // The stretch of a task after its sleep.
    method RequeueAfterSleep(t: nat)
      requires t in tasks && tasks[t].phase.Backoff?
      modifies this
      ensures View() == Requeue(old(View()), t)
    {
      queue := queue + [tasks[t].action];
      Finish(t);
    }

    method Finish(t: nat)
      requires t in tasks
      modifies this
      ensures View() == EndTask(old(View()), t)
    {
      var target := tasks[t].action.target;
      active := active - {target};
      tasks := tasks - {t};
    }

    method CleanupCompletedRecoveries()
      modifies this
      ensures View() == DropFinished(old(View()))
    {
      var completed := set name | name in active && active[name] !in tasks;
      ghost var all := completed;
      while completed != {}
        invariant completed <= all
        invariant View() == old(View()).(active := active)
        invariant active == old(active) - (all - completed)
        decreases completed
      {
        var name :| name in completed;
        active := active - {name};
        completed := completed - {name};
      }
      assert active == DropFinished(old(View())).active;
    }

    method CleanupRecoveryHistory(now: int)
      modifies this
      ensures View() == CleanHistory(old(View()), now)
    {
      var cutoff := now - HISTORY_RETENTION;
      var kept: seq<Action> := [];
      var i := 0;
      while i < |history|
        invariant i <= |history| && View() == old(View())
        invariant kept + RecentOnly(history[i..], cutoff) == RecentOnly(history, cutoff)
      {
        assert history[i..] == [history[i]] + history[i + 1..];
        if history[i].createdAt >= cutoff {
          kept := kept + [history[i]];
        }
        i := i + 1;
      }
      history := kept;
    }
  }

  function Extensions(s: State, extensions: seq<(string, bool)>): State {
    if extensions == [] then s
    else
      var n := |extensions| - 1;
      Register(Extensions(s, extensions[..n]), "extension_" + extensions[n].0, Extension, extensions[n].1)
  }

  function CoreServices(s: State): State {
    var s1 := Register(s, "authentication", Authentication, true);
    var s2 := Register(s1, "database", Database, true);
    var s3 := Register(s2, "background_tasks", BackgroundTasks, true);
    Register(s3, "extension_api", ExtensionApi, true)
  }

  // Nothing has happened to the service yet.
  predicate Blank(s: State, name: string, kind: ServiceKind, healthy: bool) {
    name in s.services && s.services[name] == Service(kind, healthy, 0, 0, None, false, false, false)
  }

  // The last to say so counts, for each extension.
  predicate LastOf(extensions: seq<(string, bool)>, i: nat)
    requires i < |extensions|
  {
    forall j :: i < j < |extensions| ==> extensions[j].0 != extensions[i].0
  }

  // Whatever was registered before, each extension found is then registered as active or
  // not, and the core services as healthy, with nothing against them; an extension called
  // api gives way to the core service of that name.
  lemma StartExactly(s: State, extensions: seq<(string, bool)>)
    ensures var s' := CoreServices(Extensions(s, extensions));
      && Blank(s', "authentication", Authentication, true) && Blank(s', "database", Database, true)
      && Blank(s', "background_tasks", BackgroundTasks, true) && Blank(s', "extension_api", ExtensionApi, true)
      && forall i :: 0 <= i < |extensions| && LastOf(extensions, i) && extensions[i].0 != "api" ==>
           Blank(s', "extension_" + extensions[i].0, Extension, extensions[i].1)
  {
    ExtensionsAreBlank(s, extensions);
    forall i | 0 <= i < |extensions| && LastOf(extensions, i) && extensions[i].0 != "api"
      ensures Blank(CoreServices(Extensions(s, extensions)), "extension_" + extensions[i].0, Extension, extensions[i].1)
    {
      var name := "extension_" + extensions[i].0;
      assert name[10..] == extensions[i].0 && "extension_api"[10..] == "api";
      assert name[0] == 'e' && "authentication"[0] == 'a' && "database"[0] == 'd' && "background_tasks"[0] == 'b';
    }
  }

  lemma {:induction false} ExtensionsAreBlank(s: State, extensions: seq<(string, bool)>)
    ensures forall i :: 0 <= i < |extensions| && LastOf(extensions, i) ==>
      Blank(Extensions(s, extensions), "extension_" + extensions[i].0, Extension, extensions[i].1)
  {
    if extensions != [] {
      var n := |extensions| - 1;
      var fewer := extensions[..n];
      ExtensionsAreBlank(s, fewer);
      forall i | 0 <= i < |extensions| && LastOf(extensions, i)
        ensures Blank(Extensions(s, extensions), "extension_" + extensions[i].0, Extension, extensions[i].1)
      {
        if i < n {
          assert fewer[i] == extensions[i] && LastOf(fewer, i);
          var name, last := "extension_" + extensions[i].0, "extension_" + extensions[n].0;
          assert name[10..] == extensions[i].0 && last[10..] == extensions[n].0;
          assert name != last;
        }
      }
    }
  }

  lemma CoreKeepsInitial(s: State)
    requires Initial(s)
    ensures Initial(CoreServices(s))
  {
    var s1 := Register(s, "authentication", Authentication, true);
    var s2 := Register(s1, "database", Database, true);
    var s3 := Register(s2, "background_tasks", BackgroundTasks, true);
    RegisterKeepsInitial(s, "authentication", Authentication, true);
    RegisterKeepsInitial(s1, "database", Database, true);
    RegisterKeepsInitial(s2, "background_tasks", BackgroundTasks, true);
    RegisterKeepsInitial(s3, "extension_api", ExtensionApi, true);
  }
}
