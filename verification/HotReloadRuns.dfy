/** Sequences of reloads: the configuration in force is the last one reloaded with success,
    and nothing else ever gets into force. */
module HotReloadRuns {
  import opened Prelude
  import opened HotReload

  function After(s: State, calls: seq<Call>): (r: State)
    requires Complete(s)
    ensures Complete(r)
    decreases |calls|
  {
    if calls == [] then s
    else
      StaysComplete(s, calls[0]);
      After(Reload(s, calls[0]), calls[1..])
  }

  lemma StaysComplete(s: State, c: Call)
    requires Complete(s)
    ensures Complete(Reload(s, c))
  {
    InForceAfter(s, c);
  }

  /******* One call *******/

  // The last snapshot is what is in force.
  predicate Synced(s: State, env: Environment)
    requires env in s.configs
  {
    var list := Snapshots(s, env);
    list != [] && list[|list| - 1] == s.configs[env]
  }

  lemma NewestLast<T>(list: seq<T>, x: T, bound: nat)
    requires bound >= 2
    ensures var r := Newest(list + [x], bound);
      && r != [] && |r| <= bound && r[|r| - 1] == x
      && (|r| >= 2 <==> list != [])
      && (list != [] ==> r[|r| - 2] == list[|list| - 1])
  {
  }

  function FromEnd<T>(list: seq<T>, k: nat): Option<T> {
    if k < |list| then Some(list[|list| - 1 - k]) else None
  }

  // What rolling back would put in force: the last snapshot before the call, or, if the
  // call could not take its own first, the one before that.
  function Restored(s: State, c: Call): Option<Config> {
    FromEnd(Snapshots(s, c.env), if c.preTaken then 0 else 1)
  }

  lemma RollbackRestores(s: State, c: Call, now: Config, configs: map<Environment, Config>)
    ensures Rollback(CreateSnapshot(s, c.env, now, c.preTaken).(configs := configs), c.env).configs ==
      match Restored(s, c)
      case None => configs
      case Some(x) => configs[c.env := x]
  {
    NewestLast(Snapshots(s, c.env), now, MAX_SNAPSHOTS);
  }

  // What is in force for the environment after a call.
  function InForceThen(s: State, c: Call): Config
    requires c.env in s.configs
  {
    match Judge(s, c)
    case Applied => c.load.value
    case ApplyFailed => Restored(s, c).GetOr(c.load.value)
    case LoadFailed => Restored(s, c).GetOr(s.configs[c.env])
    case _ => s.configs[c.env]
  }

  lemma InForceAfter(s: State, c: Call)
    requires c.env in s.configs
    ensures Reload(s, c).configs == s.configs[c.env := InForceThen(s, c)]
  {
    match Judge(s, c)
    case LoadFailed => RollbackRestores(s, c, s.configs[c.env], s.configs);
    case ApplyFailed => RollbackRestores(s, c, s.configs[c.env], s.configs[c.env := c.load.value]);
    case _ =>
  }

  lemma PutSame(m: map<Environment, Config>, env: Environment, x: Config)
    requires env in m
    ensures m[env := x] == m <==> x == m[env]
  {
    assert m[env := x][env] == x;
  }

  // The last snapshot a call leaves, if it leaves one.
  function LastThen(s: State, c: Call): Option<Config>
    requires c.env in s.configs
  {
    var before := FromEnd(Snapshots(s, c.env), 0);
    match Judge(s, c)
    case Busy => before
    case Applied =>
      if c.postTaken then c.load else if c.preTaken then Some(s.configs[c.env]) else before
    case _ => if c.preTaken then Some(s.configs[c.env]) else before
  }

  lemma RecordedAfter(s: State, c: Call)
    requires c.env in s.configs
    ensures var s1 := CreateSnapshot(s, c.env, s.configs[c.env], c.preTaken);
      Reload(s, c).snapshots == match Judge(s, c)
        case Busy => s.snapshots
        case Applied => CreateSnapshot(s1, c.env, c.load.value, c.postTaken).snapshots
        case _ => s1.snapshots
  {
  }

  lemma SnapshotsAfter(s: State, c: Call)
    requires c.env in s.configs
    ensures forall e :: e != c.env ==> Snapshots(Reload(s, c), e) == Snapshots(s, e)
    ensures FromEnd(Snapshots(Reload(s, c), c.env), 0) == LastThen(s, c)
  {
    RecordedAfter(s, c);
    var s1 := CreateSnapshot(s, c.env, s.configs[c.env], c.preTaken);
    NewestLast(Snapshots(s, c.env), s.configs[c.env], MAX_SNAPSHOTS);
    if Judge(s, c).Applied? {
      NewestLast(Snapshots(s1, c.env), c.load.value, MAX_SNAPSHOTS);
    }
  }

  // A call that does not succeed leaves what is in force as it was, also if restoring it
  // is reported to fail, exactly when there is nothing to roll back or rolling back leads
  // to what was in force.
  lemma RestoresExactly(s: State, c: Call)
    requires c.env in s.configs && Outcome(s, c) != Success
    ensures Reload(s, c).configs == s.configs <==>
      && (Judge(s, c) == LoadFailed ==> Restored(s, c).GetOr(s.configs[c.env]) == s.configs[c.env])
      && (Judge(s, c) == ApplyFailed ==> Restored(s, c).GetOr(c.load.value) == s.configs[c.env])
  {
    InForceAfter(s, c);
    PutSame(s.configs, c.env, InForceThen(s, c));
  }

  // A call that does not miss a snapshot it needs: the one afterwards, if it puts something
  // new in force; the one before, if it rolls back, unless the snapshot it then goes back to
  // shows what is in force, or there is none and nothing else has been put in force.
  predicate Harmless(s: State, c: Call)
    requires c.env in s.configs
  {
    var live := s.configs[c.env];
    && (Judge(s, c) == Applied && !c.postTaken ==> c.load.value == live)
    && (Judge(s, c) == LoadFailed && !c.preTaken ==> Restored(s, c).GetOr(live) == live)
    && (Judge(s, c) == ApplyFailed && !c.preTaken ==> Restored(s, c).GetOr(c.load.value) == live)
  }

  // Where the last snapshots show what is in force, they go on doing so after a call
  // exactly when it is harmless.
  lemma SyncedExactly(s: State, c: Call)
    requires AllSynced(s)
    ensures Complete(Reload(s, c)) && (AllSynced(Reload(s, c)) <==> Harmless(s, c))
    ensures Harmless(s, c) && Judge(s, c) != Applied ==> Reload(s, c).configs == s.configs
  {
    InForceAfter(s, c);
    SnapshotsAfter(s, c);
    assert Synced(s, c.env);
    PutSame(s.configs, c.env, InForceThen(s, c));
    assert Harmless(s, c) <==> LastThen(s, c) == Some(InForceThen(s, c));
    forall e: Environment | e != c.env ensures Synced(Reload(s, c), e) {
      assert Synced(s, e);
    }
    assert Synced(Reload(s, c), c.env) <==> LastThen(s, c) == Some(InForceThen(s, c));
  }

  // Two configurations of the same fields differ exactly when changes are detected.
  lemma ChangesExactly(before: Config, loaded: Config)
    requires before.Keys == loaded.Keys
    ensures DetectChanges(before, loaded) == {} <==> before == loaded
  {
    if before != loaded {
      var k :| k in before && before[k] != loaded[k];
      assert k in DetectChanges(before, loaded);
    }
  }

  /******* Runs *******/

  ghost predicate AllSynced(s: State) {
    Complete(s) && forall e: Environment :: Synced(s, e)
  }

  // Nothing goes wrong on the way and there is something to put in force.
  predicate TakesEffect(configs: map<Environment, Config>, c: Call)
    requires c.env in configs
  {
    && !c.veto && c.load.Some? && Passes(c.issues) && c.applies
    && (c.force || DetectChanges(configs[c.env], c.load.value) != {})
  }

  // A store without snapshots or rollback: a call either takes effect or does nothing.
  function Store(configs: map<Environment, Config>, c: Call): map<Environment, Config>
    requires c.env in configs
  {
    if TakesEffect(configs, c) then configs[c.env := c.load.value] else configs
  }

  function StoreRun(configs: map<Environment, Config>, calls: seq<Call>): map<Environment, Config>
    requires forall e: Environment :: e in configs
    decreases |calls|
  {
    if calls == [] then configs else StoreRun(Store(configs, calls[0]), calls[1..])
  }

  // At every moment of the run the last snapshots show what is in force.
  ghost predicate AlwaysSynced(s: State, calls: seq<Call>)
    requires Complete(s)
    decreases |calls|
  {
    AllSynced(s) && (calls == [] || (Complete(Reload(s, calls[0])) && AlwaysSynced(Reload(s, calls[0]), calls[1..])))
  }

  ghost predicate AlwaysHarmless(s: State, calls: seq<Call>)
    requires Complete(s)
    decreases |calls|
  {
    calls == [] ||
    (Harmless(s, calls[0]) && Complete(Reload(s, calls[0])) && AlwaysHarmless(Reload(s, calls[0]), calls[1..]))
  }

  lemma {:induction false} SyncedFrom(s: State, calls: seq<Call>)
    requires AllSynced(s)
    ensures AlwaysSynced(s, calls) <==> AlwaysHarmless(s, calls)
    decreases |calls|
  {
    if calls != [] {
      SyncedExactly(s, calls[0]);
      if Harmless(s, calls[0]) {
        SyncedFrom(Reload(s, calls[0]), calls[1..]);
      }
    }
  }

  // Over every run the last snapshots show what is in force at every moment exactly when
  // every call is harmless.
  lemma AlwaysSyncedExactly(configs: map<Environment, Config>, calls: seq<Call>)
    requires forall e: Environment :: e in configs
    ensures AlwaysSynced(Fresh(configs), calls) <==> AlwaysHarmless(Fresh(configs), calls)
  {
    SyncedFrom(Fresh(configs), calls);
  }

  lemma {:induction false} AtomicFrom(s: State, calls: seq<Call>)
    requires AllSynced(s) && !s.inProgress && AlwaysHarmless(s, calls)
    ensures After(s, calls).configs == StoreRun(s.configs, calls)
    decreases |calls|
  {
    if calls != [] {
      var c := calls[0];
      SyncedExactly(s, c);
      InForceAfter(s, c);
      assert Reload(s, c).configs == Store(s.configs, c);
      AtomicFrom(Reload(s, c), calls[1..]);
    }
  }

  // Reloads are all or nothing, whatever else fails: over every run of harmless calls the
  // configurations in force are those of the store in which unsuccessful calls do nothing.
  lemma ReloadsAreAtomic(configs: map<Environment, Config>, calls: seq<Call>)
    requires forall e: Environment :: e in configs
    requires AlwaysHarmless(Fresh(configs), calls)
    ensures After(Fresh(configs), calls).configs == StoreRun(configs, calls)
  {
    AtomicFrom(Fresh(configs), calls);
  }

  lemma {:induction false} SnapshotsSuffice(s: State, calls: seq<Call>)
    requires Complete(s) && forall c :: c in calls ==> c.preTaken && c.postTaken
    ensures AlwaysHarmless(s, calls)
    decreases |calls|
  {
    if calls != [] {
      assert calls[0] in calls;
      InForceAfter(s, calls[0]);
      SnapshotsSuffice(Reload(s, calls[0]), calls[1..]);
    }
  }

  // A reload succeeds but leaves no snapshot; the next one only fails to load, and takes the
  // configuration of the first back out of force.
  lemma MissedSnapshotReverts(configs: map<Environment, Config>, env: Environment, loaded: Config)
    requires forall e: Environment :: e in configs
    requires DetectChanges(configs[env], loaded) != {}
    ensures var first := Call(env, false, false, Some(loaded), Some([]), true, true, true, false);
      var second := Call(env, false, false, None, None, true, true, true, true);
      var s1 := Reload(Fresh(configs), first);
      && Outcome(Fresh(configs), first) == Success && s1.configs[env] == loaded
      && Outcome(s1, second) == RolledBack && Reload(s1, second).configs[env] == configs[env]
  {
    var first := Call(env, false, false, Some(loaded), Some([]), true, true, true, false);
    var second := Call(env, false, false, None, None, true, true, true, true);
    var s1 := Reload(Fresh(configs), first);
    InForceAfter(Fresh(configs), first);
    SnapshotsAfter(Fresh(configs), first);
    InForceAfter(s1, second);
    NewestLast(Snapshots(s1, env), loaded, MAX_SNAPSHOTS);
  }

  // A call reports success only if the loaded configuration is in force afterwards,
  // put there by it or there already.
  lemma SuccessMeansLoaded(s: State, c: Call)
    requires c.env in s.configs && Outcome(s, c) == Success
    requires c.load.Some? ==> c.load.value.Keys == s.configs[c.env].Keys
    ensures c.load == Some(Reload(s, c).configs[c.env])
  {
    InForceAfter(s, c);
    ChangesExactly(s.configs[c.env], c.load.value);
  }

  /******* Whatever is in force was validated *******/

  ghost predicate Validated(calls: seq<Call>, env: Environment, config: Config) {
    exists i :: 0 <= i < |calls| && calls[i].env == env && calls[i].load == Some(config) && Passes(calls[i].issues)
  }

  // What is in force for the environment, and every snapshot of it, is of a kind.
  ghost predicate AllOf(s: State, env: Environment, p: Config -> bool)
    requires env in s.configs
  {
    p(s.configs[env]) && forall x :: x in Snapshots(s, env) ==> p(x)
  }

  // What the call loads for the environment is of that kind, if it passes validation.
  ghost predicate LoadsOnly(c: Call, env: Environment, p: Config -> bool) {
    c.env == env && c.load.Some? && Passes(c.issues) ==> p(c.load.value)
  }

  lemma NewestMembers<T>(list: seq<T>, x: T, bound: nat)
    ensures forall y :: y in Newest(list + [x], bound) ==> y in list || y == x
  {
    assert forall y :: y in Newest(list + [x], bound) ==> y in list + [x];
  }

  lemma CreateKeeps(s: State, env: Environment, config: Config, taken: bool, e: Environment, p: Config -> bool)
    requires env == e ==> p(config)
    requires forall x :: x in Snapshots(s, e) ==> p(x)
    ensures forall x :: x in Snapshots(CreateSnapshot(s, env, config, taken), e) ==> p(x)
  {
    NewestMembers(Snapshots(s, env), config, MAX_SNAPSHOTS);
  }

  lemma SnapshotsKeep(s: State, c: Call, env: Environment, p: Config -> bool)
    requires env in s.configs && c.env in s.configs && AllOf(s, env, p) && LoadsOnly(c, env, p)
    ensures forall x :: x in Snapshots(Reload(s, c), env) ==> p(x)
  {
    RecordedAfter(s, c);
    CreateKeeps(s, c.env, s.configs[c.env], c.preTaken, env, p);
    if Judge(s, c) == Applied {
      var s1 := CreateSnapshot(s, c.env, s.configs[c.env], c.preTaken);
      CreateKeeps(s1, c.env, c.load.value, c.postTaken, env, p);
    }
  }

  lemma AllOfStep(s: State, c: Call, env: Environment, p: Config -> bool)
    requires Complete(s) && Complete(Reload(s, c)) && AllOf(s, env, p) && LoadsOnly(c, env, p)
    ensures AllOf(Reload(s, c), env, p)
  {
    SnapshotsKeep(s, c, env, p);
    InForceAfter(s, c);
  }

  lemma {:induction false} AllOfRun(s: State, calls: seq<Call>, env: Environment, p: Config -> bool)
    requires Complete(s) && AllOf(s, env, p) && forall c :: c in calls ==> LoadsOnly(c, env, p)
    ensures AllOf(After(s, calls), env, p)
    decreases |calls|
  {
    if calls != [] {
      AllOfStep(s, calls[0], env, p);
      AllOfRun(Reload(s, calls[0]), calls[1..], env, p);
    }
  }

  // Over every run, failed applications and rollbacks included: what is in force for an
  // environment was in force at the start or passed validation in a call for it.
  lemma OnlyValidatedInForce(configs: map<Environment, Config>, calls: seq<Call>, env: Environment)
    requires forall e: Environment :: e in configs
    ensures var config := After(Fresh(configs), calls).configs[env];
      config == configs[env] || Validated(calls, env, config)
  {
    AllOfRun(Fresh(configs), calls, env, config => config == configs[env] || Validated(calls, env, config));
  }

  /******* Bounds *******/

  predicate Bounded(s: State) {
    |s.history| <= MAX_HISTORY && forall e :: e in s.snapshots ==> |s.snapshots[e]| <= MAX_SNAPSHOTS
  }

  lemma BoundedStep(s: State, c: Call)
    requires c.env in s.configs && Bounded(s)
    ensures Bounded(Reload(s, c))
  {
    RecordedAfter(s, c);
  }

  lemma {:induction false} BoundedFrom(s: State, calls: seq<Call>)
    requires Complete(s) && Bounded(s)
    ensures Bounded(After(s, calls))
    decreases |calls|
  {
    if calls != [] {
      BoundedStep(s, calls[0]);
      BoundedFrom(Reload(s, calls[0]), calls[1..]);
    }
  }

  lemma AlwaysBounded(configs: map<Environment, Config>, calls: seq<Call>)
    requires forall e: Environment :: e in configs
    ensures Bounded(After(Fresh(configs), calls))
  {
    BoundedFrom(Fresh(configs), calls);
  }
}
