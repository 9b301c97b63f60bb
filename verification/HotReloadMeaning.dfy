/** What a call of `reload_configuration` reports and notes, by what happens on its way and
    with the numbers written out. */
module HotReloadMeaning {
  import opened Prelude
  import opened HotReload
  import opened HotReloadRuns

  /******* How a call ends *******/

  // Some field is not what it was; a field that was not there counts as without a value.
  ghost predicate Differs(before: Config, loaded: Config) {
    || (exists k :: k in loaded && (if k in before then before[k] else None) != loaded[k])
    || (exists k :: k in before && k !in loaded)
  }

  ghost predicate Sound(issues: Option<seq<Severity>>) {
    issues.Some? && forall i :: 0 <= i < |issues.value| ==> issues.value[i] == Info || issues.value[i] == Warning
  }

  // Not turned away: no other reload under way, or forced; and no callback refuses.
  predicate Admitted(s: State, c: Call) {
    (s.inProgress ==> c.force) && !c.veto
  }

  // There is something to do: something differs, or the call is forced.
  ghost predicate Needed(s: State, c: Call)
    requires c.env in s.configs && c.load.Some?
  {
    Differs(s.configs[c.env], c.load.value) || c.force
  }

  // Two snapshots at least when the call comes to roll back, its own among them.
  predicate CanGoBack(s: State, c: Call) {
    var n := if c.env in s.snapshots then |s.snapshots[c.env]| else 0;
    if c.preTaken then n >= 1 else n >= 2
  }

  ghost predicate GoesWell(s: State, c: Call)
    requires c.env in s.configs
  {
    Admitted(s, c) && c.load.Some? && (Needed(s, c) ==> Sound(c.issues) && c.applies)
  }

  // Admitted, and loading raises or applying what is sound fails.
  ghost predicate ComesToRollback(s: State, c: Call)
    requires c.env in s.configs
  {
    Admitted(s, c) && (c.load.None? || (Needed(s, c) && Sound(c.issues) && !c.applies))
  }

  lemma ChangesAreDifferences(before: Config, loaded: Config)
    ensures DetectChanges(before, loaded) != {} <==> Differs(before, loaded)
  {
    forall k | k in DetectChanges(before, loaded) ensures Differs(before, loaded) {
    }
    if exists k :: k in loaded && (if k in before then before[k] else None) != loaded[k] {
      var k :| k in loaded && (if k in before then before[k] else None) != loaded[k];
      assert k in DetectChanges(before, loaded);
    }
    if exists k :: k in before && k !in loaded {
      var k :| k in before && k !in loaded;
      assert k in DetectChanges(before, loaded);
    }
  }

  lemma PassesIsSound(issues: Option<seq<Severity>>)
    ensures Passes(issues) <==> Sound(issues)
  {
  }

  // A call succeeds exactly if it is admitted, loads, and either needs to do nothing or has
  // something sound to apply that is applied; it is rolled back exactly if it comes to that,
  // there is a snapshot to go back to and going back is reported to work; otherwise it fails.
  lemma StatusExactly(s: State, c: Call)
    requires c.env in s.configs
    ensures Outcome(s, c) == Success <==> GoesWell(s, c)
    ensures Outcome(s, c) == RolledBack <==> ComesToRollback(s, c) && CanGoBack(s, c) && c.restores
  {
    PassesIsSound(c.issues);
    NewestLast(Snapshots(s, c.env), s.configs[c.env], MAX_SNAPSHOTS);
    if c.load.Some? {
      ChangesAreDifferences(s.configs[c.env], c.load.value);
    }
  }

  // What is in force afterwards: what was loaded, if it was needed, sound and applied; what
  // rolling back leads to, if it came to that; else what was.
  lemma InForceExactly(s: State, c: Call)
    requires c.env in s.configs
    ensures var s', live := Reload(s, c), s.configs[c.env];
      && (forall e :: e in s.configs && e != c.env ==> e in s'.configs && s'.configs[e] == s.configs[e])
      && c.env in s'.configs
      && (GoesWell(s, c) && Needed(s, c) ==> s'.configs[c.env] == c.load.value)
      && (GoesWell(s, c) && !Needed(s, c) ==> s'.configs[c.env] == live)
      && (ComesToRollback(s, c) && !CanGoBack(s, c) ==> s'.configs[c.env] == c.load.GetOr(live))
      && (ComesToRollback(s, c) && CanGoBack(s, c) ==>
            var list := s.snapshots[c.env];
            s'.configs[c.env] == list[|list| - (if c.preTaken then 1 else 2)])
      && (!GoesWell(s, c) && !ComesToRollback(s, c) ==> s'.configs[c.env] == live)
  {
    PassesIsSound(c.issues);
    InForceAfter(s, c);
    if c.load.Some? {
      ChangesAreDifferences(s.configs[c.env], c.load.value);
    }
  }

  /******* What is noted *******/

  // The last of a list, as many as there may be, or all of it.
  ghost predicate LastOf<T(!new)>(kept: seq<T>, all: seq<T>, bound: nat) {
    |kept| == (if |all| <= bound then |all| else bound) && kept == all[|all| - |kept|..]
  }

  // A snapshot goes behind those there are, of which the last ten stay.
  lemma SnapshotExactly(s: State, env: Environment, config: Config)
    ensures CreateSnapshot(s, env, config, false) == s
    ensures var s' := CreateSnapshot(s, env, config, true);
      var before := if env in s.snapshots then s.snapshots[env] else [];
      && s'.snapshots.Keys == s.snapshots.Keys + {env} && s' == s.(snapshots := s'.snapshots)
      && LastOf(s'.snapshots[env], before + [config], 10)
      && forall e :: e in s.snapshots && e != env ==> s'.snapshots[e] == s.snapshots[e]
  {
  }

  // The call ends before its changes are applied, in a way that notes it once already.
  ghost predicate EndsEarly(s: State, c: Call)
    requires c.env in s.configs
  {
    || !Admitted(s, c)
    || (c.load.Some? && !Needed(s, c))
    || (c.load.Some? && !Sound(c.issues))
  }

  lemma EarlyVerdicts(s: State, c: Call)
    requires c.env in s.configs
    ensures EndsEarly(s, c) <==> Judge(s, c) in {Busy, Vetoed, Unchanged, Rejected}
  {
    PassesIsSound(c.issues);
    if c.load.Some? {
      ChangesAreDifferences(s.configs[c.env], c.load.value);
    }
  }

  lemma NotedTwice(h: seq<Entry>, e: Entry)
    requires |h| <= 100
    ensures LastOf(Newest(h + [e], 100), h + [e], 100)
    ensures LastOf(Newest(Newest(h + [e], 100) + [e], 100), h + [e, e], 100)
  {
    var once := Newest(h + [e], 100);
    assert once == (h + [e])[|h| + 1 - |once|..];
    assert once + [e] == (h + [e, e])[|h| + 1 - |once|..];
  }

  lemma BodyHistory(s: State, c: Call)
    requires c.env in s.configs
    ensures Body(s, c).0.history ==
      if Judge(s, c) in {Busy, Vetoed, Unchanged, Rejected} then Newest(s.history + [Entry(c.env, Outcome(s, c))], 100)
      else s.history
  {
  }

  // The history gets the call's status, twice if it ends early, and keeps its last hundred.
  lemma HistoryExactly(s: State, c: Call)
    requires c.env in s.configs && |s.history| <= 100
    ensures var entry := Entry(c.env, Outcome(s, c));
      LastOf(Reload(s, c).history, s.history + (if EndsEarly(s, c) then [entry, entry] else [entry]), 100)
    ensures Reload(s, c).inProgress == false
  {
    EarlyVerdicts(s, c);
    BodyHistory(s, c);
    NotedTwice(s.history, Entry(c.env, Outcome(s, c)));
  }
}
