/** The reloader as the program writes it: configurations, snapshots and history are
    assigned step by step along the path of a reload. */
module HotReloader {
  import opened Prelude
  import opened HotReload

  class Reloader {
    var configs: map<Environment, Config>
    var snapshots: map<Environment, seq<Config>>
    var history: seq<Entry>
    var inProgress: bool

    ghost function View(): State
      reads this
    {
      State(configs, snapshots, history, inProgress)
    }

    constructor (configs: map<Environment, Config>)
      ensures View() == Fresh(configs)
    {
      this.configs, history, inProgress := configs, [], false;
      snapshots := map e | e in configs :: [configs[e]];
    }

    method ReloadConfiguration(c: Call) returns (status: Status)
      requires Complete(View())
      modifies this
      ensures View() == Reload(old(View()), c)
      ensures status == Outcome(old(View()), c)
    {
      status := ReloadUnderLock(c);
      inProgress := false;
      NoteInHistory(c.env, status);
    }

    // Up to the `finally` clause; early returns note their event here already.
    method ReloadUnderLock(c: Call) returns (status: Status)
      requires Complete(View())
      modifies this
      ensures (View(), status) == Body(old(View()), c)
    {
      if inProgress && !c.force {
        NoteInHistory(c.env, Failed);
        return Failed;
      }
      inProgress := true;
      var current := configs[c.env];
      TakeSnapshot(c.env, current, c.preTaken);
      if c.veto {
        NoteInHistory(c.env, Failed);
        return Failed;
      }
      if c.load.None? {
        var restored := RollBack(c.env, c.restores);
        return if restored then RolledBack else Failed;
      }
      status := ReplaceConfiguration(c);
    }

    // From the configuration loaded on.
    method ReplaceConfiguration(c: Call) returns (status: Status)
      requires c.env in configs && c.load.Some?
      modifies this
      ensures (View(), status) == Replace(old(View()), c)
    {
      var changes := ChangedFields(configs[c.env], c.load.value);
      if changes == {} && !c.force {
        NoteInHistory(c.env, Success);
        return Success;
      }
      var valid := Validate(c.issues);
      if !valid {
        NoteInHistory(c.env, Failed);
        return Failed;
      }
      configs := configs[c.env := c.load.value];
      if c.applies {
        TakeSnapshot(c.env, c.load.value, c.postTaken);
        return Success;
      }
      var restored := RollBack(c.env, c.restores);
      return if restored then RolledBack else Failed;
    }

    method TakeSnapshot(env: Environment, config: Config, serialised: bool)
      modifies this`snapshots
      ensures View() == CreateSnapshot(old(View()), env, config, serialised)
    {
      if !serialised {
        return;
      }
      if env !in snapshots {
        snapshots := snapshots[env := []];
      }
      snapshots := snapshots[env := snapshots[env] + [config]];
      if |snapshots[env]| > MAX_SNAPSHOTS {
        snapshots := snapshots[env := snapshots[env][|snapshots[env]| - MAX_SNAPSHOTS..]];
      }
      assert snapshots == CreateSnapshot(old(View()), env, config, true).snapshots;
    }

    method RollBack(env: Environment, applies: bool) returns (ok: bool)
      modifies this`configs
      ensures View() == Rollback(old(View()), env)
      ensures ok == (|Snapshots(old(View()), env)| >= 2 && applies)
    {
      if env !in snapshots || |snapshots[env]| < 2 {
        return false;
      }
      var list := snapshots[env];
      configs := configs[env := list[|list| - 2]];
      return applies;
    }

    method NoteInHistory(env: Environment, status: Status)
      modifies this`history
      ensures View() == AddToHistory(old(View()), env, status)
    {
      history := history + [Entry(env, status)];
      if |history| > MAX_HISTORY {
        history := history[|history| - MAX_HISTORY..];
      }
    }

    static method ChangedFields(before: Config, loaded: Config) returns (changes: set<string>)
      ensures changes == DetectChanges(before, loaded)
    {
      changes := {};
      var left := loaded.Keys;
      while left != {}
        invariant left <= loaded.Keys
        invariant changes == set k | k in loaded && k !in left && Field(before, k) != loaded[k]
        decreases left
      {
        var k :| k in left;
        if Field(before, k) != loaded[k] {
          changes := changes + {k};
        }
        left := left - {k};
      }
      left := before.Keys;
      ghost var changed := changes;
      while left != {}
        invariant left <= before.Keys
        invariant changes == changed + set k | k in before && k !in left && k !in loaded
        decreases left
      {
        var k :| k in left;
        if k !in loaded {
          changes := changes + {k};
        }
        left := left - {k};
      }
    }

    static method Validate(issues: Option<seq<Severity>>) returns (valid: bool)
      ensures valid == Passes(issues)
    {
      if issues.None? {
        return false;
      }
      var i := 0;
      while i < |issues.value|
        invariant i <= |issues.value|
        invariant Critical !in issues.value[..i] && Error !in issues.value[..i]
      {
        if issues.value[i] == Critical || issues.value[i] == Error {
          return false;
        }
        i := i + 1;
      }
      assert issues.value[..i] == issues.value;
      return true;
    }
  }
}
