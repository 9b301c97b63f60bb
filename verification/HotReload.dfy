/** Reloading the configuration of a running service, with snapshots to roll back to. */
module HotReload {
  import opened Prelude

  datatype Environment = Development | Staging | Production | Test

  // Field values by name; None is a field without a value.
  type Config = map<string, Option<string>>

  datatype Severity = Info | Warning | Error | Critical

  datatype Status = Success | Failed | RolledBack

  datatype Entry = Entry(env: Environment, status: Status)

  datatype State = State(
    configs: map<Environment, Config>,          // what is in force
    snapshots: map<Environment, seq<Config>>,   // oldest first
    history: seq<Entry>,
    inProgress: bool)

  // A call of `reload_configuration` with what the world answers it.
  datatype Call = Call(
    env: Environment,
    force: bool,
    veto: bool,                          // a pre-reload callback refuses or raises
    load: Option<Config>,                // None: loading raises
    issues: Option<seq<Severity>>,       // None: validating raises
    applies: bool,                       // applying the loaded configuration reports success
    restores: bool,                      // applying a snapshot reports success
    preTaken: bool,                      // taking the snapshot before does not raise
    postTaken: bool)                     // nor the one after

  const MAX_SNAPSHOTS: nat := 10
  const MAX_HISTORY: nat := 100

  // The manager holds a configuration for every environment from the start.
  ghost predicate Complete(s: State) {
    forall e: Environment :: e in s.configs
  }

  // The reloader starts with a snapshot of every configuration.
  function Fresh(configs: map<Environment, Config>): State {
    State(configs, map e | e in configs :: [configs[e]], [], false)
  }

  function Newest<T>(list: seq<T>, bound: nat): seq<T> {
    if |list| > bound then list[|list| - bound..] else list
  }

  function Snapshots(s: State, env: Environment): seq<Config> {
    if env in s.snapshots then s.snapshots[env] else []
  }

  // A configuration that cannot be serialised leaves no snapshot, and no trace.
  function CreateSnapshot(s: State, env: Environment, config: Config, taken: bool): State {
    if taken then s.(snapshots := s.snapshots[env := Newest(Snapshots(s, env) + [config], MAX_SNAPSHOTS)]) else s
  }

  function AddToHistory(s: State, env: Environment, status: Status): State {
    s.(history := Newest(s.history + [Entry(env, status)], MAX_HISTORY))
  }

  /******* Changes and validation *******/

  function Field(c: Config, key: string): Option<string> {
    if key in c then c[key] else None
  }

  // The names of the fields that differ.
  function DetectChanges(before: Config, loaded: Config): set<string> {
    (set k | k in loaded && Field(before, k) != loaded[k]) + (set k | k in before && k !in loaded)
  }

  predicate Passes(issues: Option<seq<Severity>>) {
    issues.Some? && Critical !in issues.value && Error !in issues.value
  }

  /******* Reloading *******/

  datatype Verdict = Busy | Vetoed | LoadFailed | Unchanged | Rejected | Applied | ApplyFailed

  // How far a call gets, given the configuration in force.
  function Judge(s: State, c: Call): Verdict
    requires c.env in s.configs
  {
    if s.inProgress && !c.force then Busy
    else if c.veto then Vetoed
    else if c.load.None? then LoadFailed
    else if DetectChanges(s.configs[c.env], c.load.value) == {} && !c.force then Unchanged
    else if !Passes(c.issues) then Rejected
    else if c.applies then Applied
    else ApplyFailed
  }

  // The snapshot before the last is put in force, whether or not applying it then fails.
  function Rollback(s: State, env: Environment): State {
    var list := Snapshots(s, env);
    if |list| < 2 then s else s.(configs := s.configs[env := list[|list| - 2]])
  }

  predicate RollsBack(s: State, c: Call) {
    |Snapshots(s, c.env)| >= 2 && c.restores
  }

  // State and status at the end, before the event is noted in the history for good.
  function Body(s: State, c: Call): (State, Status)
    requires c.env in s.configs
  {
    var s1 := CreateSnapshot(s.(inProgress := true), c.env, s.configs[c.env], c.preTaken);
    match Judge(s, c)
    case Busy => (AddToHistory(s, c.env, Failed), Failed)
    case Vetoed => (AddToHistory(s1, c.env, Failed), Failed)
    case LoadFailed => (Rollback(s1, c.env), if RollsBack(s1, c) then RolledBack else Failed)
    case _ => Replace(s1, c)
  }

  // The same from the configuration loaded on.
  function Replace(s: State, c: Call): (State, Status)
    requires c.env in s.configs && c.load.Some?
  {
    var s1 := s.(configs := s.configs[c.env := c.load.value]);
    if DetectChanges(s.configs[c.env], c.load.value) == {} && !c.force then (AddToHistory(s, c.env, Success), Success)
    else if !Passes(c.issues) then (AddToHistory(s, c.env, Failed), Failed)
    else if c.applies then (CreateSnapshot(s1, c.env, c.load.value, c.postTaken), Success)
    else (Rollback(s1, c.env), if RollsBack(s1, c) then RolledBack else Failed)
  }

  function Reload(s: State, c: Call): State
    requires c.env in s.configs
  {
    var (s1, status) := Body(s, c);
    AddToHistory(s1, c.env, status).(inProgress := false)
  }

  function Outcome(s: State, c: Call): Status
    requires c.env in s.configs
  {
    Body(s, c).1
  }
}
