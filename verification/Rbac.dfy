/** Role assignments that expire, tenant policies, and the answers of the role check with
    its cache, whose entries live fifteen minutes and are keyed by strings. */
module Rbac {
  import opened Prelude
  import opened Strings
  import P = Permissions

  datatype Assignment = Assignment(
    role: P.Role,
    tenant: Option<string>,
    assignedAt: int,
    expiresAt: Option<int>,
    active: bool)

  datatype Policy = Policy(defaultRole: P.Role, allowed: seq<P.Role>)

  datatype Entry = Entry(result: bool, at: int)

  datatype State = State(
    assignments: map<string, seq<Assignment>>,
    policies: map<string, Policy>,
    cache: map<string, Entry>)

  const CACHE_TTL: int := 15 * MINUTE
  const KEEP_INACTIVE: int := 30 * DAY

  /******* Roles of a user *******/

  predicate Effective(a: Assignment, tenant: Option<string>, now: int) {
    && a.active
    && (a.tenant.None? || a.tenant == tenant)
    && (a.expiresAt.None? || a.expiresAt.value > now)
  }

  function DirectRoles(list: seq<Assignment>, tenant: Option<string>, now: int): set<P.Role> {
    set a | a in list && Effective(a, tenant, now) :: a.role
  }

  function WithInherited(roles: set<P.Role>): set<P.Role> {
    roles + set r, below | r in roles && below in P.Below(r) :: below
  }

  // A tenant name that is given and not empty, and has a policy.
  predicate HasPolicy(s: State, tenant: Option<string>) {
    tenant.Some? && tenant.value != "" && tenant.value in s.policies
  }

  function DefaultRoles(s: State, tenant: Option<string>): set<P.Role> {
    if HasPolicy(s, tenant) then {s.policies[tenant.value].defaultRole} else {}
  }

  function UserRoles(s: State, user: Option<string>, tenant: Option<string>, inherited: bool, now: int): set<P.Role> {
    if user.None? || user.value !in s.assignments then DefaultRoles(s, tenant)
    else
      var direct := DirectRoles(s.assignments[user.value], tenant, now);
      var roles := if inherited then WithInherited(direct) else direct;
      if roles == {} then DefaultRoles(s, tenant) else roles
  }

  /******* The check *******/

  datatype Question = Question(
    user: Option<string>,
    tenant: Option<string>,
    permission: P.Permission,
    extension: Option<string>,
    category: Option<string>)

  function Asked(q: Question): P.Query {
    P.Query(q.permission, q.extension, q.category)
  }

  // Direct evaluation, without the cache.
  predicate Evaluate(table: P.RoleTable, s: State, q: Question, now: int)
    requires P.Acyclic(table)
  {
    exists r :: r in UserRoles(s, q.user, q.tenant, true, now) && P.RoleHas(table, r, Asked(q), now)
  }

  function ShowPermission(p: P.Permission): string {
    match p
    case Read => "read"
    case Write => "write"
    case AdminAccess => "admin"
    case BackgroundTasks => "background_tasks"
    case Configure => "configure"
    case Install => "install"
    case Uninstall => "uninstall"
    case Health => "health"
    case Logs => "logs"
    case Metrics => "metrics"
  }

  function Key(q: Question): string {
    Show(q.user) + ":" + (Show(q.tenant) + ":" + (ShowPermission(q.permission) + ":" +
      (Show(q.extension) + ":" + Show(q.category))))
  }

  predicate Hit(s: State, q: Question, now: int) {
    Key(q) in s.cache && now - s.cache[Key(q)].at < CACHE_TTL
  }

  predicate Answer(table: P.RoleTable, s: State, q: Question, now: int)
    requires P.Acyclic(table)
  {
    if Hit(s, q, now) then s.cache[Key(q)].result else Evaluate(table, s, q, now)
  }

  function Check(table: P.RoleTable, s: State, q: Question, now: int): State
    requires P.Acyclic(table)
  {
    if Hit(s, q, now) then s
    else s.(cache := s.cache[Key(q) := Entry(Evaluate(table, s, q, now), now)])
  }

  /******* Changes *******/

  function ClearUser(cache: map<string, Entry>, user: string): map<string, Entry> {
    map k | k in cache && !HasPrefix(k, user + ":") :: cache[k]
  }

  function ClearTenant(cache: map<string, Entry>, tenant: string): map<string, Entry> {
    map k | k in cache && !Contains(k, ":" + tenant + ":") :: cache[k]
  }

  predicate MayAssign(s: State, role: P.Role, tenant: Option<string>) {
    HasPolicy(s, tenant) ==> role in s.policies[tenant.value].allowed
  }

  function AssignmentsOf(s: State, user: string): seq<Assignment> {
    if user in s.assignments then s.assignments[user] else []
  }

  predicate SamePost(a: Assignment, role: P.Role, tenant: Option<string>) {
    a.role == role && a.tenant == tenant && a.active
  }

  function WithoutPost(list: seq<Assignment>, role: P.Role, tenant: Option<string>): seq<Assignment> {
    if list == [] then []
    else if SamePost(list[0], role, tenant) then WithoutPost(list[1..], role, tenant)
    else [list[0]] + WithoutPost(list[1..], role, tenant)
  }

  function Assign(s: State, user: string, role: P.Role, tenant: Option<string>, expiresAt: Option<int>,
      now: int): State {
    if !MayAssign(s, role, tenant) then s else
      var list := WithoutPost(AssignmentsOf(s, user), role, tenant) + [Assignment(role, tenant, now, expiresAt, true)];
      s.(assignments := s.assignments[user := list], cache := ClearUser(s.cache, user))
  }

  function Deactivate(list: seq<Assignment>, role: P.Role, tenant: Option<string>): seq<Assignment> {
    if list == [] then []
    else [if SamePost(list[0], role, tenant) then list[0].(active := false) else list[0]]
         + Deactivate(list[1..], role, tenant)
  }

  function Revoke(s: State, user: string, role: P.Role, tenant: Option<string>): State {
    if user !in s.assignments then s else
      s.(assignments := s.assignments[user := Deactivate(s.assignments[user], role, tenant)],
         cache := ClearUser(s.cache, user))
  }

  function SetPolicy(s: State, tenant: string, policy: Policy): State {
    s.(policies := s.policies[tenant := policy], cache := ClearTenant(s.cache, tenant))
  }

  function Expire(a: Assignment, now: int): Assignment {
    if a.expiresAt.Some? && a.expiresAt.value <= now && a.active then a.(active := false) else a
  }

  function Sweep(list: seq<Assignment>, now: int): seq<Assignment> {
    if list == [] then []
    else
      var a := Expire(list[0], now);
      if a.active || a.assignedAt > now - KEEP_INACTIVE then [a] + Sweep(list[1..], now)
      else Sweep(list[1..], now)
  }

  function Cleanup(s: State, now: int): State {
    s.(assignments := map u | u in s.assignments && Sweep(s.assignments[u], now) != [] :: Sweep(s.assignments[u], now),
       cache := map k | k in s.cache && now - s.cache[k].at < CACHE_TTL :: s.cache[k])
  }

  /******* Events *******/

  datatype Event =
    | AssignRole(user: string, role: P.Role, tenant: Option<string>, expiresAt: Option<int>, now: int)
    | RevokeRole(user: string, role: P.Role, tenant: Option<string>, now: int)
    | CheckPermission(question: Question, now: int)
    | SetTenantPolicy(tenantId: string, policy: Policy, now: int)
    | CleanupExpired(now: int)

  function Next(table: P.RoleTable, s: State, e: Event): State
    requires P.Acyclic(table)
  {
    match e
    case AssignRole(user, role, tenant, expiresAt, now) => Assign(s, user, role, tenant, expiresAt, now)
    case RevokeRole(user, role, tenant, _) => Revoke(s, user, role, tenant)
    case CheckPermission(q, now) => Check(table, s, q, now)
    case SetTenantPolicy(tenant, policy, _) => SetPolicy(s, tenant, policy)
    case CleanupExpired(now) => Cleanup(s, now)
  }
}
