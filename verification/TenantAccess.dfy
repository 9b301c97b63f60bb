/** Grants of extensions to tenants, kept in two tables, under policies with a capacity. */
module TenantAccess {
  import opened Prelude

  datatype Level = NoAccess | ReadOnly | Limited | Standard | Premium | Admin

  datatype Visibility = Public | Private | Internal | Beta

  datatype Access = Access(level: Level, enabled: bool, expiresAt: Option<int>)

  datatype Policy = Policy(
    visibility: Visibility,
    defaultLevel: Level,
    allowed: Option<set<string>>,
    blocked: Option<set<string>>,
    specific: map<string, Access>,   // by tenant
    maxTenants: Option<int>)

  datatype State = State(
    access: map<string, map<string, Access>>,   // by tenant, then by extension
    policies: map<string, Policy>)

  const ANY := "*"

  function Initial(): State {
    State(map[], map[ANY := Policy(Public, Standard, None, None, map[], None)])
  }

  /******* Who has access *******/

  predicate IsLive(a: Access, now: int) {
    a.enabled && (a.expiresAt.None? || now <= a.expiresAt.value)
  }

  predicate Holds(s: State, tenant: string, ext: string) {
    tenant in s.access && ext in s.access[tenant]
  }

  function Tenants(s: State, ext: string, level: Option<Level>, now: int): set<string> {
    set t | t in s.access && ext in s.access[t] && IsLive(s.access[t][ext], now)
            && (level.None? || s.access[t][ext].level == level.value)
  }

  function Live(s: State, ext: string, now: int): set<string> {
    Tenants(s, ext, None, now)
  }

  /******* Policies *******/

  function InForce(s: State, ext: string): Option<Policy> {
    if ext in s.policies then Some(s.policies[ext])
    else if ANY in s.policies then Some(s.policies[ANY])
    else None
  }

  function SetPolicy(s: State, ext: string, policy: Policy): State {
    s.(policies := s.policies[ext := policy.(specific := map[])])
  }

  // An empty set of blocked or allowed tenants and a maximum of 0 restrict nothing.
  predicate MayGrant(s: State, tenant: string, ext: string, now: int) {
    match InForce(s, ext)
    case None => false
    case Some(p) =>
      && !(p.blocked.Some? && tenant in p.blocked.value)
      && !(p.visibility == Private && p.allowed.Some? && p.allowed.value != {} && tenant !in p.allowed.value)
      && !(p.maxTenants.Some? && p.maxTenants.value != 0 && |Live(s, ext, now)| >= p.maxTenants.value)
  }

  /******* Granting, revoking, cleaning up *******/

  function Inner(s: State, tenant: string): map<string, Access> {
    if tenant in s.access then s.access[tenant] else map[]
  }

  function Put(s: State, tenant: string, ext: string, a: Access): State {
    var access := s.access[tenant := Inner(s, tenant)[ext := a]];
    if ext in s.policies then
      var p := s.policies[ext];
      State(access, s.policies[ext := p.(specific := p.specific[tenant := a])])
    else s.(access := access)
  }

  function Grant(s: State, tenant: string, ext: string, level: Level, expiresAt: Option<int>, now: int): State {
    if MayGrant(s, tenant, ext, now) then Put(s, tenant, ext, Access(level, true, expiresAt)) else s
  }

  function Drop(access: map<string, map<string, Access>>, tenant: string, ext: string)
    : map<string, map<string, Access>>
  {
    if tenant in access && ext in access[tenant] then
      var inner := access[tenant] - {ext};
      if inner == map[] then access - {tenant} else access[tenant := inner]
    else access
  }

  function Revoke(s: State, tenant: string, ext: string): State {
    var access := Drop(s.access, tenant, ext);
    if ext in s.policies && tenant in s.policies[ext].specific then
      var p := s.policies[ext];
      State(access, s.policies[ext := p.(specific := p.specific - {tenant})])
    else s.(access := access)
  }

  predicate Expired(a: Access, now: int) {
    a.expiresAt.Some? && a.expiresAt.value <= now
  }

  function Unexpired(m: map<string, Access>, now: int): map<string, Access> {
    map k | k in m && !Expired(m[k], now) :: m[k]
  }

  function Cleanup(s: State, now: int): State {
    State(
      map t | t in s.access && Unexpired(s.access[t], now) != map[] :: Unexpired(s.access[t], now),
      map e | e in s.policies :: s.policies[e].(specific := Unexpired(s.policies[e].specific, now)))
  }
}
