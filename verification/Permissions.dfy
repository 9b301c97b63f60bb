/** Permission rules, the first-match check over them, and the recursive check over a table
    of roles. */
module Permissions {
  import opened Prelude

  datatype Permission =
    | Read | Write | AdminAccess | BackgroundTasks | Configure
    | Install | Uninstall | Health | Logs | Metrics

  datatype Role = Viewer | User | Developer | Admin | System | Service

  datatype Scope = GlobalScope | CategoryScope | ExtensionScope | TenantScope | UserScope

  datatype Rule = Rule(
    permission: Permission,
    scope: Scope,
    target: string,
    tenant: Option<string>,
    granted: bool,
    expiresAt: Option<int>)

  datatype Query = Query(permission: Permission, extension: Option<string>, category: Option<string>)

  // A name that is given and not empty.
  predicate Names(name: Option<string>, target: string) {
    name.Some? && name.value != "" && target == name.value
  }

  predicate Matches(r: Rule, q: Query) {
    r.permission == q.permission &&
    match r.scope
    case GlobalScope => r.target == "*"
    case ExtensionScope => Names(q.extension, r.target)
    case CategoryScope => Names(q.category, r.target)
    case _ => false
  }

  predicate Expired(r: Rule, now: int) {
    r.expiresAt.Some? && now > r.expiresAt.value
  }

  predicate Allows(r: Rule, now: int) {
    r.granted && !Expired(r, now)
  }

  // A role's rules apply in every tenant; a user's rule in its own, or everywhere if it
  // names none.
  datatype Where = Anywhere | InTenant(tenant: Option<string>)

  predicate Applies(r: Rule, q: Query, where: Where) {
    Matches(r, q) && (where.InTenant? ==> r.tenant.None? || r.tenant == where.tenant)
  }

  // The first rule that applies decides; without one the answer is no.
  predicate FirstAllows(rules: seq<Rule>, q: Query, where: Where, now: int) {
    if rules == [] then false
    else if Applies(rules[0], q, where) then Allows(rules[0], now)
    else FirstAllows(rules[1..], q, where, now)
  }

  predicate FirstMatchAllows(rules: seq<Rule>, q: Query, now: int) {
    FirstAllows(rules, q, Anywhere, now)
  }

  /******* Roles *******/

  datatype RoleDef = RoleDef(permissions: seq<Rule>, inherits: seq<Role>)

  type RoleTable = map<Role, RoleDef>

  ghost predicate Path(table: RoleTable, p: seq<Role>) {
    && p != []
    && forall i :: 0 <= i < |p| - 1 ==> p[i] in table && p[i + 1] in table[p[i]].inherits
  }

  ghost predicate Reaches(table: RoleTable, a: Role, b: Role) {
    exists p :: Path(table, p) && p[0] == a && p[|p| - 1] == b
  }

  ghost predicate Acyclic(table: RoleTable) {
    forall p :: Path(table, p) && |p| > 1 ==> p[0] != p[|p| - 1]
  }

  ghost function ReachSet(table: RoleTable, a: Role): set<Role> {
    set b: Role | Reaches(table, a, b)
  }

  lemma ReachesItself(table: RoleTable, a: Role)
    ensures Reaches(table, a, a)
  {
    assert Path(table, [a]);
  }

  lemma ReachesThrough(table: RoleTable, a: Role, b: Role, c: Role)
    requires a in table && b in table[a].inherits && Reaches(table, b, c)
    ensures Reaches(table, a, c)
  {
    var p :| Path(table, p) && p[0] == b && p[|p| - 1] == c;
    assert Path(table, [a] + p);
  }

  // A role reaches strictly more than the roles it inherits from: the recursion over an
  // acyclic table ends.
  lemma RankDrops(table: RoleTable, a: Role, b: Role)
    requires Acyclic(table) && a in table && b in table[a].inherits
    ensures |ReachSet(table, b)| < |ReachSet(table, a)|
  {
    forall c | c in ReachSet(table, b) ensures c in ReachSet(table, a) {
      ReachesThrough(table, a, b, c);
    }
    ReachesItself(table, a);
    if a in ReachSet(table, b) {
      var p :| Path(table, p) && p[0] == b && p[|p| - 1] == a;
      assert Path(table, [a] + p);
      assert false;
    }
    ProperSubsetIsSmaller(ReachSet(table, b), ReachSet(table, a), a);
  }

  lemma ProperSubsetIsSmaller<T>(small: set<T>, big: set<T>, x: T)
    requires small <= big && x in big && x !in small
    ensures |small| < |big|
  {
    var rest := big - {x};
    assert small <= rest;
    SubsetIsSmaller(small, rest);
  }

  // Inherited roles are asked first; then the first matching rule of the role decides.
  predicate RoleHas(table: RoleTable, role: Role, q: Query, now: int)
    requires Acyclic(table)
    decreases |ReachSet(table, role)|, 1, 0
  {
    role in table &&
    (InheritedHas(table, role, 0, q, now) || FirstMatchAllows(table[role].permissions, q, now))
  }

  predicate InheritedHas(table: RoleTable, role: Role, i: nat, q: Query, now: int)
    requires Acyclic(table) && role in table && i <= |table[role].inherits|
    decreases |ReachSet(table, role)|, 0, |table[role].inherits| - i
  {
    if i == |table[role].inherits| then false
    else
      RankDrops(table, role, table[role].inherits[i]);
      RoleHas(table, table[role].inherits[i], q, now) || InheritedHas(table, role, i + 1, q, now)
  }

  /******* The built-in table *******/

  function Everywhere(p: Permission): Rule {
    Rule(p, GlobalScope, "*", None, true, None)
  }

  function InCategory(p: Permission, category: string): Rule {
    Rule(p, CategoryScope, category, None, true, None)
  }

  const BUILT_IN: RoleTable := map[
    Viewer := RoleDef([Everywhere(Read), Everywhere(Health)], []),
    User := RoleDef([Everywhere(Read), InCategory(Write, "general"), InCategory(Configure, "general"),
                     Everywhere(Health)],
                    [Viewer]),
    Developer := RoleDef([Everywhere(Read), Everywhere(Write), Everywhere(Configure), Everywhere(BackgroundTasks),
                          Everywhere(Health), Everywhere(Logs), Everywhere(Metrics)],
                         [User]),
    Admin := RoleDef([Everywhere(AdminAccess), Everywhere(Install), Everywhere(Uninstall)], [Developer]),
    System := RoleDef([Everywhere(AdminAccess)], []),
    Service := RoleDef([Everywhere(BackgroundTasks), Everywhere(Health), Everywhere(Read)], [])]

  // The flattened hierarchy the role manager keeps beside the table.
  function Below(role: Role): set<Role> {
    match role
    case Admin => {Developer, User, Viewer}
    case Developer => {User, Viewer}
    case User => {Viewer}
    case System => {Admin, Developer, User, Viewer}
    case Service => {Viewer}
    case Viewer => {}
  }

  /******* Rules granted to one user or tenant *******/

  predicate SameSlot(a: Rule, b: Rule) {
    a.permission == b.permission && a.scope == b.scope && a.target == b.target
  }

  function WithoutSlot(rules: seq<Rule>, r: Rule): seq<Rule> {
    if rules == [] then []
    else if SameSlot(rules[0], r) then WithoutSlot(rules[1..], r)
    else [rules[0]] + WithoutSlot(rules[1..], r)
  }

  // Granting replaces whatever rule sits in the same slot.
  function Grant(rules: seq<Rule>, r: Rule): seq<Rule> {
    WithoutSlot(rules, r) + [r]
  }

  // Revoking with a tenant spares rules of other tenants.
  function Revoke(rules: seq<Rule>, r: Rule, tenant: Option<string>): seq<Rule> {
    if rules == [] then []
    else if SameSlot(rules[0], r) && (tenant.None? || rules[0].tenant == tenant) then Revoke(rules[1..], r, tenant)
    else [rules[0]] + Revoke(rules[1..], r, tenant)
  }

  predicate Keeps(r: Rule, now: int) {
    r.expiresAt.None? || r.expiresAt.value > now
  }

  function Clean(rules: seq<Rule>, now: int): seq<Rule> {
    if rules == [] then []
    else if Keeps(rules[0], now) then [rules[0]] + Clean(rules[1..], now)
    else Clean(rules[1..], now)
  }

  predicate UserMatches(r: Rule, q: Query, tenant: Option<string>) {
    Applies(r, q, InTenant(tenant))
  }

  predicate UserAllows(rules: seq<Rule>, q: Query, tenant: Option<string>, now: int) {
    FirstAllows(rules, q, InTenant(tenant), now)
  }
}
