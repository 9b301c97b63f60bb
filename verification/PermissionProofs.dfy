/** What the permission checks mean. */
module PermissionProofs {
  import opened Prelude
  import opened Permissions

  /******* The recursive role check *******/

  lemma {:induction false} InheritedMeans(table: RoleTable, role: Role, i: nat, q: Query, now: int)
    requires Acyclic(table) && role in table && i <= |table[role].inherits|
    ensures InheritedHas(table, role, i, q, now) <==>
      exists j :: i <= j < |table[role].inherits| && RoleHas(table, table[role].inherits[j], q, now)
    decreases |table[role].inherits| - i
  {
    if i < |table[role].inherits| {
      InheritedMeans(table, role, i + 1, q, now);
    }
  }

  lemma AskedRoleSpeaks(table: RoleTable, role: Role, b: Role, q: Query, now: int)
    requires Acyclic(table) && role in table && b in table[role].inherits && RoleHas(table, b, q, now)
    ensures RoleHas(table, role, q, now)
  {
    InheritedMeans(table, role, 0, q, now);
  }

  lemma {:induction false} SomeRoleSpeaks(table: RoleTable, p: seq<Role>, q: Query, now: int)
    requires Acyclic(table) && Path(table, p)
    requires p[|p| - 1] in table && FirstMatchAllows(table[p[|p| - 1]].permissions, q, now)
    ensures RoleHas(table, p[0], q, now)
  {
    if |p| > 1 {
      assert Path(table, p[1..]);
      SomeRoleSpeaks(table, p[1..], q, now);
      AskedRoleSpeaks(table, p[0], p[1], q, now);
    }
  }

  lemma {:induction false} SpeakerExists(table: RoleTable, role: Role, q: Query, now: int)
    requires Acyclic(table) && RoleHas(table, role, q, now)
    ensures exists r :: Reaches(table, role, r) && r in table && FirstMatchAllows(table[r].permissions, q, now)
    decreases |ReachSet(table, role)|
  {
    InheritedMeans(table, role, 0, q, now);
    if InheritedHas(table, role, 0, q, now) {
      var j :| 0 <= j < |table[role].inherits| && RoleHas(table, table[role].inherits[j], q, now);
      var b := table[role].inherits[j];
      RankDrops(table, role, b);
      SpeakerExists(table, b, q, now);
      var r :| Reaches(table, b, r) && r in table && FirstMatchAllows(table[r].permissions, q, now);
      ReachesThrough(table, role, b, r);
    } else {
      ReachesItself(table, role);
    }
  }

  // On every acyclic table the check holds exactly when some role that can be reached
  // through inheritance has a first matching rule that is granted and not expired.
  lemma RoleHasMeans(table: RoleTable, role: Role, q: Query, now: int)
    requires Acyclic(table)
    ensures RoleHas(table, role, q, now) <==>
      exists r :: Reaches(table, role, r) && r in table && FirstMatchAllows(table[r].permissions, q, now)
  {
    if RoleHas(table, role, q, now) {
      SpeakerExists(table, role, q, now);
    }
    if exists r :: Reaches(table, role, r) && r in table && FirstMatchAllows(table[r].permissions, q, now) {
      var r :| Reaches(table, role, r) && r in table && FirstMatchAllows(table[r].permissions, q, now);
      var p :| Path(table, p) && p[0] == role && p[|p| - 1] == r;
      SomeRoleSpeaks(table, p, q, now);
    }
  }

  ghost predicate Decides(rules: seq<Rule>, q: Query, where: Where, i: nat)
    requires i < |rules|
  {
    Applies(rules[i], q, where) && forall j :: 0 <= j < i ==> !Applies(rules[j], q, where)
  }

  // Without a rule that applies the answer is no; otherwise the earliest one decides.
  lemma {:induction false} FirstMatchDecides(rules: seq<Rule>, q: Query, where: Where, now: int)
    ensures FirstAllows(rules, q, where, now) <==>
      exists i :: 0 <= i < |rules| && Decides(rules, q, where, i) && Allows(rules[i], now)
  {
    if rules != [] && Applies(rules[0], q, where) {
      assert Decides(rules, q, where, 0);
    } else if rules != [] {
      var rest := rules[1..];
      FirstMatchDecides(rest, q, where, now);
      assert forall i :: 0 <= i < |rest| ==> rest[i] == rules[i + 1];
      forall i | 0 <= i < |rest| ensures Decides(rest, q, where, i) <==> Decides(rules, q, where, i + 1) {
        assert forall j :: 0 < j < i + 1 ==> rules[j] == rest[j - 1];
      }
      if i :| 0 <= i < |rules| && Decides(rules, q, where, i) && Allows(rules[i], now) {
        assert Decides(rest, q, where, i - 1) && rest[i - 1] == rules[i];
      }
    }
  }

  /******* The built-in table *******/

  function Height(role: Role): nat {
    match role
    case Admin => 3
    case Developer => 2
    case User => 1
    case _ => 0
  }

  lemma {:induction false} PathsDescend(p: seq<Role>)
    requires Path(BUILT_IN, p)
    ensures |p| > 1 ==> Height(p[|p| - 1]) < Height(p[0])
  {
    if |p| > 1 {
      assert Path(BUILT_IN, p[1..]);
      PathsDescend(p[1..]);
    }
  }

  lemma BuiltInAcyclic()
    ensures Acyclic(BUILT_IN)
  {
    forall p | Path(BUILT_IN, p) && |p| > 1 ensures p[0] != p[|p| - 1] {
      PathsDescend(p);
    }
  }

  // What each built-in role permits.
  predicate Permitted(role: Role, q: Query) {
    var general := q.category == Some("general");
    match role
    case Viewer => q.permission in {Read, Health}
    case User => q.permission in {Read, Health} || (q.permission in {Write, Configure} && general)
    case Developer => q.permission in {Read, Write, Configure, BackgroundTasks, Health, Logs, Metrics}
    case Admin => true
    case System => q.permission == AdminAccess
    case Service => q.permission in {BackgroundTasks, Health, Read}
  }

  // Where every rule allows, its order does not matter.
  lemma {:induction false} AnyMatchDecides(rules: seq<Rule>, q: Query, where: Where, now: int)
    requires forall r :: r in rules ==> Allows(r, now)
    ensures FirstAllows(rules, q, where, now) <==> exists r :: r in rules && Applies(r, q, where)
  {
    if rules != [] {
      AnyMatchDecides(rules[1..], q, where, now);
      assert rules == [rules[0]] + rules[1..];
    }
  }

  // The rules of the built-in roles, read as a condition on the query.
  predicate Own(role: Role, q: Query) {
    var general := q.category == Some("general");
    match role
    case Viewer => q.permission in {Read, Health}
    case User => q.permission in {Read, Health} || (q.permission in {Write, Configure} && general)
    case Developer => q.permission in {Read, Write, Configure, BackgroundTasks, Health, Logs, Metrics}
    case Admin => q.permission in {AdminAccess, Install, Uninstall}
    case System => q.permission == AdminAccess
    case Service => q.permission in {BackgroundTasks, Health, Read}
  }

  lemma OwnRules(role: Role, q: Query, now: int)
    ensures FirstMatchAllows(BUILT_IN[role].permissions, q, now) <==> Own(role, q)
  {
    var rules := BUILT_IN[role].permissions;
    AnyMatchDecides(rules, q, Anywhere, now);
    if Own(role, q) {
      var r := if role == User && q.permission in {Write, Configure} then InCategory(q.permission, "general")
               else Everywhere(q.permission);
      assert r in rules && Matches(r, q);
    }
  }

  lemma NoneBelow(role: Role, q: Query, now: int)
    requires Acyclic(BUILT_IN) && BUILT_IN[role].inherits == []
    ensures RoleHas(BUILT_IN, role, q, now) <==> Own(role, q)
  {
    OwnRules(role, q, now);
    InheritedMeans(BUILT_IN, role, 0, q, now);
    assert role in BUILT_IN;
  }

  lemma OneBelow(role: Role, below: Role, q: Query, now: int)
    requires Acyclic(BUILT_IN) && BUILT_IN[role].inherits == [below]
    requires RoleHas(BUILT_IN, below, q, now) <==> Permitted(below, q)
    ensures RoleHas(BUILT_IN, role, q, now) <==> Own(role, q) || Permitted(below, q)
  {
    OwnRules(role, q, now);
    InheritedMeans(BUILT_IN, role, 0, q, now);
  }

  // The role a built-in role inherits from, if any.
  function Under(role: Role): Option<Role> {
    match role
    case User => Some(Viewer)
    case Developer => Some(User)
    case Admin => Some(Developer)
    case _ => None
  }

  lemma UnderIsInherited(role: Role)
    ensures BUILT_IN[role].inherits == if Under(role).None? then [] else [Under(role).value]
  {
  }

  lemma PermittedByLayer(role: Role, q: Query)
    ensures Permitted(role, q) <==> Own(role, q) || (Under(role).Some? && Permitted(Under(role).value, q))
  {
    var p := q.permission;
    match role
    case Admin =>
      assert p.Read? || p.Write? || p.Configure? || p.BackgroundTasks? || p.Health? || p.Logs? || p.Metrics?
        || Own(Admin, q);
    case _ =>
  }

  // What each built-in role permits, for every extension and category at every time.
  lemma BuiltInAnswers(role: Role, q: Query, now: int)
    ensures Acyclic(BUILT_IN)
    ensures RoleHas(BUILT_IN, role, q, now) <==> Permitted(role, q)
    decreases Height(role)
  {
    BuiltInAcyclic();
    UnderIsInherited(role);
    PermittedByLayer(role, q);
    if Under(role).None? {
      NoneBelow(role, q, now);
    } else {
      BuiltInAnswers(Under(role).value, q, now);
      OneBelow(role, Under(role).value, q, now);
    }
  }

  // Asking the role and everything the flattened hierarchy puts below it, as the role
  // manager does.
  predicate FlattenedHas(role: Role, q: Query, now: int)
    requires Acyclic(BUILT_IN)
  {
    exists r :: r in {role} + Below(role) && RoleHas(BUILT_IN, r, q, now)
  }

  // Flattening changes no answer, for any extension and category, except for SYSTEM; and
  // for SYSTEM it changes every answer but the one about ADMIN.
  lemma FlatteningAgreesExactly(role: Role, q: Query, now: int)
    ensures Acyclic(BUILT_IN)
    ensures (FlattenedHas(role, q, now) <==> RoleHas(BUILT_IN, role, q, now)) <==>
      (role != System || q.permission == AdminAccess)
  {
    BuiltInAcyclic();
    forall r: Role ensures RoleHas(BUILT_IN, r, q, now) <==> Permitted(r, q) {
      BuiltInAnswers(r, q, now);
    }
    if role == System {
      assert RoleHas(BUILT_IN, Admin, q, now) && Admin in {role} + Below(role);
    } else {
      assert forall r :: r in Below(role) ==> (Permitted(r, q) ==> Permitted(role, q));
      assert role in {role} + Below(role);
    }
  }

  /******* Rules of one user *******/

  // At most one rule per slot, and every rule grants.
  ghost predicate Tidy(rules: seq<Rule>) {
    && (forall i, j :: 0 <= i < j < |rules| ==> !SameSlot(rules[i], rules[j]))
    && (forall r :: r in rules ==> r.granted)
  }

  lemma {:induction false} WithoutSlotTidy(rules: seq<Rule>, r: Rule)
    requires Tidy(rules)
    ensures Tidy(WithoutSlot(rules, r))
    ensures forall x :: x in WithoutSlot(rules, r) <==> x in rules && !SameSlot(x, r)
  {
    if rules != [] {
      WithoutSlotTidy(rules[1..], r);
      assert rules == [rules[0]] + rules[1..];
      assert forall x :: x in rules[1..] ==> !SameSlot(rules[0], x);
    }
  }

  lemma GrantTidy(rules: seq<Rule>, r: Rule)
    requires Tidy(rules) && r.granted
    ensures Tidy(Grant(rules, r))
    ensures forall x :: x in Grant(rules, r) <==> x == r || (x in rules && !SameSlot(x, r))
  {
    WithoutSlotTidy(rules, r);
    assert forall x :: x in WithoutSlot(rules, r) ==> !SameSlot(x, r);
  }

  lemma {:induction false} RevokeTidy(rules: seq<Rule>, r: Rule, tenant: Option<string>)
    requires Tidy(rules)
    ensures Tidy(Revoke(rules, r, tenant))
    ensures forall x :: x in Revoke(rules, r, tenant) <==>
      x in rules && !(SameSlot(x, r) && (tenant.None? || x.tenant == tenant))
  {
    if rules != [] {
      RevokeTidy(rules[1..], r, tenant);
      assert rules == [rules[0]] + rules[1..];
      assert forall x :: x in rules[1..] ==> !SameSlot(rules[0], x);
    }
  }

  lemma {:induction false} CleanTidy(rules: seq<Rule>, now: int)
    requires Tidy(rules)
    ensures Tidy(Clean(rules, now))
    ensures forall x :: x in Clean(rules, now) <==> x in rules && Keeps(x, now)
  {
    if rules != [] {
      CleanTidy(rules[1..], now);
      assert rules == [rules[0]] + rules[1..];
      assert forall x :: x in rules[1..] ==> !SameSlot(rules[0], x);
    }
  }

  function MatchingIn(rules: seq<Rule>, q: Query, scope: Scope): set<nat> {
    set i: nat | i < |rules| && Matches(rules[i], q) && rules[i].scope == scope
  }

  lemma OnePerScope(rules: seq<Rule>, q: Query, scope: Scope)
    requires Tidy(rules)
    ensures |MatchingIn(rules, q, scope)| <= 1
  {
    forall i, j | i in MatchingIn(rules, q, scope) && j in MatchingIn(rules, q, scope) ensures i == j {
      assert SameSlot(rules[i], rules[j]);
    }
    AtMostOne(MatchingIn(rules, q, scope));
  }

  // Two different rules that match one query differ in scope, so no more than one global,
  // one extension and one category rule can match.
  lemma AtMostThreeMatch(rules: seq<Rule>, q: Query)
    requires Tidy(rules)
    ensures |set i: nat | i < |rules| && Matches(rules[i], q)| <= 3
  {
    var hits := set i: nat | i < |rules| && Matches(rules[i], q);
    var g, x := MatchingIn(rules, q, GlobalScope), MatchingIn(rules, q, ExtensionScope);
    var c := MatchingIn(rules, q, CategoryScope);
    OnePerScope(rules, q, GlobalScope);
    OnePerScope(rules, q, ExtensionScope);
    OnePerScope(rules, q, CategoryScope);
    forall i | i in hits ensures i in g || i in x || i in c {
      assert rules[i].scope in {GlobalScope, ExtensionScope, CategoryScope};
    }
    SubsetIsSmaller(hits, g + x + c);
    assert |g + x + c| <= |g| + |x| + |c|;
  }

  lemma AtMostOne(s: set<nat>)
    requires forall i, j :: i in s && j in s ==> i == j
    ensures |s| <= 1
  {
    if s != {} {
      var i :| i in s;
      assert s == {i};
    }
  }

  /******* Cleanup of expired rules *******/

  // Right after cleanup the first-match check says whether some unexpired rule matches.
  lemma {:induction false} CleanedMeansLive(rules: seq<Rule>, q: Query, tenant: Option<string>, now: int)
    requires Tidy(rules)
    ensures UserAllows(Clean(rules, now), q, tenant, now) <==>
      exists r :: r in rules && Keeps(r, now) && UserMatches(r, q, tenant)
  {
    CleanTidy(rules, now);
    AnyMatchDecides(Clean(rules, now), q, InTenant(tenant), now);
  }

  ghost predicate SomeLiveMatch(rules: seq<Rule>, q: Query, tenant: Option<string>, now: int) {
    exists r :: r in rules && UserMatches(r, q, tenant) && !Expired(r, now)
  }

  // An expired rule that applies hides the live ones after it.
  ghost predicate ExpiredHides(rules: seq<Rule>, q: Query, tenant: Option<string>, now: int, i: nat, j: nat)
    requires i < |rules| && j < |rules|
  {
    && Decides(rules, q, InTenant(tenant), i) && Expired(rules[i], now)
    && i < j && UserMatches(rules[j], q, tenant) && !Expired(rules[j], now)
  }

  // At any moment the check says whether some live rule matches, except exactly when the
  // first rule that applies has expired and a later one has not; then it says no.
  lemma CheckMeansLiveExactly(rules: seq<Rule>, q: Query, tenant: Option<string>, now: int)
    requires Tidy(rules)
    ensures (UserAllows(rules, q, tenant, now) <==> SomeLiveMatch(rules, q, tenant, now)) <==>
      !(exists i: nat, j: nat :: i < |rules| && j < |rules| && ExpiredHides(rules, q, tenant, now, i, j))
    ensures UserAllows(rules, q, tenant, now) ==> SomeLiveMatch(rules, q, tenant, now)
  {
    FirstMatchDecides(rules, q, InTenant(tenant), now);
    if SomeLiveMatch(rules, q, tenant, now) && !UserAllows(rules, q, tenant, now) {
      var r :| r in rules && UserMatches(r, q, tenant) && !Expired(r, now);
      var j: nat :| j < |rules| && rules[j] == r;
      var i := FirstApplying(rules, q, InTenant(tenant), j);
      assert ExpiredHides(rules, q, tenant, now, i, j);
    }
  }

  lemma {:induction false} FirstApplying(rules: seq<Rule>, q: Query, where: Where, j: nat) returns (i: nat)
    requires j < |rules| && Applies(rules[j], q, where)
    ensures i <= j && Decides(rules, q, where, i)
    decreases j
  {
    if k: nat :| k < j && Applies(rules[k], q, where) {
      i := FirstApplying(rules, q, where, k);
    } else {
      i := j;
    }
  }

  // Cleanup takes no access away, provided no rule expires at this very instant.
  lemma CleanupKeepsAccess(rules: seq<Rule>, q: Query, tenant: Option<string>, now: int)
    requires Tidy(rules) && forall r :: r in rules ==> r.expiresAt != Some(now)
    ensures UserAllows(rules, q, tenant, now) ==> UserAllows(Clean(rules, now), q, tenant, now)
  {
    CleanedMeansLive(rules, q, tenant, now);
    if UserAllows(rules, q, tenant, now) {
      FirstMatchDecides(rules, q, InTenant(tenant), now);
    }
  }

  // Exactly when cleanup takes an access away: the check rests on a rule that expires at
  // this instant, and no matching rule lives on.
  lemma CleanupTakesAccessExactly(rules: seq<Rule>, q: Query, tenant: Option<string>, now: int)
    requires Tidy(rules)
    ensures UserAllows(rules, q, tenant, now) && !UserAllows(Clean(rules, now), q, tenant, now) <==>
      && (exists i :: 0 <= i < |rules| && Decides(rules, q, InTenant(tenant), i) && rules[i].expiresAt == Some(now))
      && (forall r :: r in rules && UserMatches(r, q, tenant) ==> !Keeps(r, now))
  {
    CleanedMeansLive(rules, q, tenant, now);
    FirstMatchDecides(rules, q, InTenant(tenant), now);
  }

  // A rule that expires now is still honoured by the check and already swept by cleanup.
  lemma CleanupAtExpiry(now: int)
    ensures var rules := [Rule(Read, GlobalScope, "*", None, true, Some(now))];
      var q := Query(Read, None, None);
      Tidy(rules) && UserAllows(rules, q, None, now) && !UserAllows(Clean(rules, now), q, None, now)
  {
    assert Clean([Rule(Read, GlobalScope, "*", None, true, Some(now))], now) == [];
  }

  /******* Runs of the permission manager *******/

  datatype Store = Store(users: map<string, seq<Rule>>, tenants: map<string, seq<Rule>>)

  function RulesOf(m: map<string, seq<Rule>>, id: string): seq<Rule> {
    if id in m then m[id] else []
  }

  function CleanAll(m: map<string, seq<Rule>>, now: int): map<string, seq<Rule>> {
    map id | id in m && Clean(m[id], now) != [] :: Clean(m[id], now)
  }

  datatype Event =
    | GrantUser(user: string, rule: Rule)
    | RevokeUser(user: string, rule: Rule, tenant: Option<string>)
    | GrantTenant(tenantId: string, rule: Rule)
    | CleanUp(now: int)

  // The rules the API builds always grant.
  predicate Possible(e: Event) {
    (e.GrantUser? || e.GrantTenant?) ==> e.rule.granted
  }

  function Next(s: Store, e: Event): Store {
    match e
    case GrantUser(id, r) => s.(users := s.users[id := Grant(RulesOf(s.users, id), r)])
    case RevokeUser(id, r, tenant) =>
      if id in s.users then s.(users := s.users[id := Revoke(s.users[id], r, tenant)]) else s
    case GrantTenant(id, r) => s.(tenants := s.tenants[id := Grant(RulesOf(s.tenants, id), r)])
    case CleanUp(now) => Store(CleanAll(s.users, now), CleanAll(s.tenants, now))
  }

  function After(s: Store, es: seq<Event>): Store
    decreases |es|
  {
    if es == [] then s else After(Next(s, es[0]), es[1..])
  }

  ghost predicate TidyStore(s: Store) {
    && (forall id :: id in s.users ==> Tidy(s.users[id]))
    && (forall id :: id in s.tenants ==> Tidy(s.tenants[id]))
  }

  // At every moment of every run each user and tenant has one rule per slot at most.
  lemma {:induction false} AlwaysTidy(s: Store, es: seq<Event>)
    requires TidyStore(s) && forall e :: e in es ==> Possible(e)
    ensures TidyStore(After(s, es))
    decreases |es|
  {
    if es != [] {
      TidyStep(s, es[0]);
      AlwaysTidy(Next(s, es[0]), es[1..]);
    }
  }

  lemma TidyStep(s: Store, e: Event)
    requires Possible(e) && TidyStore(s)
    ensures TidyStore(Next(s, e))
  {
    match e
    case GrantUser(id, r) => GrantTidy(RulesOf(s.users, id), r);
    case RevokeUser(id, r, tenant) => if id in s.users { RevokeTidy(s.users[id], r, tenant); }
    case GrantTenant(id, r) => GrantTidy(RulesOf(s.tenants, id), r);
    case CleanUp(now) =>
      CleanAllTidy(s.users, now);
      CleanAllTidy(s.tenants, now);
  }

  lemma CleanAllTidy(m: map<string, seq<Rule>>, now: int)
    requires forall id :: id in m ==> Tidy(m[id])
    ensures forall id :: id in CleanAll(m, now) ==> Tidy(CleanAll(m, now)[id])
  {
    forall id | id in CleanAll(m, now) ensures Tidy(CleanAll(m, now)[id]) {
      CleanTidy(m[id], now);
    }
  }
}
