/** What role assignments, policies and the cache mean, on the fields stored and in terms of
    the calls made. */
module RbacMeaning {
  import opened Prelude
  import opened Strings
  import opened Rbac
  import opened RbacProofs
  import P = Permissions

  const FIFTEEN_MINUTES: int := 900_000_000
  const THIRTY_DAYS: int := 2_592_000_000_000

  /******* Which roles a user has *******/

  // Active, for every tenant or this one, and not expired.
  predicate InEffect(a: Assignment, tenant: Option<string>, now: int) {
    a.active && (a.tenant == None || a.tenant == tenant) && (a.expiresAt == None || now < a.expiresAt.value)
  }

  ghost predicate Assigned(s: State, user: Option<string>, role: P.Role, tenant: Option<string>, now: int) {
    user.Some? && user.value in s.assignments &&
    exists a :: a in s.assignments[user.value] && a.role == role && InEffect(a, tenant, now)
  }

  // The roles listed below another one.
  predicate IsBelow(lower: P.Role, upper: P.Role) {
    match upper
    case Admin => lower in {P.Developer, P.User, P.Viewer}
    case Developer => lower in {P.User, P.Viewer}
    case User => lower == P.Viewer
    case System => lower in {P.Admin, P.Developer, P.User, P.Viewer}
    case Service => lower == P.Viewer
    case Viewer => false
  }

  predicate IsDefault(s: State, role: P.Role, tenant: Option<string>) {
    tenant.Some? && tenant.value != "" && tenant.value in s.policies && s.policies[tenant.value].defaultRole == role
  }

  // A user has the roles assigned and, if asked for, those below them; and the default role
  // of the tenant's policy exactly if none is assigned.
  lemma RolesExactly(s: State, user: Option<string>, tenant: Option<string>, inherited: bool, now: int, role: P.Role)
    ensures role in UserRoles(s, user, tenant, inherited, now) <==>
      || Assigned(s, user, role, tenant, now)
      || (inherited && exists upper :: Assigned(s, user, upper, tenant, now) && IsBelow(role, upper))
      || (IsDefault(s, role, tenant) && forall other :: !Assigned(s, user, other, tenant, now))
  {
    assert forall lower, upper :: IsBelow(lower, upper) <==> lower in P.Below(upper);
    if user.Some? && user.value in s.assignments {
      var direct := DirectRoles(s.assignments[user.value], tenant, now);
      forall r ensures r in direct <==> Assigned(s, user, r, tenant, now) {
        if Assigned(s, user, r, tenant, now) {
          var a :| a in s.assignments[user.value] && a.role == r && InEffect(a, tenant, now);
          assert Effective(a, tenant, now);
        }
      }
      assert WithInherited({}) == {};
      assert direct != {} ==> exists r :: r in direct;
      assert forall r :: r in direct ==> r in WithInherited(direct);
    }
  }

  /******* Assigning *******/

  // The tenant is absent, empty or without a policy, or its policy allows the role.
  predicate Allowed(policies: map<string, Policy>, role: P.Role, tenant: Option<string>) {
    tenant == None || tenant.value == "" || tenant.value !in policies || role in policies[tenant.value].allowed
  }

  predicate SameAs(a: Assignment, role: P.Role, tenant: Option<string>) {
    a.role == role && a.tenant == tenant && a.active
  }

  function UserList(s: State, user: string): seq<Assignment> {
    if user in s.assignments then s.assignments[user] else []
  }

  // An assignment that the policy does not allow changes nothing. One that it allows puts an
  // active assignment with this tenant and expiry last in the user's list, takes out the
  // active ones of the same role and tenant, and leaves all other lists and all policies.
  lemma AssignExactly(table: P.RoleTable, s: State, user: string, role: P.Role, tenant: Option<string>,
      expiresAt: Option<int>, now: int)
    requires P.Acyclic(table)
    ensures var s' := Next(table, s, AssignRole(user, role, tenant, expiresAt, now));
      if !Allowed(s.policies, role, tenant) then s' == s
      else
        var list := UserList(s', user);
        && list != [] && list[|list| - 1] == Assignment(role, tenant, now, expiresAt, true)
        && (forall a :: a in list[..|list| - 1] <==> a in UserList(s, user) && !SameAs(a, role, tenant))
        && (forall u :: u != user ==> UserList(s', u) == UserList(s, u))
        && s'.policies == s.policies
  {
    WithoutPostMembers(UserList(s, user), role, tenant);
  }

  // After an allowed assignment the user has the role in the tenant until it expires.
  lemma AssignedUntilExpiry(table: P.RoleTable, s: State, user: string, role: P.Role, tenant: Option<string>,
      expiresAt: Option<int>, now: int, inherited: bool, t: int)
    requires P.Acyclic(table) && Allowed(s.policies, role, tenant) && (expiresAt == None || t < expiresAt.value)
    ensures role in
      UserRoles(Next(table, s, AssignRole(user, role, tenant, expiresAt, now)), Some(user), tenant, inherited, t)
  {
    var s' := Next(table, s, AssignRole(user, role, tenant, expiresAt, now));
    AssignExactly(table, s, user, role, tenant, expiresAt, now);
    var list := UserList(s', user);
    assert list[|list| - 1] in list && InEffect(list[|list| - 1], tenant, t);
    assert Assigned(s', Some(user), role, tenant, t);
    RolesExactly(s', Some(user), tenant, inherited, t, role);
  }

  // Revoking switches off exactly the active assignments of the role and tenant, in place.
  lemma RevokeExactly(table: P.RoleTable, s: State, user: string, role: P.Role, tenant: Option<string>, now: int)
    requires P.Acyclic(table)
    ensures var s' := Next(table, s, RevokeRole(user, role, tenant, now));
      && |UserList(s', user)| == |UserList(s, user)|
      && (forall k :: 0 <= k < |UserList(s, user)| ==>
            var a := UserList(s, user)[k];
            UserList(s', user)[k] == if SameAs(a, role, tenant) then a.(active := false) else a)
      && (forall u :: u != user ==> UserList(s', u) == UserList(s, u))
      && s'.policies == s.policies
  {
    DeactivateAt(UserList(s, user), role, tenant);
  }

  lemma {:induction false} DeactivateAt(list: seq<Assignment>, role: P.Role, tenant: Option<string>)
    ensures |Deactivate(list, role, tenant)| == |list|
    ensures forall k :: 0 <= k < |list| ==>
      Deactivate(list, role, tenant)[k] == if SameAs(list[k], role, tenant) then list[k].(active := false) else list[k]
  {
    if list != [] {
      DeactivateAt(list[1..], role, tenant);
      assert forall k :: 0 < k < |list| ==> list[k] == list[1..][k - 1];
    }
  }

  // A cleanup switches off what has expired, and forgets what is not active and was assigned
  // thirty days ago or more.
  lemma CleanupExactly(table: P.RoleTable, s: State, user: string, now: int)
    requires P.Acyclic(table)
    ensures var s' := Next(table, s, CleanupExpired(now));
      && s'.policies == s.policies
      && (forall k :: k in s'.cache <==> k in s.cache && now - s.cache[k].at < FIFTEEN_MINUTES)
      && (forall k :: k in s'.cache ==> s'.cache[k] == s.cache[k])
      && forall x :: x in UserList(s', user) <==>
           exists a :: a in UserList(s, user) && x == Lapse(a, now) && (x.active || now - x.assignedAt < THIRTY_DAYS)
  {
    SweepMembers(UserList(s, user), now);
  }

  function Lapse(a: Assignment, now: int): Assignment {
    if a.expiresAt.Some? && a.expiresAt.value <= now then a.(active := false) else a
  }

  lemma {:induction false} SweepMembers(list: seq<Assignment>, now: int)
    ensures forall x :: x in Sweep(list, now) <==>
      exists a :: a in list && x == Lapse(a, now) && (x.active || now - x.assignedAt < THIRTY_DAYS)
  {
    if list != [] {
      SweepMembers(list[1..], now);
      assert list == [list[0]] + list[1..];
      assert Lapse(list[0], now) == Expire(list[0], now);
    }
  }

  /******* Policies *******/

  // The policy set last for a tenant.
  function LastPolicy(es: seq<Event>, tenant: string): Option<Policy> {
    if es == [] then None
    else
      var last := es[|es| - 1];
      if last.SetTenantPolicy? && last.tenantId == tenant then Some(last.policy) else LastPolicy(es[..|es| - 1], tenant)
  }

  ghost predicate FromNothing(table: P.RoleTable, ss: seq<State>, es: seq<Event>) {
    Run(table, ss, es) && ss[0] == State(map[], map[], map[])
  }

  // Over every run a tenant has the policy that was set for it last, and none otherwise.
  lemma {:induction false} PolicyIsLastSet(table: P.RoleTable, ss: seq<State>, es: seq<Event>, n: nat, tenant: string)
    requires FromNothing(table, ss, es) && n <= |es|
    ensures match LastPolicy(es[..n], tenant)
      case Some(p) => tenant in ss[n].policies && ss[n].policies[tenant] == p
      case None => tenant !in ss[n].policies
  {
    if n > 0 {
      assert Follows(table, ss, es, n - 1);
      assert es[..n][..n - 1] == es[..n - 1];
      PolicyIsLastSet(table, ss, es, n - 1, tenant);
      PoliciesNext(table, ss[n - 1], es[n - 1]);
    }
  }

  lemma PoliciesNext(table: P.RoleTable, s: State, e: Event)
    requires P.Acyclic(table)
    ensures Next(table, s, e).policies == if e.SetTenantPolicy? then s.policies[e.tenantId := e.policy] else s.policies
  {
  }

  // Event m made the assignment, and the policies then allowed it.
  ghost predicate MadeWhileAllowed(ss: seq<State>, es: seq<Event>, user: string, a: Assignment, m: nat) {
    && m < |es| && m < |ss|
    && es[m] == AssignRole(user, a.role, a.tenant, a.expiresAt, a.assignedAt)
    && Allowed(ss[m].policies, a.role, a.tenant)
  }

  ghost predicate HasOrigin(ss: seq<State>, es: seq<Event>, a: Assignment, user: string, n: nat) {
    exists m: nat :: m < n && MadeWhileAllowed(ss, es, user, a.(active := true), m)
  }

  ghost predicate Origins(ss: seq<State>, es: seq<Event>, list: seq<Assignment>, user: string, n: nat) {
    forall a :: a in list ==> HasOrigin(ss, es, a, user, n)
  }

  // An assignment in the list after a call was there before, apart from its flag, or the
  // call made it and the policy allowed that.
  ghost predicate KeptOrMade(s: State, e: Event, user: string, x: Assignment) {
    || (exists a :: a in UserList(s, user) && a.(active := true) == x.(active := true))
    || (e == AssignRole(user, x.role, x.tenant, x.expiresAt, x.assignedAt) && Allowed(s.policies, x.role, x.tenant))
  }

  lemma AfterAssign(table: P.RoleTable, s: State, e: Event, user: string, x: Assignment)
    requires P.Acyclic(table) && e.AssignRole? && x in UserList(Next(table, s, e), user)
    ensures KeptOrMade(s, e, user, x)
  {
    var list, list' := UserList(s, user), UserList(Next(table, s, e), user);
    AssignExactly(table, s, e.user, e.role, e.tenant, e.expiresAt, e.now);
    if e.user == user && x !in list {
      assert list'[..|list'| - 1] + [list'[|list'| - 1]] == list';
    } else {
      assert x.(active := true) == x.(active := true) && x in list;
    }
  }

  lemma AfterRevoke(table: P.RoleTable, s: State, e: Event, user: string, x: Assignment)
    requires P.Acyclic(table) && e.RevokeRole? && x in UserList(Next(table, s, e), user)
    ensures KeptOrMade(s, e, user, x)
  {
    var list, list' := UserList(s, user), UserList(Next(table, s, e), user);
    RevokeExactly(table, s, e.user, e.role, e.tenant, e.now);
    var k :| 0 <= k < |list'| && list'[k] == x;
    assert list[k] in list && list[k].(active := true) == x.(active := true);
  }

  lemma AfterCleanup(table: P.RoleTable, s: State, e: Event, user: string, x: Assignment)
    requires P.Acyclic(table) && e.CleanupExpired? && x in UserList(Next(table, s, e), user)
    ensures KeptOrMade(s, e, user, x)
  {
    CleanupExactly(table, s, user, e.now);
    var a: Assignment :| a in UserList(s, user) && x == Lapse(a, e.now);
    assert a.(active := true) == x.(active := true);
  }

  lemma AfterAny(table: P.RoleTable, s: State, e: Event, user: string, x: Assignment)
    requires P.Acyclic(table) && x in UserList(Next(table, s, e), user)
    ensures KeptOrMade(s, e, user, x)
  {
    match e
    case AssignRole(_, _, _, _, _) => AfterAssign(table, s, e, user, x);
    case RevokeRole(_, _, _, _) => AfterRevoke(table, s, e, user, x);
    case CleanupExpired(_) => AfterCleanup(table, s, e, user, x);
    case _ =>
      assert UserList(Next(table, s, e), user) == UserList(s, user);
      assert x in UserList(s, user) && x.(active := true) == x.(active := true);
  }

  lemma OriginsStep(table: P.RoleTable, ss: seq<State>, es: seq<Event>, user: string, n: nat)
    requires Run(table, ss, es) && n < |es| && Follows(table, ss, es, n)
    requires Origins(ss, es, UserList(ss[n], user), user, n)
    ensures Origins(ss, es, UserList(ss[n + 1], user), user, n + 1)
  {
    var list' := UserList(ss[n + 1], user);
    forall x | x in list' ensures HasOrigin(ss, es, x, user, n + 1) {
      AfterAny(table, ss[n], es[n], user, x);
      OriginOf(ss, es, x, user, n);
    }
  }

  lemma OriginOf(ss: seq<State>, es: seq<Event>, x: Assignment, user: string, n: nat)
    requires n < |es| && n < |ss| && Origins(ss, es, UserList(ss[n], user), user, n)
    requires KeptOrMade(ss[n], es[n], user, x)
    ensures HasOrigin(ss, es, x, user, n + 1)
  {
    if a :| a in UserList(ss[n], user) && a.(active := true) == x.(active := true) {
      var m: nat :| m < n && MadeWhileAllowed(ss, es, user, a.(active := true), m);
    } else {
      assert MadeWhileAllowed(ss, es, user, x.(active := true), n);
    }
  }

  // Over every run, every assignment there is was made by a call for this user, role, tenant
  // and expiry, at a moment when the tenant's policy, if there was one, allowed the role.
  lemma {:induction false} EveryAssignmentWasAllowed(table: P.RoleTable, ss: seq<State>, es: seq<Event>, user: string,
      n: nat)
    requires FromNothing(table, ss, es) && n <= |es|
    ensures Origins(ss, es, UserList(ss[n], user), user, n)
  {
    if n > 0 {
      assert Follows(table, ss, es, n - 1);
      EveryAssignmentWasAllowed(table, ss, es, user, n - 1);
      OriginsStep(table, ss, es, user, n - 1);
    }
  }

  /******* The check *******/

  // The user has a role that the permission engine lets do what is asked.
  ghost predicate MayNow(table: P.RoleTable, s: State, q: Question, now: int)
    requires P.Acyclic(table)
  {
    exists r :: r in UserRoles(s, q.user, q.tenant, true, now)
                && P.RoleHas(table, r, P.Query(q.permission, q.extension, q.category), now)
  }

  // Without a cached answer the check says whether the user may; and for fifteen minutes
  // from then on it repeats that, unless its entry is removed.
  lemma AnswerIsKept(table: P.RoleTable, s: State, q: Question, now: int, t: int)
    requires P.Acyclic(table) && now <= t
    requires Key(q) in s.cache ==> now - s.cache[Key(q)].at >= FIFTEEN_MINUTES
    ensures Answer(table, s, q, now) == MayNow(table, s, q, now)
    ensures var s' := Next(table, s, CheckPermission(q, now));
      && s'.assignments == s.assignments && s'.policies == s.policies
      && (t < now + FIFTEEN_MINUTES ==> Answer(table, s', q, t) == MayNow(table, s, q, now))
      && (t >= now + FIFTEEN_MINUTES ==> Answer(table, s', q, t) == MayNow(table, s', q, t))
  {
  }
}
