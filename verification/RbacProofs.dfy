/** Cleanup is invisible, revoking undoes assigning, and cached answers are direct
    evaluations made less than fifteen minutes ago. */
module RbacProofs {
  import opened Prelude
  import opened Strings
  import opened Rbac
  import P = Permissions
  import PP = PermissionProofs

  /******* Cleanup *******/

  lemma {:induction false} SweepKeepsRoles(list: seq<Assignment>, now: int, tenant: Option<string>, t: int)
    requires now <= t
    ensures DirectRoles(Sweep(list, now), tenant, t) == DirectRoles(list, tenant, t)
  {
    if list != [] {
      SweepKeepsRoles(list[1..], now, tenant, t);
      var a := Expire(list[0], now);
      assert Effective(a, tenant, t) <==> Effective(list[0], tenant, t);
      assert list == [list[0]] + list[1..];
      DirectRolesCons(list[0], list[1..], tenant, t);
      DirectRolesCons(a, Sweep(list[1..], now), tenant, t);
    }
  }

  lemma DirectRolesCons(a: Assignment, list: seq<Assignment>, tenant: Option<string>, t: int)
    ensures DirectRoles([a] + list, tenant, t) ==
      (if Effective(a, tenant, t) then {a.role} else {}) + DirectRoles(list, tenant, t)
  {
  }

  // At every later time each role query gets the same answer with and without cleanup,
  // also when the whole entry of the user was deleted.
  lemma CleanupInvisible(s: State, now: int, user: Option<string>, tenant: Option<string>, inherited: bool, t: int)
    requires now <= t
    ensures UserRoles(Cleanup(s, now), user, tenant, inherited, t) == UserRoles(s, user, tenant, inherited, t)
  {
    if user.Some? && user.value in s.assignments {
      var list := s.assignments[user.value];
      SweepKeepsRoles(list, now, tenant, t);
      if Sweep(list, now) == [] {
        assert DirectRoles(list, tenant, t) == {};
        assert WithInherited({}) == {};
      }
    }
  }

  /******* Assign, then revoke *******/

  predicate Holds(list: seq<Assignment>, role: P.Role, tenant: Option<string>) {
    exists i :: 0 <= i < |list| && SamePost(list[i], role, tenant)
  }

  lemma {:induction false} WithoutPostIsIdentity(list: seq<Assignment>, role: P.Role, tenant: Option<string>)
    requires !Holds(list, role, tenant)
    ensures WithoutPost(list, role, tenant) == list
    ensures Deactivate(list, role, tenant) == list
  {
    if list != [] {
      assert !SamePost(list[0], role, tenant);
      assert forall i :: 0 <= i < |list[1..]| ==> list[1..][i] == list[i + 1];
      WithoutPostIsIdentity(list[1..], role, tenant);
    }
  }

  lemma {:induction false} DeactivateAppend(list: seq<Assignment>, a: Assignment, role: P.Role, tenant: Option<string>)
    ensures Deactivate(list + [a], role, tenant) ==
      Deactivate(list, role, tenant) + [if SamePost(a, role, tenant) then a.(active := false) else a]
  {
    if list == [] {
      assert list + [a] == [a];
    } else {
      assert (list + [a])[1..] == list[1..] + [a];
      DeactivateAppend(list[1..], a, role, tenant);
    }
  }

  // An assignment that was accepted and then revoked leaves every role query as it was,
  // if the user held no active assignment of that role for that tenant before.
  lemma RevokeUndoesAssign(s: State, user: string, role: P.Role, tenant: Option<string>, expiresAt: Option<int>,
                           now: int,
                           who: Option<string>, where: Option<string>, inherited: bool, t: int)
    requires MayAssign(s, role, tenant) && !Holds(AssignmentsOf(s, user), role, tenant)
    ensures var s' := Revoke(Assign(s, user, role, tenant, expiresAt, now), user, role, tenant);
      UserRoles(s', who, where, inherited, t) == UserRoles(s, who, where, inherited, t)
  {
    if who == Some(user) {
      var list := AssignmentsOf(s, user);
      var a := Assignment(role, tenant, now, expiresAt, true);
      WithoutPostIsIdentity(list, role, tenant);
      DeactivateAppend(list, a, role, tenant);
      var list' := list + [a.(active := false)];
      assert DirectRoles(list', where, t) == DirectRoles(list, where, t);
      if user !in s.assignments {
        assert DirectRoles(list, where, t) == {} && WithInherited({}) == {};
      }
    }
  }

  // Assignment b lasts at least as long as a.
  predicate Outlasts(b: Assignment, a: Assignment) {
    b.expiresAt.None? || (a.expiresAt.Some? && a.expiresAt.value <= b.expiresAt.value)
  }

  lemma {:induction false} WithoutPostMembers(list: seq<Assignment>, role: P.Role, tenant: Option<string>)
    ensures forall a :: a in WithoutPost(list, role, tenant) <==> a in list && !SamePost(a, role, tenant)
    ensures Deactivate(WithoutPost(list, role, tenant), role, tenant) == WithoutPost(list, role, tenant)
  {
    if list != [] {
      WithoutPostMembers(list[1..], role, tenant);
      assert list == [list[0]] + list[1..];
    }
  }

  // An instant from `now` on by which every expiry in the list has passed.
  function Late(list: seq<Assignment>, now: int): (t: int)
    ensures now <= t && forall a :: a in list && a.expiresAt.Some? ==> a.expiresAt.value <= t
  {
    if list == [] then now
    else
      var t := Late(list[1..], now);
      if list[0].expiresAt.Some? && list[0].expiresAt.value > t then list[0].expiresAt.value else t
  }

  // What the user's list is after assigning and revoking.
  function Replaced(list: seq<Assignment>, role: P.Role, tenant: Option<string>, expiresAt: Option<int>,
      now: int): seq<Assignment> {
    Deactivate(WithoutPost(list, role, tenant) + [Assignment(role, tenant, now, expiresAt, true)], role, tenant)
  }

  lemma ReplacedRoles(list: seq<Assignment>, role: P.Role, tenant: Option<string>, expiresAt: Option<int>, now: int,
      where: Option<string>, t: int)
    ensures DirectRoles(Replaced(list, role, tenant, expiresAt, now), where, t)
         == DirectRoles(WithoutPost(list, role, tenant), where, t)
  {
    var a := Assignment(role, tenant, now, expiresAt, true);
    WithoutPostMembers(list, role, tenant);
    DeactivateAppend(WithoutPost(list, role, tenant), a, role, tenant);
  }

  // An assignment of the role for all tenants that assigning and revoking leaves alone.
  predicate Backs(b: Assignment, role: P.Role, tenant: Option<string>) {
    !SamePost(b, role, tenant) && b.active && b.role == role && b.tenant.None?
  }

  ghost predicate Outlasted(list: seq<Assignment>, a: Assignment, role: P.Role, tenant: Option<string>) {
    exists b :: b in list && Backs(b, role, tenant) && Outlasts(b, a)
  }

  // The tenant's default role is this one and brings no other with it, and it steps in:
  // whatever else the user holds in the tenant ends before the role does.
  ghost predicate DefaultStepsIn(s: State, list: seq<Assignment>, role: P.Role, tenant: Option<string>, now: int) {
    && DefaultRoles(s, tenant) == {role} && P.Below(role) == {}
    && forall c :: c in list && !SamePost(c, role, tenant) && Effective(c, tenant, now) ==>
      Outlasted(list, c, role, tenant)
  }

  ghost predicate Covered(s: State, list: seq<Assignment>, role: P.Role, tenant: Option<string>, now: int) {
    forall a :: a in list && SamePost(a, role, tenant) && Effective(a, tenant, now) ==>
      Outlasted(list, a, role, tenant) || DefaultStepsIn(s, list, role, tenant, now)
  }

  // The last instant at which both assignments are in effect, or one by which all
  // expiries have passed.
  function LastOfBoth(list: seq<Assignment>, a: Assignment, c: Assignment, now: int): int {
    match (a.expiresAt, c.expiresAt)
    case (None, None) => Late(list, now)
    case (Some(x), None) => x - 1
    case (None, Some(y)) => y - 1
    case (Some(x), Some(y)) => Min(x, y) - 1
  }

  // When c outlasts neither, nothing that backs the role is left at that instant.
  lemma NothingBacksThen(list: seq<Assignment>, a: Assignment, c: Assignment, role: P.Role, tenant: Option<string>,
      now: int)
    requires a in list && SamePost(a, role, tenant) && Effective(a, tenant, now) && !Outlasted(list, a, role, tenant)
    requires c in list && Effective(c, tenant, now) && !Outlasted(list, c, role, tenant)
    ensures var t := LastOfBoth(list, a, c, now);
      && now <= t && Effective(a, tenant, t) && Effective(c, tenant, t)
      && role in DirectRoles(list, tenant, t)
      && role !in DirectRoles(WithoutPost(list, role, tenant), tenant, t)
  {
    var t := LastOfBoth(list, a, c, now);
    WithoutPostMembers(list, role, tenant);
    assert a.role in DirectRoles(list, tenant, t);
    forall b | b in list && !SamePost(b, role, tenant) && b.role == role ensures !Effective(b, tenant, t) {
      if b.active && b.tenant.None? {
        assert Backs(b, role, tenant) && !Outlasts(b, a) && !Outlasts(b, c);
      }
    }
  }

  // What a covered assignment leaves of the assigned roles.
  lemma CoveredRoles(s: State, list: seq<Assignment>, role: P.Role, tenant: Option<string>, now: int,
                     where: Option<string>, t: int)
    requires Covered(s, list, role, tenant, now) && now <= t
    ensures var before, after := DirectRoles(list, where, t), DirectRoles(WithoutPost(list, role, tenant), where, t);
      before == after ||
      (after == {} && before == {role} && where == tenant && DefaultRoles(s, tenant) == {role} && P.Below(role) == {})
  {
    var rest := WithoutPost(list, role, tenant);
    WithoutPostMembers(list, role, tenant);
    var before, after := DirectRoles(list, where, t), DirectRoles(rest, where, t);
    if before != after {
      var a :| a in list && SamePost(a, role, tenant) && Effective(a, where, t) && role !in after;
      assert Effective(a, tenant, now);
      forall b | b in list && Backs(b, role, tenant) ensures !Effective(b, where, t) {
        assert b in rest;
      }
      assert !Outlasted(list, a, role, tenant);
      assert tenant.Some? && where == tenant;
      forall c | c in rest ensures !Effective(c, where, t) {
        assert Effective(c, where, t) ==> Outlasted(list, c, role, tenant);
      }
    }
  }

  lemma CoveredRestores(s: State, user: string, role: P.Role, tenant: Option<string>, expiresAt: Option<int>, now: int,
                        where: Option<string>, inherited: bool, t: int)
    requires MayAssign(s, role, tenant) && Covered(s, AssignmentsOf(s, user), role, tenant, now) && now <= t
    ensures var s' := Revoke(Assign(s, user, role, tenant, expiresAt, now), user, role, tenant);
      UserRoles(s', Some(user), where, inherited, t) == UserRoles(s, Some(user), where, inherited, t)
  {
    CoveredRoles(s, AssignmentsOf(s, user), role, tenant, now, where, t);
    ReplacedRoles(AssignmentsOf(s, user), role, tenant, expiresAt, now, where, t);
    assert WithInherited({}) == {};
    assert P.Below(role) == {} ==> WithInherited({role}) == {role};
  }

  // An instant at which an uncovered assignment leaves the role out, and nothing that
  // looks the same in its place.
  lemma UncoveredRoles(s: State, list: seq<Assignment>, role: P.Role, tenant: Option<string>, now: int) returns (t: int)
    requires !Covered(s, list, role, tenant, now)
    ensures now <= t && role in DirectRoles(list, tenant, t)
    ensures var after := DirectRoles(WithoutPost(list, role, tenant), tenant, t);
      role !in after && (after == {} && DefaultRoles(s, tenant) == {role} ==> P.Below(role) != {})
  {
    WithoutPostMembers(list, role, tenant);
    var a :| a in list && SamePost(a, role, tenant) && Effective(a, tenant, now)
      && !Outlasted(list, a, role, tenant) && !DefaultStepsIn(s, list, role, tenant, now);
    var c := a;
    if DefaultRoles(s, tenant) == {role} && P.Below(role) == {} {
      c :| c in list && !SamePost(c, role, tenant) && Effective(c, tenant, now) && !Outlasted(list, c, role, tenant);
    }
    t := LastOfBoth(list, a, c, now);
    NothingBacksThen(list, a, c, role, tenant, now);
    assert !SamePost(c, role, tenant) ==> c.role in DirectRoles(WithoutPost(list, role, tenant), tenant, t);
  }

  lemma UncoveredLoses(s: State, user: string, role: P.Role, tenant: Option<string>, expiresAt: Option<int>, now: int)
    returns (inherited: bool, t: int)
    requires MayAssign(s, role, tenant) && !Covered(s, AssignmentsOf(s, user), role, tenant, now)
    ensures now <= t
    ensures var s' := Revoke(Assign(s, user, role, tenant, expiresAt, now), user, role, tenant);
      UserRoles(s', Some(user), tenant, inherited, t) != UserRoles(s, Some(user), tenant, inherited, t)
  {
    var list := AssignmentsOf(s, user);
    t := UncoveredRoles(s, list, role, tenant, now);
    ReplacedRoles(list, role, tenant, expiresAt, now, tenant, t);
    var after := DirectRoles(WithoutPost(list, role, tenant), tenant, t);
    inherited := after == {} && DefaultRoles(s, tenant) == {role};
    if inherited {
      assert WithInherited({}) == {};
      var below :| below in P.Below(role);
      assert below in WithInherited(DirectRoles(list, tenant, t)) && below != role;
    }
  }

  // Assigning a role and revoking it again leaves every role query of every user as it was,
  // at every later time, exactly when each unexpired assignment that was replaced is
  // outlasted by one for all tenants, or else the tenant's default role steps in.
  lemma RevokeRestoresQueriesExactly(s: State, user: string, role: P.Role, tenant: Option<string>,
      expiresAt: Option<int>, now: int)
    requires MayAssign(s, role, tenant)
    ensures var s' := Revoke(Assign(s, user, role, tenant, expiresAt, now), user, role, tenant);
      Covered(s, AssignmentsOf(s, user), role, tenant, now) <==>
        forall who: Option<string>, where: Option<string>, inherited: bool, t: int ::
          now <= t ==> UserRoles(s', who, where, inherited, t) == UserRoles(s, who, where, inherited, t)
  {
    var s' := Revoke(Assign(s, user, role, tenant, expiresAt, now), user, role, tenant);
    if Covered(s, AssignmentsOf(s, user), role, tenant, now) {
      forall who: Option<string>, where: Option<string>, inherited: bool, t: int | now <= t
        ensures UserRoles(s', who, where, inherited, t) == UserRoles(s, who, where, inherited, t)
      {
        if who == Some(user) {
          CoveredRestores(s, user, role, tenant, expiresAt, now, where, inherited, t);
        }
      }
    } else {
      var inherited, t := UncoveredLoses(s, user, role, tenant, expiresAt, now);
    }
  }

  // The proviso matters: assigning replaces an active assignment, so revoking then takes
  // away a role the user had.
  lemma RevokeMayLose(user: string, role: P.Role, now: int)
    ensures var s := State(map[user := [Assignment(role, None, now, None, true)]], map[], map[]);
      var s' := Revoke(Assign(s, user, role, None, None, now), user, role, None);
      && MayAssign(s, role, None)
      && role in UserRoles(s, Some(user), None, false, now)
      && UserRoles(s', Some(user), None, false, now) == {}
  {
    var list := [Assignment(role, None, now, None, true)];
    assert list[0] in list;
    assert WithoutPost(list, role, None) == [];
    assert [] + list == list;
    assert Deactivate(list, role, None) == [list[0].(active := false)];
  }

  /******* Cache keys *******/

  // Identifiers whose cache keys cannot be mistaken: no colon in user, tenant and
  // extension, and no name that reads like an absent one.
  predicate Plain(q: Question) {
    && ':' !in Show(q.user) && ':' !in Show(q.tenant) && ':' !in Show(q.extension)
    && q.user != Some("None") && q.tenant != Some("None") && q.extension != Some("None") && q.category != Some("None")
  }

  lemma PermissionNames(p: P.Permission, p': P.Permission)
    ensures ':' !in ShowPermission(p)
    ensures ShowPermission(p) == ShowPermission(p') ==> p == p'
  {
    var n, n' := ShowPermission(p), ShowPermission(p');
    if n == n' {
      assert |n| == |n'| && n[0] == n'[0] && n[1] == n'[1];
    }
  }

  // Without colons in user, tenant and extension a key shows all of its parts.
  lemma KeyParts(q: Question, q': Question)
    requires ':' !in Show(q.user) && ':' !in Show(q.tenant) && ':' !in Show(q.extension)
    requires ':' !in Show(q'.user) && ':' !in Show(q'.tenant) && ':' !in Show(q'.extension)
    requires Key(q) == Key(q')
    ensures Show(q.user) == Show(q'.user) && Show(q.tenant) == Show(q'.tenant) && q.permission == q'.permission
    ensures Show(q.extension) == Show(q'.extension) && Show(q.category) == Show(q'.category)
  {
    var c, c' := Show(q.category), Show(q'.category);
    var e, e' := Show(q.extension) + ":" + c, Show(q'.extension) + ":" + c';
    var p, p' := ShowPermission(q.permission) + ":" + e, ShowPermission(q'.permission) + ":" + e';
    var t, t' := Show(q.tenant) + ":" + p, Show(q'.tenant) + ":" + p';
    PermissionNames(q.permission, q'.permission);
    PermissionNames(q'.permission, q.permission);
    SplitUnique(Show(q.user), t, Show(q'.user), t', ':');
    SplitUnique(Show(q.tenant), p, Show(q'.tenant), p', ':');
    SplitUnique(ShowPermission(q.permission), e, ShowPermission(q'.permission), e', ':');
    SplitUnique(Show(q.extension), c, Show(q'.extension), c', ':');
  }

  // Plain questions do not share a key with each other.
  lemma KeyInjective(q: Question, q': Question)
    requires Plain(q) && Plain(q') && Key(q) == Key(q')
    ensures q == q'
  {
    KeyParts(q, q');
  }

  predicate AllDistinct(q: Question) {
    Distinct(q.user) && Distinct(q.tenant) && Distinct(q.extension) && Distinct(q.category)
  }

  function Colons(q: Question): nat {
    Count(Show(q.user), ':') + Count(Show(q.tenant), ':') + Count(Show(q.extension), ':') + Count(Show(q.category), ':')
  }

  lemma KeyColons(q: Question)
    ensures Count(Key(q), ':') == Colons(q) + 4
  {
    var e := Show(q.extension) + ":" + Show(q.category);
    var p := ShowPermission(q.permission) + ":" + e;
    var t := Show(q.tenant) + ":" + p;
    PermissionNames(q.permission, q.permission);
    CountNone(ShowPermission(q.permission), ':');
    CountJoined(Show(q.extension), Show(q.category));
    CountJoined(ShowPermission(q.permission), e);
    CountJoined(Show(q.tenant), p);
    CountJoined(Show(q.user), t);
  }

  // Another question with the same key, for any question that has one.
  lemma Double(q: Question) returns (q': Question)
    requires !AllDistinct(q)
    ensures q' != q && Key(q') == Key(q)
  {
    q' := q.(user := Twin(q.user), tenant := Twin(q.tenant), extension := Twin(q.extension),
      category := Twin(q.category));
    if q' == q {
      var u, t, e, c := q.user.value, q.tenant.value, q.extension.value, q.category.value;
      if ':' in u {
        var a, b := SplitAt(u, ':');
        q' := q.(user := Some(a), tenant := Some(b + ":" + t));
        assert u + ":" + (t + ":") == a + ":" + ((b + ":" + t) + ":");
      } else if ':' in t {
        var a, b := SplitAt(t, ':');
        q' := q.(user := Some(u + ":" + a), tenant := Some(b));
        assert u + ":" + (t + ":") == (u + ":" + a) + ":" + (b + ":");
      } else if ':' in e {
        var a, b := SplitAt(e, ':');
        q' := q.(extension := Some(a), category := Some(b + ":" + c));
        assert e + ":" + c == a + ":" + (b + ":" + c);
      } else {
        var a, b := SplitAt(c, ':');
        q' := q.(extension := Some(e + ":" + a), category := Some(b));
        assert e + ":" + c == (e + ":" + a) + ":" + b;
      }
      SameKey(q, q');
    }
  }

  // Keys coincide when their halves around the permission do.
  lemma SameKey(q: Question, q': Question)
    requires q.permission == q'.permission
    requires Show(q.user) + ":" + (Show(q.tenant) + ":") == Show(q'.user) + ":" + (Show(q'.tenant) + ":")
    requires Show(q.extension) + ":" + Show(q.category) == Show(q'.extension) + ":" + Show(q'.category)
    ensures Key(q) == Key(q')
  {
    var p := ShowPermission(q.permission);
    var back, back' := Show(q.extension) + ":" + Show(q.category), Show(q'.extension) + ":" + Show(q'.category);
    assert Key(q) == Show(q.user) + ":" + (Show(q.tenant) + ":") + (p + ":" + back);
    assert Key(q') == Show(q'.user) + ":" + (Show(q'.tenant) + ":") + (p + ":" + back');
  }

  // A question has a cache key no other question has exactly when user, tenant, extension
  // and category are all given, none reads None, and none contains a colon.
  lemma KeyUniqueExactly(q: Question)
    ensures AllDistinct(q) <==> forall q' :: Key(q') == Key(q) ==> q' == q
  {
    if AllDistinct(q) {
      forall q' | Key(q') == Key(q) ensures q' == q {
        KeyColons(q);
        KeyColons(q');
        CountNone(Show(q.user), ':');
        CountNone(Show(q.tenant), ':');
        CountNone(Show(q.extension), ':');
        CountNone(Show(q.category), ':');
        CountNone(Show(q'.user), ':');
        CountNone(Show(q'.tenant), ':');
        CountNone(Show(q'.extension), ':');
        KeyParts(q, q');
      }
    } else {
      var q' := Double(q);
    }
  }

  // Outside those identifiers keys do collide: a colon in the extension, or a tenant
  // literally called None, makes two questions share an entry.
  lemma KeysCollide(p: P.Permission)
    ensures Key(Question(Some("u"), None, p, Some("a:b"), Some("c")))
         == Key(Question(Some("u"), None, p, Some("a"), Some("b:c")))
    ensures Key(Question(Some("u"), None, p, None, None)) == Key(Question(Some("u"), Some("None"), p, None, None))
  {
    assert "a:b" + ":" + "c" == "a" + ":" + "b:c";
  }

  // Clearing reaches every entry it must, whatever the identifiers look like.
  lemma ClearUserReaches(cache: map<string, Entry>, q: Question)
    requires q.user.Some?
    ensures Key(q) !in ClearUser(cache, q.user.value)
  {
    var u := q.user.value + ":";
    var rest := Show(q.tenant) + ":" +
      (ShowPermission(q.permission) + ":" + (Show(q.extension) + ":" + Show(q.category)));
    assert Key(q) == u + rest;
  }

  lemma ClearTenantReaches(cache: map<string, Entry>, q: Question)
    requires q.tenant.Some?
    ensures Key(q) !in ClearTenant(cache, q.tenant.value)
  {
    var part := ":" + q.tenant.value + ":";
    var head := Show(q.user);
    var rest := ShowPermission(q.permission) + ":" + (Show(q.extension) + ":" + Show(q.category));
    assert Key(q) == head + part + rest;
    assert OccursAt(Key(q), part, |head|);
  }

  /******* Runs, and what the cache holds *******/

  function TimeOf(e: Event): int {
    match e
    case AssignRole(_, _, _, _, now) => now
    case RevokeRole(_, _, _, now) => now
    case CheckPermission(_, now) => now
    case SetTenantPolicy(_, _, now) => now
    case CleanupExpired(now) => now
  }

  ghost predicate Follows(table: P.RoleTable, ss: seq<State>, es: seq<Event>, k: nat)
    requires P.Acyclic(table) && |ss| == |es| + 1 && k < |es|
  {
    ss[k + 1] == Next(table, ss[k], es[k])
  }

  // ss[k] is the state in which event es[k] happens; time does not run backwards.
  ghost predicate Run(table: P.RoleTable, ss: seq<State>, es: seq<Event>) {
    && P.Acyclic(table)
    && |ss| == |es| + 1
    && ss[0].cache == map[]
    && (forall k :: 0 <= k < |es| ==> Follows(table, ss, es, k))
    && (forall j, k :: 0 <= j < k < |es| ==> TimeOf(es[j]) <= TimeOf(es[k]))
  }

  // An assignment or revocation of the user's roles that took effect, or a new policy of
  // the tenant.
  predicate Changes(s: State, e: Event, q: Question) {
    match e
    case AssignRole(user, role, tenant, _, _) => q.user == Some(user) && MayAssign(s, role, tenant)
    case RevokeRole(user, _, _, _) => q.user == Some(user) && user in s.assignments
    case SetTenantPolicy(tenantId, _, _) => q.tenant == Some(tenantId)
    case _ => false
  }

  // Event m asked q and evaluated it with this outcome, and from then until event n
  // nothing touched the user or the tenant.
  ghost predicate Source(table: P.RoleTable, ss: seq<State>, es: seq<Event>, q: Question, entry: Entry, m: nat, n: nat)
    requires Run(table, ss, es) && n <= |es|
  {
    && m < n
    && es[m] == CheckPermission(q, entry.at)
    && entry.result == Evaluate(table, ss[m], q, entry.at)
    && forall k :: m <= k < n ==> !Changes(ss[k], es[k], q)
  }

  // No other question with this question's key is asked.
  predicate AloneIn(e: Event, q: Question) {
    e.CheckPermission? && Key(e.question) == Key(q) ==> e.question == q
  }

  predicate AloneAt(es: seq<Event>, k: nat, q: Question)
    requires k < |es|
  {
    AloneIn(es[k], q)
  }

  predicate Alone(es: seq<Event>, q: Question) {
    forall k :: 0 <= k < |es| ==> AloneAt(es, k, q)
  }

  // A question is alone whatever is asked exactly when its key is its own.
  lemma AloneExactly(q: Question)
    ensures AllDistinct(q) <==> forall es :: Alone(es, q)
  {
    KeyUniqueExactly(q);
    if !AllDistinct(q) {
      var q' := Double(q);
      assert !AloneAt([CheckPermission(q', 0)], 0, q);
      assert !Alone([CheckPermission(q', 0)], q);
    }
  }

  // Only plain questions are asked.
  predicate PlainEvents(es: seq<Event>) {
    forall k :: 0 <= k < |es| && es[k].CheckPermission? ==> Plain(es[k].question)
  }

  // Plain questions are alone among plain questions.
  lemma PlainAlone(es: seq<Event>, q: Question)
    requires PlainEvents(es) && Plain(q)
    ensures Alone(es, q)
  {
    forall k | 0 <= k < |es| ensures AloneAt(es, k, q) {
      if es[k].CheckPermission? && Key(es[k].question) == Key(q) {
        KeyInjective(es[k].question, q);
      }
    }
  }

  // An entry that is still there after an event was there before, or the event made it.
  lemma EntryOrigin(table: P.RoleTable, s: State, e: Event, q: Question)
    requires P.Acyclic(table) && AloneIn(e, q) && Key(q) in Next(table, s, e).cache
    ensures !Changes(s, e, q)
    ensures var entry := Next(table, s, e).cache[Key(q)];
      || Made(table, s, e, q, entry)
      || (Key(q) in s.cache && s.cache[Key(q)] == entry)
  {
    match e
    case AssignRole(user, _, _, _, _) => if q.user == Some(user) { ClearUserReaches(s.cache, q); }
    case RevokeRole(user, _, _, _) => if q.user == Some(user) { ClearUserReaches(s.cache, q); }
    case SetTenantPolicy(tenantId, _, _) => if q.tenant == Some(tenantId) { ClearTenantReaches(s.cache, q); }
    case _ =>
  }

  // The question was evaluated with this outcome.
  ghost predicate Made(table: P.RoleTable, s: State, e: Event, q: Question, entry: Entry)
    requires P.Acyclic(table)
  {
    e == CheckPermission(q, entry.at) && entry.result == Evaluate(table, s, q, entry.at)
  }

  // A source of an entry remains one while nothing touches the user or the tenant.
  lemma SourceLater(table: P.RoleTable, ss: seq<State>, es: seq<Event>, q: Question, entry: Entry, m: nat, n: nat)
    requires Run(table, ss, es) && n < |es| && !Changes(ss[n], es[n], q)
    requires Source(table, ss, es, q, entry, m, n) || (m == n && Made(table, ss[n], es[n], q, entry))
    ensures Source(table, ss, es, q, entry, m, n + 1)
  {
  }

  predicate Cached(s: State, key: string, entry: Entry) {
    key in s.cache && s.cache[key] == entry
  }

  ghost predicate HasSource(table: P.RoleTable, ss: seq<State>, es: seq<Event>, q: Question, entry: Entry, n: nat)
    requires Run(table, ss, es)
  {
    n <= |es| && exists m: nat :: Source(table, ss, es, q, entry, m, n)
  }

  lemma SourceStep(table: P.RoleTable, ss: seq<State>, es: seq<Event>, q: Question, entry: Entry, n: nat)
    requires Run(table, ss, es) && n < |es| && AloneIn(es[n], q) && Cached(ss[n + 1], Key(q), entry)
    requires Cached(ss[n], Key(q), entry) ==> HasSource(table, ss, es, q, entry, n)
    ensures HasSource(table, ss, es, q, entry, n + 1)
  {
    assert Follows(table, ss, es, n);
    EntryOrigin(table, ss[n], es[n], q);
    if Made(table, ss[n], es[n], q, entry) {
      SourceLater(table, ss, es, q, entry, n, n);
    } else {
      var m: nat :| Source(table, ss, es, q, entry, m, n);
      SourceLater(table, ss, es, q, entry, m, n);
    }
  }

  predicate Carries(c: nat -> bool, p: nat -> bool, k: nat) {
    c(k + 1) && (c(k) ==> p(k)) ==> p(k + 1)
  }

  // What holds when something begins, and goes on holding while that lasts, holds at its end.
  lemma {:induction false} Carried(c: nat -> bool, p: nat -> bool, n: nat)
    requires !c(0) && c(n) && forall k: nat :: k < n ==> Carries(c, p, k)
    ensures p(n)
  {
    assert n > 0 && Carries(c, p, n - 1);
    if c(n - 1) {
      Carried(c, p, n - 1);
    }
  }

  ghost function Presence(ss: seq<State>, key: string, entry: Entry): nat -> bool {
    (k: nat) => k < |ss| && Cached(ss[k], key, entry)
  }

  ghost function Sourced(table: P.RoleTable, ss: seq<State>, es: seq<Event>, q: Question, entry: Entry): nat -> bool
    requires Run(table, ss, es)
  {
    (k: nat) => HasSource(table, ss, es, q, entry, k)
  }

  lemma SourceCarries(table: P.RoleTable, ss: seq<State>, es: seq<Event>, q: Question, entry: Entry, k: nat)
    requires Run(table, ss, es) && k < |es| && AloneAt(es, k, q)
    ensures Carries(Presence(ss, Key(q), entry), Sourced(table, ss, es, q, entry), k)
  {
    if Cached(ss[k + 1], Key(q), entry) && (Cached(ss[k], Key(q), entry) ==> HasSource(table, ss, es, q, entry, k)) {
      SourceStep(table, ss, es, q, entry, k);
    }
  }

  lemma EntrySource(table: P.RoleTable, ss: seq<State>, es: seq<Event>, n: nat, q: Question, entry: Entry)
    requires Run(table, ss, es) && Alone(es, q) && n <= |es| && Cached(ss[n], Key(q), entry)
    ensures HasSource(table, ss, es, q, entry, n)
  {
    var c, p := Presence(ss, Key(q), entry), Sourced(table, ss, es, q, entry);
    forall k: nat | k < n ensures Carries(c, p, k) {
      SourceCarries(table, ss, es, q, entry, k);
    }
    Carried(c, p, n);
  }

  // When no other question with its key is asked, every answer to a question is a direct
  // evaluation of that question made at an event m less than fifteen minutes before, with
  // no assignment or revocation of the user's roles and no change of the tenant's policy
  // since.
  lemma AnswersAreRecentEvaluations(table: P.RoleTable, ss: seq<State>, es: seq<Event>, n: nat, q: Question, now: int)
    requires Run(table, ss, es) && Alone(es, q) && n < |es| && es[n] == CheckPermission(q, now)
    ensures exists m: nat, at: int :: RecentEvaluation(table, ss, es, n, q, now, m, at)
  {
    if Hit(ss[n], q, now) {
      var entry := ss[n].cache[Key(q)];
      EntrySource(table, ss, es, n, q, entry);
      var m: nat :| Source(table, ss, es, q, entry, m, n);
      assert RecentEvaluation(table, ss, es, n, q, now, m, entry.at);
    } else {
      assert RecentEvaluation(table, ss, es, n, q, now, n, now);
    }
  }

  // The only role of anyone is administrator in a tenant called None.
  function AdminOfNone(now: int): State {
    State(map["u" := [Assignment(P.Admin, Some("None"), now, None, true)]], map[], map[])
  }

  function AskedThere(): Question {
    Question(Some("u"), Some("None"), P.Read, None, None)
  }

  function AskedNowhere(): Question {
    Question(Some("u"), None, P.Read, None, None)
  }

  lemma AllowedThereOnly(now: int)
    ensures P.Acyclic(P.BUILT_IN)
    ensures Evaluate(P.BUILT_IN, AdminOfNone(now), AskedThere(), now)
    ensures !Evaluate(P.BUILT_IN, AdminOfNone(now), AskedNowhere(), now)
  {
    PP.BuiltInAcyclic();
    var a := Assignment(P.Admin, Some("None"), now, None, true);
    assert [a][0] in [a] && P.Admin in DirectRoles([a], Some("None"), now);
    PP.BuiltInAnswers(P.Admin, Asked(AskedThere()), now);
    assert DirectRoles([a], None, now) == {} && WithInherited({}) == {};
    assert UserRoles(AdminOfNone(now), Some("u"), None, true, now) == {};
  }

  lemma ThreeSteps(table: P.RoleTable, s0: State, s1: State, s2: State, s3: State, es: seq<Event>)
    requires P.Acyclic(table) && |es| == 3 && s0.cache == map[]
    requires Next(table, s0, es[0]) == s1 && Next(table, s1, es[1]) == s2 && Next(table, s2, es[2]) == s3
    requires TimeOf(es[0]) <= TimeOf(es[1]) <= TimeOf(es[2])
    ensures Run(table, [s0, s1, s2, s3], es)
  {
    var ss := [s0, s1, s2, s3];
    assert Follows(table, ss, es, 0) && Follows(table, ss, es, 1) && Follows(table, ss, es, 2);
  }

  function Told(now: int): State {
    AdminOfNone(now).(cache := map[Key(AskedThere()) := Entry(true, now)])
  }

  lemma AskThere(now: int)
    ensures P.Acyclic(P.BUILT_IN)
    ensures Next(P.BUILT_IN, AdminOfNone(now), CheckPermission(AskedThere(), now)) == Told(now)
  {
    AllowedThereOnly(now);
  }

  lemma AskNowhere(now: int)
    ensures P.Acyclic(P.BUILT_IN)
    ensures Answer(P.BUILT_IN, Told(now), AskedNowhere(), now) && !Evaluate(P.BUILT_IN, Told(now), AskedNowhere(), now)
    ensures Next(P.BUILT_IN, Told(now), CheckPermission(AskedNowhere(), now)) == Told(now)
  {
    AllowedThereOnly(now);
    assert Key(AskedNowhere()) == Key(AskedThere());
  }

  // That user asks there, and then without a tenant: the second answer comes from the entry
  // of the first, and is wrong.
  lemma SharedKeyAnswersWrongly(now: int)
    ensures P.Acyclic(P.BUILT_IN)
    ensures var es := [AssignRole("u", P.Admin, Some("None"), None, now),
                       CheckPermission(AskedThere(), now), CheckPermission(AskedNowhere(), now)];
      var ss := [State(map[], map[], map[]), AdminOfNone(now), Told(now), Told(now)];
      && Run(P.BUILT_IN, ss, es)
      && Answer(P.BUILT_IN, ss[2], AskedNowhere(), now) && !Evaluate(P.BUILT_IN, ss[2], AskedNowhere(), now)
  {
    var es := [AssignRole("u", P.Admin, Some("None"), None, now),
               CheckPermission(AskedThere(), now), CheckPermission(AskedNowhere(), now)];
    AskThere(now);
    AskNowhere(now);
    assert Next(P.BUILT_IN, State(map[], map[], map[]), es[0]) == AdminOfNone(now) by {
      assert [] + [Assignment(P.Admin, Some("None"), now, None, true)] == AdminOfNone(now).assignments["u"];
    }
    ThreeSteps(P.BUILT_IN, State(map[], map[], map[]), AdminOfNone(now), Told(now), Told(now), es);
  }

  ghost predicate RecentEvaluation(table: P.RoleTable, ss: seq<State>, es: seq<Event>, n: nat, q: Question, now: int,
      m: nat, at: int)
    requires Run(table, ss, es) && n < |es|
  {
    && m <= n
    && es[m] == CheckPermission(q, at)
    && now - at < CACHE_TTL
    && Answer(table, ss[n], q, now) == Evaluate(table, ss[m], q, at)
    && forall k :: m <= k < n ==> !Changes(ss[k], es[k], q)
  }

  /******* The only staleness is expiry *******/

  // An event that does not touch the user or the tenant changes no later role query.
  lemma UnchangedRoles(table: P.RoleTable, s: State, e: Event, q: Question, t: int)
    requires P.Acyclic(table) && !Changes(s, e, q) && TimeOf(e) <= t
    ensures UserRoles(Next(table, s, e), q.user, q.tenant, true, t) == UserRoles(s, q.user, q.tenant, true, t)
  {
    match e
    case CleanupExpired(now) => CleanupInvisible(s, now, q.user, q.tenant, true, t);
    case _ =>
  }

  lemma {:induction false} UnchangedOverRun(table: P.RoleTable, ss: seq<State>, es: seq<Event>, m: nat, n: nat,
      q: Question, t: int)
    requires Run(table, ss, es) && m <= n <= |es|
    requires forall k :: m <= k < n ==> !Changes(ss[k], es[k], q) && TimeOf(es[k]) <= t
    ensures UserRoles(ss[n], q.user, q.tenant, true, t) == UserRoles(ss[m], q.user, q.tenant, true, t)
  {
    if m < n {
      UnchangedOverRun(table, ss, es, m, n - 1, q, t);
      assert Follows(table, ss, es, n - 1);
      UnchangedRoles(table, ss[n - 1], es[n - 1], q, t);
    }
  }

  // No assignment of the user lapses after `at` and up to `now`.
  predicate NothingLapses(s: State, q: Question, at: int, now: int) {
    q.user.Some? ==>
      forall a :: a in AssignmentsOf(s, q.user.value) && a.expiresAt.Some? ==> !(at < a.expiresAt.value <= now)
  }

  lemma SameRolesWithoutLapse(s: State, q: Question, at: int, now: int)
    requires at <= now && NothingLapses(s, q, at, now)
    ensures UserRoles(s, q.user, q.tenant, true, now) == UserRoles(s, q.user, q.tenant, true, at)
  {
    if q.user.Some? && q.user.value in s.assignments {
      var list := s.assignments[q.user.value];
      assert forall a :: a in list ==> (Effective(a, q.tenant, now) <==> Effective(a, q.tenant, at));
      assert DirectRoles(list, q.tenant, now) == DirectRoles(list, q.tenant, at);
    }
  }

  // With the built-in roles, the cached answer is what a direct evaluation now would
  // give, unless an assignment of the user lapsed since the cached evaluation.
  lemma AnswersAreCurrentUnlessLapsed(ss: seq<State>, es: seq<Event>, n: nat, q: Question, now: int)
    requires Run(P.BUILT_IN, ss, es) && Alone(es, q) && n < |es| && es[n] == CheckPermission(q, now)
    ensures exists m: nat, at: int ::
      && RecentEvaluation(P.BUILT_IN, ss, es, n, q, now, m, at)
      && (NothingLapses(ss[m], q, at, now) ==> Answer(P.BUILT_IN, ss[n], q, now) == Evaluate(P.BUILT_IN, ss[n], q, now))
  {
    AnswersAreRecentEvaluations(P.BUILT_IN, ss, es, n, q, now);
    var m: nat, at: int :| RecentEvaluation(P.BUILT_IN, ss, es, n, q, now, m, at);
    StillCurrent(ss, es, n, q, now, m, at);
  }

  lemma StillCurrent(ss: seq<State>, es: seq<Event>, n: nat, q: Question, now: int, m: nat, at: int)
    requires Run(P.BUILT_IN, ss, es) && n < |es| && es[n] == CheckPermission(q, now)
    requires RecentEvaluation(P.BUILT_IN, ss, es, n, q, now, m, at)
    ensures NothingLapses(ss[m], q, at, now) ==>
      Answer(P.BUILT_IN, ss[n], q, now) == Evaluate(P.BUILT_IN, ss[n], q, now)
  {
    assert m < n ==> TimeOf(es[m]) <= TimeOf(es[n]);
    if NothingLapses(ss[m], q, at, now) {
      SameRolesWithoutLapse(ss[m], q, at, now);
      UnchangedOverRun(P.BUILT_IN, ss, es, m, n, q, now);
      SameAnswers(ss[m], ss[n], q, at, now);
    }
  }

  lemma SameAnswers(s: State, s': State, q: Question, at: int, now: int)
    requires P.Acyclic(P.BUILT_IN)
    requires UserRoles(s', q.user, q.tenant, true, now) == UserRoles(s, q.user, q.tenant, true, at)
    ensures Evaluate(P.BUILT_IN, s, q, at) == Evaluate(P.BUILT_IN, s', q, now)
  {
    forall r: P.Role ensures P.RoleHas(P.BUILT_IN, r, Asked(q), at) == P.RoleHas(P.BUILT_IN, r, Asked(q), now) {
      PP.BuiltInAnswers(r, Asked(q), at);
      PP.BuiltInAnswers(r, Asked(q), now);
    }
  }
}
