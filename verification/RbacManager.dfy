/** The role manager as the program writes it: assignment lists rebuilt in place, flags
    flipped, cache entries written and deleted one by one. */
module RbacManager {
  import opened Prelude
  import opened Strings
  import opened Rbac
  import P = Permissions

  class Manager {
    var assignments: map<string, seq<Assignment>>
    var policies: map<string, Policy>
    var cache: map<string, Entry>

    ghost function View(): State
      reads this
    {
      State(assignments, policies, cache)
    }

    constructor ()
      ensures View() == State(map[], map[], map[])
    {
      assignments, policies, cache := map[], map[], map[];
    }

    method AssignRole(user: string, role: P.Role, tenant: Option<string>, expiresAt: Option<int>, now: int)
      returns (ok: bool)
      modifies this
      ensures View() == Assign(old(View()), user, role, tenant, expiresAt, now)
      ensures ok == MayAssign(old(View()), role, tenant)
      ensures ok <==> tenant == None || tenant.value == "" || tenant.value !in old(policies)
                      || role in old(policies)[tenant.value].allowed
      ensures !ok ==> unchanged(this)
    {
      if tenant.Some? && tenant.value != "" {
        if tenant.value in policies && role !in policies[tenant.value].allowed {
          return false;
        }
      }
      assert MayAssign(old(View()), role, tenant);
      if user !in assignments {
        assignments := assignments[user := []];
      }
      assert assignments[user] == AssignmentsOf(old(View()), user);
      var kept := WithoutHeld(assignments[user], role, tenant);
      var list := kept + [Assignment(role, tenant, now, expiresAt, true)];
      assignments := assignments[user := list];
      assert assignments == old(assignments)[user := list];
      ClearUserCache(user);
      return true;
    }

    static method WithoutHeld(list: seq<Assignment>, role: P.Role, tenant: Option<string>)
      returns (kept: seq<Assignment>)
      ensures kept == WithoutPost(list, role, tenant)
    {
      kept := [];
      var i := 0;
      while i < |list|
        invariant i <= |list|
        invariant kept + WithoutPost(list[i..], role, tenant) == WithoutPost(list, role, tenant)
      {
        assert list[i..] == [list[i]] + list[i + 1..];
        if !(list[i].role == role && list[i].tenant == tenant && list[i].active) {
          kept := kept + [list[i]];
        }
        i := i + 1;
      }
    }

    method RevokeRole(user: string, role: P.Role, tenant: Option<string>)
      modifies this
      ensures View() == Revoke(old(View()), user, role, tenant)
    {
      if user !in assignments {
        return;
      }
      var list := Deactivated(assignments[user], role, tenant);
      assignments := assignments[user := list];
      ClearUserCache(user);
    }

    static method Deactivated(was: seq<Assignment>, role: P.Role, tenant: Option<string>)
      returns (list: seq<Assignment>)
      ensures list == Deactivate(was, role, tenant)
    {
      list := was;
      var i := 0;
      while i < |list|
        invariant i <= |list| == |was|
        invariant forall k :: 0 <= k < i ==> list[k] == Switched(was[k], role, tenant)
        invariant forall k :: i <= k < |was| ==> list[k] == was[k]
      {
        if SamePost(list[i], role, tenant) {
          list := list[i := list[i].(active := false)];
        }
        i := i + 1;
      }
      DeactivateMeans(was, role, tenant);
    }

    method CheckRolePermission(table: P.RoleTable, q: Question, now: int) returns (answer: bool)
      requires P.Acyclic(table)
      modifies this
      ensures View() == Check(table, old(View()), q, now)
      ensures answer == Answer(table, old(View()), q, now)
    {
      var key := Key(q);
      if key in cache {
        if now - cache[key].at < CACHE_TTL {
          return cache[key].result;
        }
      }
      var roles := GetUserRoles(q.user, q.tenant, true, now);
      ghost var all := roles;
      while roles != {}
        invariant roles <= all
        invariant forall r :: r in all - roles ==> !P.RoleHas(table, r, Asked(q), now)
        invariant View() == old(View())
        decreases roles
      {
        var role :| role in roles;
        if P.RoleHas(table, role, Asked(q), now) {
          assert Evaluate(table, old(View()), q, now);
          cache := cache[key := Entry(true, now)];
          return true;
        }
        roles := roles - {role};
      }
      cache := cache[key := Entry(false, now)];
      return false;
    }

    method GetUserRoles(user: Option<string>, tenant: Option<string>, inherited: bool, now: int)
      returns (roles: set<P.Role>)
      ensures roles == UserRoles(View(), user, tenant, inherited, now)
    {
      roles := {};
      if user.None? || user.value !in assignments {
        if tenant.Some? && tenant.value != "" && tenant.value in policies {
          roles := {policies[tenant.value].defaultRole};
        }
        return;
      }
      var list := assignments[user.value];
      var i := 0;
      while i < |list|
        invariant i <= |list|
        invariant roles == DirectRoles(list[..i], tenant, now)
      {
        assert list[..i + 1] == list[..i] + [list[i]];
        if list[i].active && (list[i].tenant.None? || list[i].tenant == tenant)
           && (list[i].expiresAt.None? || list[i].expiresAt.value > now) {
          roles := roles + {list[i].role};
        }
        i := i + 1;
      }
      assert list[..|list|] == list;
      if inherited {
        roles := WithInherited(roles);
      }
      if roles == {} && tenant.Some? && tenant.value != "" && tenant.value in policies {
        roles := {policies[tenant.value].defaultRole};
      }
    }

    method SetTenantPolicy(tenant: string, policy: Policy)
      modifies this
      ensures View() == SetPolicy(old(View()), tenant, policy)
    {
      policies := policies[tenant := policy];
      var doomed := set k | k in cache && Contains(k, ":" + tenant + ":");
      DeleteEntries(doomed);
      assert cache == ClearTenant(old(cache), tenant);
    }

    method ClearUserCache(user: string)
      modifies this`cache
      ensures cache == ClearUser(old(cache), user)
    {
      var doomed := set k | k in cache && HasPrefix(k, user + ":");
      DeleteEntries(doomed);
    }

    method DeleteEntries(doomed: set<string>)
      requires doomed <= cache.Keys
      modifies this`cache
      ensures cache == old(cache) - doomed
    {
      var left := doomed;
      while left != {}
        invariant left <= doomed
        invariant cache == old(cache) - (doomed - left)
        decreases left
      {
        var k :| k in left;
        cache := cache - {k};
        left := left - {k};
      }
      assert doomed - {} == doomed;
    }

    method CleanupExpiredAssignments(now: int) returns (lapsed: nat)
      modifies this
      ensures View() == Cleanup(old(View()), now)
      ensures lapsed == Sum(LapsedOf(old(assignments), old(assignments).Keys, now))
    {
      ghost var was := assignments;
      var left := assignments.Keys;
      CleanNone(was, now);
      lapsed := 0;
      while left != {}
        invariant left <= was.Keys
        invariant policies == old(policies) && cache == old(cache)
        invariant assignments == Cleaned(was, left, now)
        invariant lapsed + Sum(LapsedOf(was, left, now)) == Sum(LapsedOf(was, was.Keys, now))
        decreases left
      {
        var u :| u in left;
        assert assignments[u] == was[u];
        var kept, n := Swept(assignments[u], now);
        CleanOneMore(was, left, u, now);
        LapseOneMore(was, left, u, now);
        assignments := assignments[u := kept];
        if kept == [] {
          assignments := assignments - {u};
        }
        left, lapsed := left - {u}, lapsed + n;
      }
      var stale := set k | k in cache && now - cache[k].at >= CACHE_TTL;
      DeleteEntries(stale);
      assert assignments == Cleanup(old(View()), now).assignments;
      assert cache == Cleanup(old(View()), now).cache;
      assert LapsedOf(was, {}, now) == map[];
    }

    static method Swept(list: seq<Assignment>, now: int) returns (kept: seq<Assignment>, lapsed: nat)
      ensures kept == Sweep(list, now)
      ensures lapsed == Lapsed(list, now)
    {
      kept, lapsed := [], 0;
      var i := 0;
      while i < |list|
        invariant i <= |list|
        invariant kept + Sweep(list[i..], now) == Sweep(list, now)
        invariant lapsed + Lapsed(list[i..], now) == Lapsed(list, now)
      {
        assert list[i..] == [list[i]] + list[i + 1..];
        var a := list[i];
        if a.expiresAt.Some? && a.expiresAt.value <= now && a.active {
          a := a.(active := false);
          lapsed := lapsed + 1;
        }
        if a.active || a.assignedAt > now - KEEP_INACTIVE {
          kept := kept + [a];
        }
        i := i + 1;
      }
    }
  }

  // How many assignments are still active although they have expired.
  function Lapsed(list: seq<Assignment>, now: int): nat {
    if list == [] then 0
    else (if list[0].active && Expire(list[0], now) != list[0] then 1 else 0) + Lapsed(list[1..], now)
  }

  // What is counted: active assignments whose expiry has come.
  function ToSwitchOff(list: seq<Assignment>, now: int): set<nat> {
    set k: nat | k < |list| && list[k].active && list[k].expiresAt.Some? && list[k].expiresAt.value <= now
  }

  lemma {:induction false} LapsedMeans(list: seq<Assignment>, now: int)
    ensures Lapsed(list, now) == |ToSwitchOff(list, now)|
  {
    if list != [] {
      var here, rest := ToSwitchOff(list, now), ToSwitchOff(list[1..], now);
      LapsedMeans(list[1..], now);
      ShiftedSize(rest);
      forall k | k in here && k > 0 ensures k in Shifted(rest) {
        assert k - 1 in rest;
      }
      assert here == Shifted(rest) + (if 0 in here then {0} else {});
    }
  }

  function Shifted(ks: set<nat>): set<nat> {
    set k | k in ks :: k + 1
  }

  lemma {:induction false} ShiftedSize(ks: set<nat>)
    ensures |Shifted(ks)| == |ks|
  {
    if ks != {} {
      var k :| k in ks;
      var rest := ks - {k};
      ShiftedSize(rest);
      ShiftedMore(rest, k);
      assert ks == rest + {k};
    }
  }

  lemma ShiftedMore(ks: set<nat>, k: nat)
    ensures Shifted(ks + {k}) == Shifted(ks) + {k + 1}
  {
    forall i | i in ks + {k} ensures i + 1 in Shifted(ks) + {k + 1} {
      assert i == k || i in ks;
    }
  }

  function LapsedOf(m: map<string, seq<Assignment>>, users: set<string>, now: int): map<string, nat>
    requires users <= m.Keys
  {
    map u | u in users :: Lapsed(m[u], now)
  }

  lemma LapseOneMore(m: map<string, seq<Assignment>>, left: set<string>, u: string, now: int)
    requires left <= m.Keys && u in left
    ensures Sum(LapsedOf(m, left, now)) == Lapsed(m[u], now) + Sum(LapsedOf(m, left - {u}, now))
  {
    SumOf(LapsedOf(m, left, now), u);
    assert LapsedOf(m, left, now) - {u} == LapsedOf(m, left - {u}, now);
  }

  // The table with the lists of all users but those left cleaned up.
  function Cleaned(was: map<string, seq<Assignment>>, left: set<string>, now: int): map<string, seq<Assignment>> {
    map u | u in was && (u in left || Sweep(was[u], now) != []) :: if u in left then was[u] else Sweep(was[u], now)
  }

  lemma CleanNone(was: map<string, seq<Assignment>>, now: int)
    ensures Cleaned(was, was.Keys, now) == was
  {
  }

  lemma CleanOneMore(was: map<string, seq<Assignment>>, left: set<string>, u: string, now: int)
    requires u in was && u in left
    ensures var kept := Sweep(was[u], now);
      Cleaned(was, left - {u}, now) ==
        if kept == [] then Cleaned(was, left, now)[u := kept] - {u} else Cleaned(was, left, now)[u := kept]
  {
  }

  function Switched(a: Assignment, role: P.Role, tenant: Option<string>): Assignment {
    if SamePost(a, role, tenant) then a.(active := false) else a
  }

  lemma {:induction false} DeactivateMeans(list: seq<Assignment>, role: P.Role, tenant: Option<string>)
    ensures |Deactivate(list, role, tenant)| == |list|
    ensures forall k :: 0 <= k < |list| ==> Deactivate(list, role, tenant)[k] == Switched(list[k], role, tenant)
  {
    if list != [] {
      DeactivateMeans(list[1..], role, tenant);
      assert forall k :: 1 <= k < |list| ==> list[k] == list[1..][k - 1];
    }
  }
}
