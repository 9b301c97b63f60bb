/** The tenant access manager's two tables as the program updates them. */
module TenantAccessManager {
  import opened Prelude
  import opened TenantAccess

  class Manager {
    var access: map<string, map<string, Access>>
    var policies: map<string, Policy>

    ghost function View(): State
      reads this
    {
      State(access, policies)
    }

    constructor ()
      ensures View() == Initial()
    {
      access, policies := map[], map[ANY := Policy(Public, Standard, None, None, map[], None)];
    }

    method SetExtensionPolicy(ext: string, visibility: Visibility, level: Level, allowed: Option<set<string>>,
        blocked: Option<set<string>>, maxTenants: Option<int>)
      modifies this`policies
      ensures forall specific ::
        View() == SetPolicy(old(View()), ext, Policy(visibility, level, allowed, blocked, specific, maxTenants))
      ensures policies == old(policies)[ext := Policy(visibility, level, allowed, blocked, map[], maxTenants)]
    {
      policies := policies[ext := Policy(visibility, level, allowed, blocked, map[], maxTenants)];
    }

    method GetExtensionTenants(ext: string, level: Option<Level>, now: int) returns (tenants: set<string>)
      ensures tenants == Tenants(View(), ext, level, now)
    {
      tenants := {};
      var left := access.Keys;
      while left != {}
        invariant left <= access.Keys
        invariant tenants == Tenants(View(), ext, level, now) - left
        decreases left
      {
        var t :| t in left;
        if ext in access[t] {
          var a := access[t][ext];
          if a.enabled && (a.expiresAt.None? || now <= a.expiresAt.value) && (level.None? || a.level == level.value) {
            tenants := tenants + {t};
          }
        }
        left := left - {t};
      }
    }

    method ValidateTenantAccessGrant(tenant: string, ext: string, now: int) returns (ok: bool)
      ensures ok == MayGrant(View(), tenant, ext, now)
    {
      if ext !in policies && ANY !in policies {
        return false;
      }
      var policy := policies[if ext in policies then ext else ANY];
      if policy.blocked.Some? && policy.blocked.value != {} && tenant in policy.blocked.value {
        return false;
      }
      if policy.visibility == Private && policy.allowed.Some? && policy.allowed.value != {}
        && tenant !in policy.allowed.value {
        return false;
      }
      if policy.maxTenants.Some? && policy.maxTenants.value != 0 {
        var current := GetExtensionTenants(ext, None, now);
        if |current| >= policy.maxTenants.value {
          return false;
        }
      }
      return true;
    }

    method GrantTenantAccess(tenant: string, ext: string, level: Level, expiresAt: Option<int>, now: int)
      returns (ok: bool)
      modifies this
      ensures View() == Grant(old(View()), tenant, ext, level, expiresAt, now)
      ensures ok == MayGrant(old(View()), tenant, ext, now)
    {
      ok := ValidateTenantAccessGrant(tenant, ext, now);
      if !ok {
        return;
      }
      var a := Access(level, true, expiresAt);
      if tenant !in access {
        access := access[tenant := map[]];
      }
      access := access[tenant := access[tenant][ext := a]];
      assert access == old(access)[tenant := Inner(old(View()), tenant)[ext := a]];
      if ext in policies {
        policies := policies[ext := policies[ext].(specific := policies[ext].specific[tenant := a])];
      }
    }

    method RevokeTenantAccess(tenant: string, ext: string)
      modifies this
      ensures View() == Revoke(old(View()), tenant, ext)
    {
      if tenant in access && ext in access[tenant] {
        access := access[tenant := access[tenant] - {ext}];
        if access[tenant] == map[] {
          access := access - {tenant};
        }
      }
      assert access == Drop(old(access), tenant, ext);
      if ext in policies && tenant in policies[ext].specific {
        policies := policies[ext := policies[ext].(specific := policies[ext].specific - {tenant})];
      }
    }

    method CleanupExpiredAccess(now: int) returns (removed: nat)
      modifies this
      ensures View() == Cleanup(old(View()), now)
      ensures removed == Sum(Dropped(old(access), old(access).Keys, now)) +
        Sum(Dropped(Specific(old(policies)), old(policies).Keys, now))
    {
      ghost var was := View();
      var n := CleanupTenants(now);
      var m := CleanupPolicies(now);
      removed := n + m;
      CleanedAll(was, now);
    }

    method CleanupTenants(now: int) returns (removed: nat)
      modifies this`access
      ensures access == Cleaned(old(access), {}, now)
      ensures removed == Sum(Dropped(old(access), old(access).Keys, now))
    {
      ghost var was := access;
      var left := access.Keys;
      CleanNone(was, now);
      removed := 0;
      while left != {}
        invariant left <= was.Keys
        invariant access == Cleaned(was, left, now)
        invariant removed + Sum(Dropped(was, left, now)) == Sum(Dropped(was, was.Keys, now))
        decreases left
      {
        var t :| t in left;
        assert access[t] == was[t];
        var kept, n := WithoutExpired(access[t], now);
        CleanOneMore(was, left, t, now);
        DropOneMore(was, left, t, now);
        access := access[t := kept];
        if kept == map[] {
          access := access - {t};
        }
        left, removed := left - {t}, removed + n;
      }
      assert Dropped(was, {}, now) == map[];
    }

    method CleanupPolicies(now: int) returns (removed: nat)
      modifies this`policies
      ensures policies == Trimmed(old(policies), {}, now)
      ensures removed == Sum(Dropped(Specific(old(policies)), old(policies).Keys, now))
    {
      ghost var was := policies;
      var left := policies.Keys;
      TrimNone(was, now);
      removed := 0;
      while left != {}
        invariant left <= was.Keys
        invariant policies == Trimmed(was, left, now)
        invariant removed + Sum(Dropped(Specific(was), left, now)) == Sum(Dropped(Specific(was), was.Keys, now))
        decreases left
      {
        var e :| e in left;
        var kept, n := WithoutExpired(policies[e].specific, now);
        DropOneMore(Specific(was), left, e, now);
        TrimOneMore(was, left, e, now);
        policies := policies[e := policies[e].(specific := kept)];
        left, removed := left - {e}, removed + n;
      }
      assert Dropped(Specific(was), {}, now) == map[];
    }

    static method WithoutExpired(m: map<string, Access>, now: int) returns (kept: map<string, Access>, removed: nat)
      ensures kept == Unexpired(m, now)
      ensures removed == Lost(m, now)
    {
      kept, removed := m, 0;
      var left := m.Keys;
      while left != {}
        invariant left <= kept.Keys <= m.Keys
        invariant forall k :: k in kept ==> kept[k] == m[k]
        invariant forall k :: k in m.Keys - left ==> (k in kept <==> !Expired(m[k], now))
        invariant removed + |kept| == |m|
        decreases left
      {
        var k :| k in left;
        if m[k].expiresAt.Some? && m[k].expiresAt.value <= now {
          RemoveKey(kept, k);
          kept := kept - {k};
          removed := removed + 1;
        }
        left := left - {k};
      }
      LostMeans(m, now);
    }
  }

  // The policies, their tables cleaned up but for those left.
  function Trimmed(was: map<string, Policy>, left: set<string>, now: int): map<string, Policy> {
    map e | e in was :: if e in left then was[e] else was[e].(specific := Unexpired(was[e].specific, now))
  }

  lemma TrimNone(was: map<string, Policy>, now: int)
    ensures Trimmed(was, was.Keys, now) == was
  {
  }

  lemma TrimOneMore(was: map<string, Policy>, left: set<string>, e: string, now: int)
    requires e in was && e in left
    ensures Trimmed(was, left - {e}, now) ==
      Trimmed(was, left, now)[e := was[e].(specific := Unexpired(was[e].specific, now))]
  {
  }

  function Specific(policies: map<string, Policy>): map<string, map<string, Access>> {
    map e | e in policies :: policies[e].specific
  }

  // How many grants of a table have expired.
  function Lost(m: map<string, Access>, now: int): nat {
    |set k | k in m && Expired(m[k], now)|
  }

  lemma LostMeans(m: map<string, Access>, now: int)
    ensures Lost(m, now) + |Unexpired(m, now)| == |m|
  {
    var expired := set k | k in m && Expired(m[k], now);
    assert expired + Unexpired(m, now).Keys == m.Keys;
  }

  function Dropped(m: map<string, map<string, Access>>, ids: set<string>, now: int): map<string, nat>
    requires ids <= m.Keys
  {
    map id | id in ids :: Lost(m[id], now)
  }

  lemma DropOneMore(m: map<string, map<string, Access>>, left: set<string>, id: string, now: int)
    requires left <= m.Keys && id in left
    ensures Sum(Dropped(m, left, now)) == Lost(m[id], now) + Sum(Dropped(m, left - {id}, now))
  {
    SumOf(Dropped(m, left, now), id);
    assert Dropped(m, left, now) - {id} == Dropped(m, left - {id}, now);
  }

  // The first table with the entries of all tenants but those left cleaned up.
  function Cleaned(was: map<string, map<string, Access>>, left: set<string>, now: int)
    : map<string, map<string, Access>>
  {
    map t | t in was && (t in left || Unexpired(was[t], now) != map[]) ::
      if t in left then was[t] else Unexpired(was[t], now)
  }

  lemma CleanedAll(s: State, now: int)
    ensures State(Cleaned(s.access, {}, now), Trimmed(s.policies, {}, now)) == Cleanup(s, now)
  {
    assert Cleaned(s.access, {}, now) == Cleanup(s, now).access;
    assert Trimmed(s.policies, {}, now) == Cleanup(s, now).policies;
  }

  lemma CleanNone(was: map<string, map<string, Access>>, now: int)
    ensures Cleaned(was, was.Keys, now) == was
  {
  }

  lemma CleanOneMore(was: map<string, map<string, Access>>, left: set<string>, t: string, now: int)
    requires t in was && t in left
    ensures var kept := Unexpired(was[t], now);
      Cleaned(was, left - {t}, now) ==
        if kept == map[] then Cleaned(was, left, now)[t := kept] - {t} else Cleaned(was, left, now)[t := kept]
  {
  }
}
