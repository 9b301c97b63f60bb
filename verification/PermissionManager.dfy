/** The permission manager's rule tables as the program updates them. */
module PermissionManager {
  import opened Prelude
  import opened Permissions
  import opened PermissionProofs
  import opened PermissionMeaning

  class Manager {
    var users: map<string, seq<Rule>>
    var tenants: map<string, seq<Rule>>

    ghost function View(): Store
      reads this
    {
      Store(users, tenants)
    }

    constructor ()
      ensures View() == Store(map[], map[])
    {
      users, tenants := map[], map[];
    }

    method GrantPermission(user: string, rule: Rule)
      modifies this
      ensures View() == Next(old(View()), GrantUser(user, rule))
    {
      if user !in users {
        users := users[user := []];
      }
      var kept := Filtered(users[user], rule);
      users := users[user := kept + [rule]];
    }

    method GrantTenantPermission(tenant: string, rule: Rule)
      modifies this
      ensures View() == Next(old(View()), GrantTenant(tenant, rule))
    {
      if tenant !in tenants {
        tenants := tenants[tenant := []];
      }
      var kept := Filtered(tenants[tenant], rule);
      tenants := tenants[tenant := kept + [rule]];
    }

    static method Filtered(rules: seq<Rule>, rule: Rule) returns (kept: seq<Rule>)
      ensures kept == WithoutSlot(rules, rule)
    {
      kept := [];
      var i := 0;
      while i < |rules|
        invariant i <= |rules|
        invariant kept + WithoutSlot(rules[i..], rule) == WithoutSlot(rules, rule)
      {
        assert rules[i..] == [rules[i]] + rules[i + 1..];
        if !SameSlot(rules[i], rule) {
          kept := kept + [rules[i]];
        }
        i := i + 1;
      }
    }

    method RevokePermission(user: string, rule: Rule, tenant: Option<string>)
      modifies this
      ensures View() == Next(old(View()), RevokeUser(user, rule, tenant))
    {
      if user !in users {
        return;
      }
      var rules := users[user];
      var kept: seq<Rule> := [];
      var i := 0;
      while i < |rules|
        invariant i <= |rules| && View() == old(View())
        invariant kept + Revoke(rules[i..], rule, tenant) == Revoke(rules, rule, tenant)
      {
        assert rules[i..] == [rules[i]] + rules[i + 1..];
        if !(SameSlot(rules[i], rule) && (tenant.None? || rules[i].tenant == tenant)) {
          kept := kept + [rules[i]];
        }
        i := i + 1;
      }
      assert kept + [] == kept;
      users := users[user := kept];
    }

    // The first matching rule of the user decides.
    method CheckUserPermissions(user: string, q: Query, tenant: Option<string>, now: int) returns (allowed: bool)
      ensures allowed == UserAllows(RulesOf(users, user), q, tenant, now)
      ensures allowed <==>
        (user in users &&
         exists i :: 0 <= i < |users[user]| && Speaks(users[user][i], q, tenant) && Good(users[user][i], now)
                  && forall j :: 0 <= j < i ==> !Speaks(users[user][j], q, tenant))
    {
      UserCheckExactly(RulesOf(users, user), q, tenant, now);
      if user !in users {
        return false;
      }
      var rules := users[user];
      var i := 0;
      while i < |rules|
        invariant i <= |rules|
        invariant UserAllows(rules[i..], q, tenant, now) == UserAllows(rules, q, tenant, now)
      {
        assert rules[i..][1..] == rules[i + 1..];
        if UserMatches(rules[i], q, tenant) {
          return Allows(rules[i], now);
        }
        i := i + 1;
      }
      return false;
    }

    static method Swept(m: map<string, seq<Rule>>, now: int) returns (m': map<string, seq<Rule>>, removed: nat)
      ensures m' == CleanAll(m, now)
      ensures removed == Sum(Dropped(m, m.Keys, now))
    {
      m', removed := m, 0;
      var left := m.Keys;
      while left != {}
        invariant left <= m.Keys && m'.Keys <= m.Keys
        invariant forall id :: id in left ==> id in m' && m'[id] == m[id]
        invariant forall id :: id in m.Keys - left ==> (id in m' <==> Clean(m[id], now) != [])
        invariant forall id :: id in m'.Keys - left ==> m'[id] == Clean(m[id], now)
        invariant removed + Sum(Dropped(m, left, now)) == Sum(Dropped(m, m.Keys, now))
        decreases left
      {
        var id :| id in left;
        var kept := Unexpired(m[id], now);
        m' := m'[id := kept];
        DropOneMore(m, left, id, now);
        removed := removed + (|m[id]| - |kept|);
        if kept == [] {
          m' := m' - {id};
        }
        left := left - {id};
      }
      NothingToDrop(m, now);
    }

    static method Unexpired(rules: seq<Rule>, now: int) returns (kept: seq<Rule>)
      ensures kept == Clean(rules, now)
    {
      kept := [];
      var i := 0;
      while i < |rules|
        invariant i <= |rules|
        invariant kept + Clean(rules[i..], now) == Clean(rules, now)
      {
        assert rules[i..] == [rules[i]] + rules[i + 1..];
        if rules[i].expiresAt.None? || rules[i].expiresAt.value > now {
          kept := kept + [rules[i]];
        }
        i := i + 1;
      }
    }

    method CleanupExpiredPermissions(now: int) returns (removed: nat)
      modifies this
      ensures View() == Next(old(View()), CleanUp(now))
      ensures removed == Sum(Dropped(old(users), old(users).Keys, now))
        + Sum(Dropped(old(tenants), old(tenants).Keys, now))
    {
      var n, m: nat;
      users, n := Swept(users, now);
      tenants, m := Swept(tenants, now);
      removed := n + m;
    }
  }

  // How many rules each of the owners loses.
  function Dropped(m: map<string, seq<Rule>>, ids: set<string>, now: int): map<string, nat>
    requires ids <= m.Keys
  {
    map id | id in ids :: Lost(m[id], now)
  }

  function Lost(rules: seq<Rule>, now: int): nat {
    if rules == [] then 0 else (if Keeps(rules[0], now) then 0 else 1) + Lost(rules[1..], now)
  }

  lemma {:induction false} LostMeans(rules: seq<Rule>, now: int)
    ensures Lost(rules, now) == |rules| - |Clean(rules, now)|
  {
    if rules != [] {
      LostMeans(rules[1..], now);
    }
  }

  lemma DropOneMore(m: map<string, seq<Rule>>, left: set<string>, id: string, now: int)
    requires left <= m.Keys && id in left
    ensures Sum(Dropped(m, left, now)) == |m[id]| - |Clean(m[id], now)| + Sum(Dropped(m, left - {id}, now))
    ensures |Clean(m[id], now)| <= |m[id]|
  {
    LostMeans(m[id], now);
    SumOf(Dropped(m, left, now), id);
    assert Dropped(m, left, now) - {id} == Dropped(m, left - {id}, now);
  }

  lemma NothingToDrop(m: map<string, seq<Rule>>, now: int)
    ensures Sum(Dropped(m, {}, now)) == 0
  {
  }
}
