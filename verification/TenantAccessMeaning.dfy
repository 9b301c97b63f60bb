/** What grants and policies mean, in terms of the calls made and the fields stored: the
    policy that counts is the one set last, and it decides who may be granted what. */
module TenantAccessMeaning {
  import opened Prelude
  import opened TenantAccess
  import opened TenantAccessRuns

  /******* The policy set last *******/

  // What a call of `set_extension_policy` says, apart from the extension.
  datatype Terms = Terms(
    visibility: Visibility,
    defaultLevel: Level,
    allowed: Option<set<string>>,
    blocked: Option<set<string>>,
    maxTenants: Option<int>)

  function TermsOf(p: Policy): Terms {
    Terms(p.visibility, p.defaultLevel, p.allowed, p.blocked, p.maxTenants)
  }

  // The last call for exactly this name.
  function LastSet(es: seq<Event>, name: string): Option<Terms> {
    if es == [] then None
    else
      var last := es[|es| - 1];
      if last.SetExtensionPolicy? && last.ext == name then Some(TermsOf(last.policy))
      else LastSet(es[..|es| - 1], name)
  }

  // The terms that count for an extension: its own, or those for every extension, which are
  // open to all until they are set.
  function Ruling(es: seq<Event>, ext: string): Terms {
    LastSet(es, ext).GetOr(LastSet(es, "*").GetOr(Terms(Public, Standard, None, None, None)))
  }

  lemma {:induction false} AfterLast(s: State, es: seq<Event>, e: Event)
    ensures After(s, es + [e]) == Next(After(s, es), e)
    decreases |es|
  {
    if es == [] {
      assert es + [e] == [e] && [e][1..] == [];
      assert After(s, [e]) == After(Next(s, e), []);
    } else {
      assert (es + [e])[1..] == es[1..] + [e];
      AfterLast(Next(s, es[0]), es[1..], e);
    }
  }

  ghost predicate StoredAs(s: State, es: seq<Event>, name: string) {
    match LastSet(es, name)
    case Some(terms) => name in s.policies && TermsOf(s.policies[name]) == terms
    case None =>
      if name == "*" then name in s.policies && TermsOf(s.policies[name]) == Terms(Public, Standard, None, None, None)
      else name !in s.policies
  }

  // After any calls each name has the policy that was set for it last, and none otherwise.
  lemma {:induction false} StoredIsLastSet(es: seq<Event>, name: string)
    ensures StoredAs(After(Initial(), es), es, name)
    decreases |es|
  {
    if es != [] {
      var fewer, e := es[..|es| - 1], es[|es| - 1];
      assert es == fewer + [e];
      AfterLast(Initial(), fewer, e);
      StoredIsLastSet(fewer, name);
    }
  }

  lemma RulingInForce(es: seq<Event>, ext: string)
    ensures InForce(After(Initial(), es), ext).Some?
    ensures TermsOf(InForce(After(Initial(), es), ext).value) == Ruling(es, ext)
  {
    StoredIsLastSet(es, ext);
    StoredIsLastSet(es, "*");
  }

  // Setting a policy gives the extension these terms and an empty table of grants, leaves
  // every other policy as it is, and takes no grant away.
  lemma SettingMeans(s: State, ext: string, policy: Policy, now: int)
    ensures var s' := Next(s, SetExtensionPolicy(ext, policy, now));
      && s'.access == s.access && s'.policies.Keys == s.policies.Keys + {ext}
      && TermsOf(s'.policies[ext]) == TermsOf(policy) && s'.policies[ext].specific == map[]
      && forall other :: other in s.policies && other != ext ==> s'.policies[other] == s.policies[other]
  {
  }

  /******* Who is granted *******/

  // Tenants with an enabled grant of the extension that has not expired.
  function Holders(s: State, ext: string, now: int): set<string> {
    set t | t in s.access && ext in s.access[t] && s.access[t][ext].enabled &&
            (s.access[t][ext].expiresAt.None? || now <= s.access[t][ext].expiresAt.value)
  }

  lemma HoldersAreLive(s: State, ext: string, now: int)
    ensures Holders(s, ext, now) == Live(s, ext, now)
  {
  }

  // Of one access level only.
  lemma TenantsOfLevel(s: State, ext: string, level: Level, now: int)
    ensures forall t :: t in Tenants(s, ext, Some(level), now) <==>
      t in Holders(s, ext, now) && s.access[t][ext].level == level
  {
  }

  predicate Shut(terms: Terms, tenant: string) {
    || (terms.blocked.Some? && tenant in terms.blocked.value)
    || (terms.visibility == Private && terms.allowed.Some? && terms.allowed.value != {}
      && tenant !in terms.allowed.value)
  }

  predicate FullUnder(terms: Terms, holders: int) {
    terms.maxTenants.Some? && terms.maxTenants.value != 0 && holders >= terms.maxTenants.value
  }

  // After any calls, a grant is made exactly when the terms set last neither shut the tenant
  // out nor find the extension full; then the tenant has just this grant, with the level and
  // expiry asked for, and nobody else's changes; otherwise nothing does.
  lemma GrantExactly(es: seq<Event>, tenant: string, ext: string, level: Level, expiresAt: Option<int>, now: int)
    ensures var s := After(Initial(), es);
      var s' := Next(s, GrantAccess(tenant, ext, level, expiresAt, now));
      if Shut(Ruling(es, ext), tenant) || FullUnder(Ruling(es, ext), |Holders(s, ext, now)|) then s' == s
      else
        && GrantOf(s', tenant, ext) == Some(Access(level, true, expiresAt))
        && forall t, x :: t != tenant || x != ext ==> GrantOf(s', t, x) == GrantOf(s, t, x)
  {
    RulingInForce(es, ext);
    HoldersAreLive(After(Initial(), es), ext, now);
  }

  // A revocation takes just that grant away.
  lemma RevokeExactly(s: State, tenant: string, ext: string, now: int)
    ensures var s' := Next(s, RevokeAccess(tenant, ext, now));
      && GrantOf(s', tenant, ext) == None
      && forall t, x :: t != tenant || x != ext ==> GrantOf(s', t, x) == GrantOf(s, t, x)
  {
    var s' := Next(s, RevokeAccess(tenant, ext, now));
    forall t, x | t != tenant || x != ext ensures GrantOf(s', t, x) == GrantOf(s, t, x) {
      if t == tenant && Holds(s, t, x) {
        assert x in s.access[t] - {ext};
      }
    }
  }

  // A cleanup takes away the grants that have expired or expire now.
  lemma CleanupExactly(s: State, now: int, tenant: string, ext: string)
    ensures GrantOf(Next(s, CleanupExpired(now)), tenant, ext) ==
      match GrantOf(s, tenant, ext)
      case None => None
      case Some(a) => if a.expiresAt.Some? && a.expiresAt.value <= now then None else Some(a)
  {
    if Holds(s, tenant, ext) && !Expired(s.access[tenant][ext], now) {
      assert ext in Unexpired(s.access[tenant], now);
    }
  }

  /******* Capacity and shut tenants, by the calls made *******/

  // No later call sets the policy of the extension.
  predicate NotSetAgain(es: seq<Event>, ext: string) {
    forall e :: e in es ==> !(e.SetExtensionPolicy? && e.ext == ext)
  }

  lemma {:induction false} StaysInForce(s: State, es: seq<Event>, ext: string)
    requires ext in s.policies && NotSetAgain(es, ext)
    ensures KeepsPolicy(s, es, ext)
    decreases |es|
  {
    if es != [] {
      assert es[0] in es;
      StaysInForce(Next(s, es[0]), es[1..], ext);
    }
  }

  // Setting a policy with a positive maximum: from then on, until the next call for that
  // extension, its holders never outnumber the larger of that maximum and the holders there
  // were; whatever is granted, revoked, cleaned up, expires or is set for other extensions.
  lemma CapacityBySetting(before: seq<Event>, ext: string, policy: Policy, now: int, es: seq<Event>, to: int)
    requires policy.maxTenants.Some? && policy.maxTenants.value > 0
    requires NotSetAgain(es, ext) && InOrder(es, now, to)
    ensures var s := After(Initial(), before);
      var holders := Holders(After(Next(s, SetExtensionPolicy(ext, policy, now)), es), ext, to);
      |holders| <= policy.maxTenants.value || |holders| <= |Holders(s, ext, now)|
  {
    var s := After(Initial(), before);
    var s' := Next(s, SetExtensionPolicy(ext, policy, now));
    TablesAgree(Initial(), before);
    TidyStep(s, SetExtensionPolicy(ext, policy, now));
    SettingMeans(s, ext, policy, now);
    StaysInForce(s', es, ext);
    HoldersAreLive(s, ext, now);
    HoldersAreLive(s', ext, now);
    HoldersAreLive(After(s', es), ext, to);
    assert Holders(s', ext, now) == Holders(s, ext, now);
    var m, n := policy.maxTenants.value, |Holders(s, ext, now)|;
    NeverPastMaximum(s', es, ext, if m <= n then n else m, now, to);
  }

  // The policy of the extension, and the grant of the tenant none or what it was.
  ghost predicate StillShut(s: State, tenant: string, ext: string, grant: Option<Access>) {
    && ext in s.policies && Shut(TermsOf(s.policies[ext]), tenant)
    && (GrantOf(s, tenant, ext) == None || GrantOf(s, tenant, ext) == grant)
  }

  lemma ShutStep(s: State, e: Event, tenant: string, ext: string, grant: Option<Access>)
    requires StillShut(s, tenant, ext, grant) && !(e.SetExtensionPolicy? && e.ext == ext)
    ensures StillShut(Next(s, e), tenant, ext, grant)
  {
    if e.CleanupExpired? && Holds(s, tenant, ext) && !Expired(s.access[tenant][ext], e.now) {
      assert ext in Unexpired(s.access[tenant], e.now);
    }
    if e.RevokeAccess? {
      RevokeExactly(s, e.tenant, e.ext, e.now);
    }
  }

  lemma {:induction false} ShutRun(s: State, es: seq<Event>, tenant: string, ext: string, grant: Option<Access>)
    requires StillShut(s, tenant, ext, grant) && NotSetAgain(es, ext)
    ensures StillShut(After(s, es), tenant, ext, grant)
    decreases |es|
  {
    if es != [] {
      assert es[0] in es;
      ShutStep(s, es[0], tenant, ext, grant);
      ShutRun(Next(s, es[0]), es[1..], tenant, ext, grant);
    }
  }

  // A tenant that the terms set shut out gains nothing until they are set again: it keeps
  // the grant it had, if any, or loses it.
  lemma ShutGainsNothing(s: State, ext: string, policy: Policy, now: int, es: seq<Event>, tenant: string)
    requires Shut(TermsOf(policy), tenant) && NotSetAgain(es, ext)
    ensures var s' := After(Next(s, SetExtensionPolicy(ext, policy, now)), es);
      GrantOf(s', tenant, ext) == None || GrantOf(s', tenant, ext) == GrantOf(s, tenant, ext)
  {
    SettingMeans(s, ext, policy, now);
    ShutRun(Next(s, SetExtensionPolicy(ext, policy, now)), es, tenant, ext, GrantOf(s, tenant, ext));
  }
}
