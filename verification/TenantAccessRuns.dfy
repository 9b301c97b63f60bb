/** Runs of the tenant access manager: the capacity in force is kept as long as the policy
    is, and the two tables of grants agree. */
module TenantAccessRuns {
  import opened Prelude
  import opened TenantAccess

  datatype Event =
    | SetExtensionPolicy(ext: string, policy: Policy, now: int)
    | GrantAccess(tenant: string, ext: string, level: Level, expiresAt: Option<int>, now: int)
    | RevokeAccess(tenant: string, ext: string, now: int)
    | CleanupExpired(now: int)

  function Next(s: State, e: Event): State {
    match e
    case SetExtensionPolicy(ext, policy, _) => SetPolicy(s, ext, policy)
    case GrantAccess(tenant, ext, level, expiresAt, now) => Grant(s, tenant, ext, level, expiresAt, now)
    case RevokeAccess(tenant, ext, _) => Revoke(s, tenant, ext)
    case CleanupExpired(now) => Cleanup(s, now)
  }

  function After(s: State, es: seq<Event>): State
    decreases |es|
  {
    if es == [] then s else After(Next(s, es[0]), es[1..])
  }

  // Time does not run backwards between the events of a run that begins at `from`.
  predicate InOrder(es: seq<Event>, from: int, to: int)
    decreases |es|
  {
    if es == [] then from <= to else from <= es[0].now && InOrder(es[1..], es[0].now, to)
  }

  /******* What every run keeps *******/

  // The grants noted with a policy are grants of the main table, with the same content.
  ghost predicate SpecificAgrees(s: State) {
    forall e, t :: e in s.policies && t in s.policies[e].specific ==>
      Holds(s, t, e) && s.access[t][e] == s.policies[e].specific[t]
  }

  ghost predicate Tidy(s: State) {
    ANY in s.policies && forall t :: t in s.access ==> s.access[t] != map[]
  }

  lemma AgreesStep(s: State, e: Event)
    requires SpecificAgrees(s)
    ensures SpecificAgrees(Next(s, e))
  {
    var s' := Next(s, e);
    forall x, t | x in s'.policies && t in s'.policies[x].specific
      ensures Holds(s', t, x) && s'.access[t][x] == s'.policies[x].specific[t]
    {
      match e
      case SetExtensionPolicy(_, _, _) =>
        assert t in s.policies[x].specific && Holds(s, t, x);
      case GrantAccess(tenant, ext, _, _, _) =>
        if !(x == ext && t == tenant && MayGrant(s, tenant, ext, e.now)) {
          assert t in s.policies[x].specific && Holds(s, t, x);
        }
      case RevokeAccess(tenant, ext, _) =>
        assert t in s.policies[x].specific && Holds(s, t, x);
        if t == tenant {
          assert x != ext && x in s.access[t] - {ext};
        }
        assert t in s'.access;
      case CleanupExpired(_) =>
        assert t in s.policies[x].specific && Holds(s, t, x);
        assert x in Unexpired(s.access[t], e.now);
        assert t in s'.access;
    }
  }

  lemma TidyStep(s: State, e: Event)
    requires Tidy(s)
    ensures Tidy(Next(s, e))
  {
    if e.GrantAccess? {
      assert e.ext in Inner(s, e.tenant)[e.ext := Access(e.level, true, e.expiresAt)];
    }
  }

  lemma {:induction false} TablesAgree(s: State, es: seq<Event>)
    requires SpecificAgrees(s) && Tidy(s)
    ensures SpecificAgrees(After(s, es)) && Tidy(After(s, es))
    decreases |es|
  {
    if es != [] {
      AgreesStep(s, es[0]);
      TidyStep(s, es[0]);
      TablesAgree(Next(s, es[0]), es[1..]);
    }
  }

  /******* Capacity *******/

  function MaxInForce(s: State, ext: string): int {
    match InForce(s, ext)
    case None => 0
    case Some(p) => if p.maxTenants.None? then 0 else p.maxTenants.value
  }

  // The event replaces the policy that applies to the extension.
  predicate Replaces(s: State, e: Event, ext: string) {
    e.SetExtensionPolicy? && (e.ext == ext || (e.ext == ANY && ext !in s.policies))
  }

  predicate KeepsPolicy(s: State, es: seq<Event>, ext: string)
    decreases |es|
  {
    es == [] || (!Replaces(s, es[0], ext) && KeepsPolicy(Next(s, es[0]), es[1..], ext))
  }

  // A grant adds the tenant, and no one else.
  lemma PutAdds(s: State, tenant: string, x: string, a: Access, ext: string, now: int)
    ensures Live(Put(s, tenant, x, a), ext, now) <= Live(s, ext, now) + (if x == ext then {tenant} else {})
  {
  }

  lemma StepShrinks(s: State, e: Event, ext: string, to: int)
    requires e.GrantAccess? ==> e.ext != ext || !MayGrant(s, e.tenant, ext, e.now)
    ensures Live(Next(s, e), ext, to) <= Live(s, ext, to)
  {
    if e.GrantAccess? {
      PutAdds(s, e.tenant, e.ext, Access(e.level, true, e.expiresAt), ext, to);
    }
  }

  lemma TimeShrinks(s: State, ext: string, from: int, to: int)
    requires from <= to
    ensures Live(s, ext, to) <= Live(s, ext, from)
  {
  }

  // A grant that succeeds leaves room for no more than the maximum in force.
  lemma GrantFits(s: State, tenant: string, ext: string, level: Level, expiresAt: Option<int>, now: int)
    requires MayGrant(s, tenant, ext, now) && MaxInForce(s, ext) != 0
    ensures |Live(Grant(s, tenant, ext, level, expiresAt, now), ext, now)| <= MaxInForce(s, ext)
  {
    PutAdds(s, tenant, ext, Access(level, true, expiresAt), ext, now);
    SubsetIsSmaller(Live(Grant(s, tenant, ext, level, expiresAt, now), ext, now), Live(s, ext, now) + {tenant});
  }

  lemma PolicyKept(s: State, e: Event, ext: string)
    requires Tidy(s) && !Replaces(s, e, ext)
    ensures MaxInForce(Next(s, e), ext) == MaxInForce(s, ext)
  {
  }

  // While the policy of an extension is not replaced, and whatever is granted, revoked,
  // cleaned up or expires: its live tenants never outnumber both the positive maximum in
  // force and what there was before.
  lemma {:induction false} NeverPastMaximum(s: State, es: seq<Event>, ext: string, bound: int, from: int, to: int)
    requires Tidy(s) && KeepsPolicy(s, es, ext) && InOrder(es, from, to)
    requires 0 < MaxInForce(s, ext) <= bound && |Live(s, ext, from)| <= bound
    ensures |Live(After(s, es), ext, to)| <= bound
    decreases |es|
  {
    if es == [] {
      TimeShrinks(s, ext, from, to);
      SubsetIsSmaller(Live(s, ext, to), Live(s, ext, from));
    } else {
      var e := es[0];
      TidyStep(s, e);
      PolicyKept(s, e, ext);
      if e.GrantAccess? && e.ext == ext && MayGrant(s, e.tenant, ext, e.now) {
        GrantFits(s, e.tenant, ext, e.level, e.expiresAt, e.now);
      } else {
        StepShrinks(s, e, ext, e.now);
        TimeShrinks(s, ext, from, e.now);
        SubsetIsSmaller(Live(Next(s, e), ext, e.now), Live(s, ext, from));
      }
      NeverPastMaximum(Next(s, e), es[1..], ext, bound, e.now, to);
    }
  }

  // After any successful grant the live tenants stay within the maximum until the policy
  // is replaced.
  lemma CapacityKept(before: seq<Event>, tenant: string, ext: string, level: Level, expiresAt: Option<int>, now: int,
      es: seq<Event>, to: int)
    requires var s := After(Initial(), before);
      MayGrant(s, tenant, ext, now) && MaxInForce(s, ext) != 0 &&
      KeepsPolicy(Grant(s, tenant, ext, level, expiresAt, now), es, ext)
    requires InOrder(es, now, to)
    ensures var s := After(Initial(), before);
      |Live(After(Grant(s, tenant, ext, level, expiresAt, now), es), ext, to)| <= MaxInForce(s, ext)
  {
    var s := After(Initial(), before);
    var e := GrantAccess(tenant, ext, level, expiresAt, now);
    TablesAgree(Initial(), before);
    GrantFits(s, tenant, ext, level, expiresAt, now);
    TidyStep(s, e);
    PolicyKept(s, e, ext);
    NeverPastMaximum(Next(s, e), es, ext, MaxInForce(s, ext), now, to);
  }

  // The policy in force neither blocks the tenant nor shuts it out of a private extension.
  predicate Admits(p: Policy, tenant: string) {
    && !(p.blocked.Some? && tenant in p.blocked.value)
    && !(p.visibility == Private && p.allowed.Some? && p.allowed.value != {} && tenant !in p.allowed.value)
  }

  // A live tenant renews its grant exactly when the policy in force admits it and has a
  // maximum that is 0 or exceeds the number of live tenants, although a renewal does not
  // raise that number; a renewal that is refused changes nothing.
  lemma RenewalExactly(s: State, tenant: string, ext: string, level: Level, expiresAt: int, now: int)
    requires tenant in Live(s, ext, now) && now <= expiresAt
    ensures var s' := Grant(s, tenant, ext, level, Some(expiresAt), now);
      && Live(s', ext, now) == Live(s, ext, now)
      && (if Renews(s, tenant, ext, now)
          then GrantOf(s', tenant, ext) == Some(Access(level, true, Some(expiresAt)))
          else s' == s)
    ensures MayGrant(s, tenant, ext, now) <==> Renews(s, tenant, ext, now)
  {
    var a := Access(level, true, Some(expiresAt));
    RenewalKeepsLive(s, tenant, ext, a, now);
    assert Live(Put(s, tenant, ext, a), ext, now) == Live(s, ext, now);
  }

  predicate Renews(s: State, tenant: string, ext: string, now: int) {
    && InForce(s, ext).Some? && Admits(InForce(s, ext).value, tenant)
    && (MaxInForce(s, ext) == 0 || |Live(s, ext, now)| < MaxInForce(s, ext))
  }

  lemma RenewalKeepsLive(s: State, tenant: string, ext: string, a: Access, now: int)
    requires tenant in Live(s, ext, now) && IsLive(a, now)
    ensures Live(Put(s, tenant, ext, a), ext, now) == Live(s, ext, now)
    ensures GrantOf(Put(s, tenant, ext, a), tenant, ext) == Some(a)
  {
    var s' := Put(s, tenant, ext, a);
    PutAdds(s, tenant, ext, a, ext, now);
    assert s'.access == s.access[tenant := Inner(s, tenant)[ext := a]];
    assert Live(s', ext, now) <= Live(s, ext, now);
    assert Live(s, ext, now) <= Live(s', ext, now);
  }

  predicate Full(s: State, ext: string, now: int) {
    0 < MaxInForce(s, ext) <= |Live(s, ext, now)|
  }

  ghost predicate NoneExpires(s: State, ext: string, to: int) {
    forall t :: Holds(s, t, ext) && s.access[t][ext].expiresAt.Some? ==> to < s.access[t][ext].expiresAt.value
  }

  function GrantOf(s: State, tenant: string, ext: string): Option<Access> {
    if Holds(s, tenant, ext) then Some(s.access[tenant][ext]) else None
  }

  lemma FullStep(s: State, e: Event, ext: string, to: int)
    requires Full(s, ext, e.now) && NoneExpires(s, ext, to) && e.now <= to
    requires !Replaces(s, e, ext) && !(e.RevokeAccess? && e.ext == ext)
    ensures forall t :: GrantOf(Next(s, e), t, ext) == GrantOf(s, t, ext)
  {
    var s' := Next(s, e);
    match e
    case SetExtensionPolicy(_, _, _) => assert s'.access == s.access;
    case GrantAccess(tenant, other, _, _, now) =>
      if other == ext {
        assert s' == s;
      } else {
        assert forall t :: t != tenant ==> GrantOf(s', t, ext) == GrantOf(s, t, ext);
        assert GrantOf(s', tenant, ext) == GrantOf(s, tenant, ext);
      }
    case RevokeAccess(tenant, other, _) =>
      assert forall t :: t != tenant ==> GrantOf(s', t, ext) == GrantOf(s, t, ext);
      assert Holds(s, tenant, ext) ==> ext in s.access[tenant] - {other};
      assert GrantOf(s', tenant, ext) == GrantOf(s, tenant, ext);
    case CleanupExpired(now) =>
      forall t ensures GrantOf(s', t, ext) == GrantOf(s, t, ext) {
        if Holds(s, t, ext) {
          assert ext in Unexpired(s.access[t], now);
        }
      }
  }

  predicate NoRevocation(es: seq<Event>, ext: string) {
    forall e :: e in es ==> !(e.RevokeAccess? && e.ext == ext)
  }

  // So while an extension is full, none of its grants expires or is revoked, and its
  // policy is kept, no run changes who holds it, at which level, or until when.
  lemma {:induction false} FullFreezes(s: State, es: seq<Event>, ext: string, from: int, to: int)
    requires Tidy(s) && KeepsPolicy(s, es, ext) && NoRevocation(es, ext) && InOrder(es, from, to)
    requires Full(s, ext, from) && NoneExpires(s, ext, to)
    ensures forall t :: GrantOf(After(s, es), t, ext) == GrantOf(s, t, ext)
    decreases |es|
  {
    if es != [] {
      var e := es[0];
      assert e in es;
      RunsLater(es[1..], e.now, to);
      SameLive(s, ext, from, e.now, to);
      FullStep(s, e, ext, to);
      TidyStep(s, e);
      PolicyKept(s, e, ext);
      SameGrants(s, Next(s, e), ext, e.now);
      assert NoneExpires(Next(s, e), ext, to) by {
        assert forall t :: Holds(Next(s, e), t, ext) ==> GrantOf(s, t, ext) == GrantOf(Next(s, e), t, ext);
      }
      FullFreezes(Next(s, e), es[1..], ext, e.now, to);
    }
  }

  lemma {:induction false} RunsLater(es: seq<Event>, from: int, to: int)
    requires InOrder(es, from, to)
    ensures from <= to
    decreases |es|
  {
    if es != [] {
      RunsLater(es[1..], es[0].now, to);
    }
  }

  lemma SameLive(s: State, ext: string, from: int, now: int, to: int)
    requires from <= now <= to && NoneExpires(s, ext, to)
    ensures Live(s, ext, now) == Live(s, ext, from)
  {
    assert forall t :: t in Live(s, ext, from) ==> Holds(s, t, ext);
  }

  lemma SameGrants(s: State, s': State, ext: string, now: int)
    requires forall t :: GrantOf(s', t, ext) == GrantOf(s, t, ext)
    ensures Live(s', ext, now) == Live(s, ext, now)
  {
    assert forall t :: t in Live(s, ext, now) ==> GrantOf(s, t, ext) == GrantOf(s', t, ext);
    assert forall t :: t in Live(s', ext, now) ==> GrantOf(s, t, ext) == GrantOf(s', t, ext);
  }

  /******* What calls undo and leave alone *******/

  lemma DropUndoesPut(s: State, tenant: string, ext: string, a: Access)
    requires Tidy(s) && !Holds(s, tenant, ext)
    ensures Drop(Put(s, tenant, ext, a).access, tenant, ext) == s.access
  {
    assert Inner(s, tenant)[ext := a] - {ext} == Inner(s, tenant);
  }

  lemma RevokePolicies(s: State, tenant: string, ext: string, a: Access)
    requires SpecificAgrees(s) && !Holds(s, tenant, ext)
    ensures Revoke(Put(s, tenant, ext, a), tenant, ext).policies == s.policies
  {
    if ext in s.policies {
      var p := s.policies[ext];
      assert tenant !in p.specific;
      assert p.specific[tenant := a] - {tenant} == p.specific;
    }
  }

  // In every reachable state a revocation undoes the grant of an extension the tenant did
  // not have, in both tables.
  lemma RevokeUndoesGrant(es: seq<Event>, tenant: string, ext: string, level: Level, expiresAt: Option<int>, now: int)
    requires !Holds(After(Initial(), es), tenant, ext)
    ensures var s := After(Initial(), es); Revoke(Grant(s, tenant, ext, level, expiresAt, now), tenant, ext) == s
  {
    var s := After(Initial(), es);
    TablesAgree(Initial(), es);
    if MayGrant(s, tenant, ext, now) {
      DropUndoesPut(s, tenant, ext, Access(level, true, expiresAt));
      RevokePolicies(s, tenant, ext, Access(level, true, expiresAt));
    }
  }

  // Cleanup takes no tenant away at any later time, and none right now but those whose
  // grant expires at this instant.
  lemma CleanupTakesExactly(s: State, ext: string, now: int, to: int)
    requires now <= to
    ensures Live(Cleanup(s, now), ext, to) ==
      set t | t in Live(s, ext, to) && (to == now ==> s.access[t][ext].expiresAt != Some(now))
  {
    forall t | t in Live(s, ext, to) && !Expired(s.access[t][ext], now)
      ensures t in Live(Cleanup(s, now), ext, to)
    {
      assert ext in Unexpired(s.access[t], now);
    }
  }
}
