/** What the permission checks answer and what the rule tables hold, on the fields of rules
    and in terms of the calls made. */
module PermissionMeaning {
  import opened Prelude
  import opened Permissions
  import opened PermissionProofs

  /******* Which rules speak *******/

  // Same permission, and a scope and target that take in what is asked about: everything,
  // the extension asked about by its name, or its category; names must not be empty.
  predicate Covers(r: Rule, q: Query) {
    r.permission == q.permission &&
    ((r.scope == GlobalScope && r.target == "*")
     || (r.scope == ExtensionScope && r.target != "" && q.extension == Some(r.target))
     || (r.scope == CategoryScope && r.target != "" && q.category == Some(r.target)))
  }

  // A user's rule speaks in every tenant if it names none, and in the one it names.
  predicate Speaks(r: Rule, q: Query, tenant: Option<string>) {
    Covers(r, q) && (r.tenant == None || r.tenant == tenant)
  }

  predicate Good(r: Rule, now: int) {
    r.granted && (r.expiresAt == None || now <= r.expiresAt.value)
  }

  // A user is allowed exactly if the first of the user's rules that speaks is granted and
  // not past its expiry.
  lemma UserCheckExactly(rules: seq<Rule>, q: Query, tenant: Option<string>, now: int)
    ensures UserAllows(rules, q, tenant, now) <==>
      exists i :: 0 <= i < |rules| && Speaks(rules[i], q, tenant) && Good(rules[i], now)
               && forall j :: 0 <= j < i ==> !Speaks(rules[j], q, tenant)
  {
    assert forall r :: Speaks(r, q, tenant) <==> Applies(r, q, InTenant(tenant));
    assert forall r :: Good(r, now) <==> Allows(r, now);
    FirstMatchDecides(rules, q, InTenant(tenant), now);
    forall i | 0 <= i < |rules|
      ensures Decides(rules, q, InTenant(tenant), i) <==>
        Speaks(rules[i], q, tenant) && forall j :: 0 <= j < i ==> !Speaks(rules[j], q, tenant)
    {
    }
  }

  // The rules of a role or of a tenant speak whatever tenant they name.
  lemma RoleCheckExactly(rules: seq<Rule>, q: Query, now: int)
    ensures FirstMatchAllows(rules, q, now) <==>
      exists i :: 0 <= i < |rules| && Covers(rules[i], q) && Good(rules[i], now)
               && forall j :: 0 <= j < i ==> !Covers(rules[j], q)
  {
    assert forall r :: Covers(r, q) <==> Applies(r, q, Anywhere);
    assert forall r :: Good(r, now) <==> Allows(r, now);
    FirstMatchDecides(rules, q, Anywhere, now);
    forall i | 0 <= i < |rules|
      ensures Decides(rules, q, Anywhere, i) <==>
        Covers(rules[i], q) && forall j :: 0 <= j < i ==> !Covers(rules[j], q)
    {
    }
  }

  // A rule of another tenant changes no answer in this one, wherever it stands.
  lemma {:induction false} OtherTenantsDoNotMatter(a: seq<Rule>, r: Rule, b: seq<Rule>, q: Query,
      tenant: Option<string>, now: int)
    requires r.tenant != None && r.tenant != tenant
    ensures UserAllows(a + [r] + b, q, tenant, now) <==> UserAllows(a + b, q, tenant, now)
  {
    if a == [] {
      assert a + [r] + b == [r] + b && a + b == b && ([r] + b)[1..] == b;
    } else {
      assert (a + [r] + b)[1..] == a[1..] + [r] + b && (a + b)[1..] == a[1..] + b;
      OtherTenantsDoNotMatter(a[1..], r, b, q, tenant, now);
    }
  }

  /******* What the tables hold *******/

  datatype Owner = OfUser(id: string) | OfTenant(id: string)

  datatype Slot = Slot(permission: Permission, scope: Scope, target: string)

  function SlotOf(r: Rule): Slot {
    Slot(r.permission, r.scope, r.target)
  }

  function Stored(s: Store, owner: Owner): seq<Rule> {
    match owner
    case OfUser(id) => if id in s.users then s.users[id] else []
    case OfTenant(id) => if id in s.tenants then s.tenants[id] else []
  }

  // What one call does to the rule in a slot.
  function SlotAfter(held: Option<Rule>, e: Event, owner: Owner, slot: Slot): Option<Rule> {
    match e
    case GrantUser(id, r) => if owner == OfUser(id) && SlotOf(r) == slot then Some(r) else held
    case GrantTenant(id, r) => if owner == OfTenant(id) && SlotOf(r) == slot then Some(r) else held
    case RevokeUser(id, r, tenant) =>
      if owner == OfUser(id) && SlotOf(r) == slot && held.Some? && (tenant == None || held.value.tenant == tenant)
      then None else held
    case CleanUp(now) =>
      if held.Some? && held.value.expiresAt.Some? && held.value.expiresAt.value <= now then None else held
  }

  // What a slot holds after the calls: the rule granted into it last, if it was not revoked
  // or cleaned up since.
  function Holding(es: seq<Event>, owner: Owner, slot: Slot): Option<Rule> {
    if es == [] then None
    else SlotAfter(Holding(es[..|es| - 1], owner, slot), es[|es| - 1], owner, slot)
  }

  function Nothing(): Store {
    Store(map[], map[])
  }

  lemma {:induction false} AfterLast(s: Store, es: seq<Event>, e: Event)
    ensures After(s, es + [e]) == Next(After(s, es), e)
    decreases |es|
  {
    if es == [] {
      assert es + [e] == [e] && After(s, [e]) == After(Next(s, e), []);
    } else {
      assert (es + [e])[1..] == es[1..] + [e];
      AfterLast(Next(s, es[0]), es[1..], e);
    }
  }

  lemma {:induction false} CleanMembers(rules: seq<Rule>, now: int)
    ensures forall x :: x in Clean(rules, now) <==> x in rules && (x.expiresAt == None || x.expiresAt.value > now)
  {
    if rules != [] {
      CleanMembers(rules[1..], now);
      assert rules == [rules[0]] + rules[1..];
    }
  }

  lemma {:induction false} WithoutMembers(rules: seq<Rule>, r: Rule)
    ensures forall x :: x in WithoutSlot(rules, r) <==> x in rules && SlotOf(x) != SlotOf(r)
  {
    if rules != [] {
      WithoutMembers(rules[1..], r);
      assert rules == [rules[0]] + rules[1..];
    }
  }

  lemma {:induction false} RevokeMembers(rules: seq<Rule>, r: Rule, tenant: Option<string>)
    ensures forall x :: x in Revoke(rules, r, tenant) <==>
      x in rules && !(SlotOf(x) == SlotOf(r) && (tenant == None || x.tenant == tenant))
  {
    if rules != [] {
      RevokeMembers(rules[1..], r, tenant);
      assert rules == [rules[0]] + rules[1..];
    }
  }

  ghost predicate HoldsWhat(s: Store, es: seq<Event>, owner: Owner) {
    forall r :: r in Stored(s, owner) <==> Holding(es, owner, SlotOf(r)) == Some(r)
  }

  lemma HoldsStep(s: Store, fewer: seq<Event>, e: Event, owner: Owner)
    requires HoldsWhat(s, fewer, owner)
    ensures HoldsWhat(Next(s, e), fewer + [e], owner)
  {
    var es := fewer + [e];
    assert es[..|es| - 1] == fewer;
    var rules := Stored(s, owner);
    forall slot ensures Holding(es, owner, slot) == SlotAfter(Holding(fewer, owner, slot), e, owner, slot) {
    }
    match e
    case GrantUser(id, r) => WithoutMembers(RulesOf(s.users, id), r);
    case GrantTenant(id, r) => WithoutMembers(RulesOf(s.tenants, id), r);
    case RevokeUser(id, r, tenant) => RevokeMembers(rules, r, tenant);
    case CleanUp(now) => CleanMembers(rules, now);
  }

  // After any calls, a user or a tenant has exactly the rules its slots hold.
  lemma {:induction false} StoredExactly(es: seq<Event>, owner: Owner)
    ensures forall r :: r in Stored(After(Nothing(), es), owner) <==> Holding(es, owner, SlotOf(r)) == Some(r)
    decreases |es|
  {
    if es != [] {
      var fewer := es[..|es| - 1];
      assert es == fewer + [es[|es| - 1]];
      AfterLast(Nothing(), fewer, es[|es| - 1]);
      StoredExactly(fewer, owner);
      HoldsStep(After(Nothing(), fewer), fewer, es[|es| - 1], owner);
    }
  }

  /******* In which order *******/

  ghost predicate Pairwise(rules: seq<Rule>, p: (Rule, Rule) -> bool) {
    forall i, j :: 0 <= i < j < |rules| ==> p(rules[i], rules[j])
  }

  lemma PairwiseFront(r: Rule, rules: seq<Rule>, p: (Rule, Rule) -> bool)
    ensures Pairwise([r] + rules, p) <==> Pairwise(rules, p) && forall x :: x in rules ==> p(r, x)
  {
    var all := [r] + rules;
    if Pairwise(all, p) {
      forall x | x in rules ensures p(r, x) {
        var j :| 0 <= j < |rules| && rules[j] == x;
        assert p(all[0], all[j + 1]);
      }
      forall i, j | 0 <= i < j < |rules| ensures p(rules[i], rules[j]) {
        assert p(all[i + 1], all[j + 1]);
      }
    } else {
      assert forall i :: 0 < i < |all| ==> all[i] == rules[i - 1];
    }
  }

  // Cleaning, revoking and replacing keep the rules that stay in their order.
  lemma {:induction false} OrderKept(rules: seq<Rule>, now: int, r: Rule, tenant: Option<string>, p: (Rule,
      Rule) -> bool)
    requires Pairwise(rules, p)
    ensures Pairwise(Clean(rules, now), p) && Pairwise(Revoke(rules, r, tenant), p)
      && Pairwise(WithoutSlot(rules, r), p)
  {
    if rules != [] {
      var first, rest := rules[0], rules[1..];
      assert rules == [first] + rest;
      PairwiseFront(first, rest, p);
      OrderKept(rest, now, r, tenant, p);
      CleanMembers(rest, now);
      RevokeMembers(rest, r, tenant);
      WithoutMembers(rest, r);
      PairwiseFront(first, Clean(rest, now), p);
      PairwiseFront(first, Revoke(rest, r, tenant), p);
      PairwiseFront(first, WithoutSlot(rest, r), p);
    }
  }

  lemma {:induction false} PairwiseLast(rules: seq<Rule>, r: Rule, p: (Rule, Rule) -> bool)
    requires Pairwise(rules, p) && forall x :: x in rules ==> p(x, r)
    ensures Pairwise(rules + [r], p)
  {
  }

  // When the slot was last granted into: the number of the call, or -1.
  function LastGrant(es: seq<Event>, owner: Owner, slot: Slot): int {
    if es == [] then -1
    else
      var n := |es| - 1;
      match es[n]
      case GrantUser(id, r) =>
        if owner == OfUser(id) && SlotOf(r) == slot then n else LastGrant(es[..n], owner, slot)
      case GrantTenant(id, r) =>
        if owner == OfTenant(id) && SlotOf(r) == slot then n else LastGrant(es[..n], owner, slot)
      case _ => LastGrant(es[..n], owner, slot)
  }

  lemma {:induction false} LastGrantBelow(es: seq<Event>, owner: Owner, slot: Slot)
    ensures LastGrant(es, owner, slot) < |es|
  {
    if es != [] { LastGrantBelow(es[..|es| - 1], owner, slot); }
  }

  ghost function GrantedBefore(es: seq<Event>, owner: Owner): (Rule, Rule) -> bool {
    (a: Rule, b: Rule) => LastGrant(es, owner, SlotOf(a)) < LastGrant(es, owner, SlotOf(b))
  }

  // The rule granted now goes behind the others, which keep their order.
  lemma GrantOrder(rules: seq<Rule>, r: Rule, fewer: seq<Event>, e: Event, owner: Owner)
    requires Pairwise(rules, GrantedBefore(fewer, owner))
    requires e == if owner.OfUser? then GrantUser(owner.id, r) else GrantTenant(owner.id, r)
    ensures Pairwise(Grant(rules, r), GrantedBefore(fewer + [e], owner))
  {
    var es, kept := fewer + [e], WithoutSlot(rules, r);
    assert es[..|es| - 1] == fewer;
    OrderKept(rules, 0, r, None, GrantedBefore(fewer, owner));
    WithoutMembers(rules, r);
    forall x | x in kept
      ensures LastGrant(es, owner, SlotOf(x)) == LastGrant(fewer, owner, SlotOf(x)) < |fewer|
    {
      LastGrantBelow(fewer, owner, SlotOf(x));
    }
    forall i, j | 0 <= i < j < |kept| ensures GrantedBefore(es, owner)(kept[i], kept[j]) {
      assert kept[i] in kept && kept[j] in kept;
      assert GrantedBefore(fewer, owner)(kept[i], kept[j]);
    }
    PairwiseLast(kept, r, GrantedBefore(es, owner));
  }

  predicate GrantsTo(e: Event, owner: Owner) {
    (e.GrantUser? && owner == OfUser(e.user)) || (e.GrantTenant? && owner == OfTenant(e.tenantId))
  }

  lemma OtherStep(s: Store, e: Event, owner: Owner, p: (Rule, Rule) -> bool)
    requires Pairwise(Stored(s, owner), p) && !GrantsTo(e, owner)
    ensures Pairwise(Stored(Next(s, e), owner), p)
  {
    var rules := Stored(s, owner);
    match e
    case RevokeUser(_, r, tenant) => OrderKept(rules, 0, r, tenant, p);
    case CleanUp(now) => if rules != [] { OrderKept(rules, now, rules[0], None, p); }
    case _ =>
  }

  lemma OrderStep(s: Store, fewer: seq<Event>, e: Event, owner: Owner)
    requires Pairwise(Stored(s, owner), GrantedBefore(fewer, owner))
    ensures Pairwise(Stored(Next(s, e), owner), GrantedBefore(fewer + [e], owner))
  {
    if GrantsTo(e, owner) {
      GrantOrder(Stored(s, owner), e.rule, fewer, e, owner);
    } else {
      assert (fewer + [e])[..|fewer|] == fewer;
      OtherStep(s, e, owner, GrantedBefore(fewer, owner));
      SameOrder(Stored(Next(s, e), owner), fewer, fewer + [e], owner);
    }
  }

  lemma SameOrder(rules: seq<Rule>, es: seq<Event>, es': seq<Event>, owner: Owner)
    requires Pairwise(rules, GrantedBefore(es, owner))
    requires forall slot :: LastGrant(es', owner, slot) == LastGrant(es, owner, slot)
    ensures Pairwise(rules, GrantedBefore(es', owner))
  {
    forall i, j | 0 <= i < j < |rules| ensures GrantedBefore(es', owner)(rules[i], rules[j]) {
      assert GrantedBefore(es, owner)(rules[i], rules[j]);
    }
  }

  // After any calls, the rules of a user or a tenant stand in the order in which their slots
  // were last granted into; so a grant puts its rule behind all others.
  lemma {:induction false} StoredInGrantOrder(es: seq<Event>, owner: Owner)
    ensures Pairwise(Stored(After(Nothing(), es), owner), GrantedBefore(es, owner))
    decreases |es|
  {
    if es != [] {
      var fewer := es[..|es| - 1];
      assert es == fewer + [es[|es| - 1]];
      AfterLast(Nothing(), fewer, es[|es| - 1]);
      StoredInGrantOrder(fewer, owner);
      OrderStep(After(Nothing(), fewer), fewer, es[|es| - 1], owner);
    }
  }
}
