/** Runs of the token manager with refreshes suspended at every await: each refresh token
    is redeemed at most once, unused records are bounded, revoked tokens stay out. */
module TokenRuns {
  import opened Prelude
  import opened Tokens

  /******* One revocation, exactly *******/

  // The signature is good and, if it is a refresh token, its record is unused and alive.
  predicate Usable(s: State, tok: Token, t: int) {
    tok.authentic && (tok.kind == Refresh ==> RecordAccepts(s, tok.jti, t))
  }

  // Where the entry made by revoking the token at r ends, or r if none is made.
  function ListedUntil(tok: Token, r: int): int {
    if tok.exp - r >= SECOND then r + (tok.exp - r) / SECOND * SECOND else r
  }

  // When a token is accepted after its revocation at r, if nothing else happens: while it
  // is usable, in the part of a second the truncated lifetime of the entry falls short of
  // the token's expiry, and at no other time.
  lemma AcceptedAfterRevocation(s: State, tok: Token, r: int, t: int)
    requires tok.jti != "" && tok.jti !in s.store && 0 <= r <= t
    ensures Validate(Store, RevokeToken(Store, s, tok.jti, Some(tok.exp), r), tok, t) == Valid <==>
      Usable(s, tok, t) && ListedUntil(tok, r) <= t < tok.exp
  {
  }

  // So a revocation leaves no gap exactly when the time left is a whole number of seconds,
  // or the token is of no use when its entry ends.
  lemma GapFreeExactly(s: State, tok: Token, r: int)
    requires tok.jti != "" && tok.jti !in s.store && 0 <= r <= tok.exp
    ensures (forall t :: r <= t ==>
        Validate(Store, RevokeToken(Store, s, tok.jti, Some(tok.exp), r), tok, t) != Valid) <==>
      (tok.exp - r) % SECOND == 0 || !Usable(s, tok, ListedUntil(tok, r))
  {
    var s' := RevokeToken(Store, s, tok.jti, Some(tok.exp), r);
    var end := ListedUntil(tok, r);
    if (tok.exp - r) % SECOND == 0 || !Usable(s, tok, end) {
      forall t | r <= t ensures Validate(Store, s', tok, t) != Valid {
        AcceptedAfterRevocation(s, tok, r, t);
      }
    } else {
      AcceptedAfterRevocation(s, tok, r, end);
      assert Validate(Store, s', tok, end) == Valid;
    }
  }

  /******* Runs *******/

  // A call of `refresh_access_token`: suspended after the lookup, or after issuing.
  datatype Pending = LookedUp(tok: Token, listed: bool) | Redeemed(tok: Token)

  // A call of `revoke_all_user_tokens`: the ids it collected, those it has still to reach,
  // and whether it has given up because a record it came to was gone.
  datatype Loop = Loop(user: Option<string>, ids: set<string>, left: set<string>, failed: bool)

  datatype World = World(
    s: State,
    pending: map<nat, Pending>,
    issued: map<string, Token>,             // every token ever issued
    owner: map<string, Option<string>>,     // user each refresh token was issued to
    direct: map<string, bool>,              // refresh tokens issued outside a refresh
    redeemed: seq<string>,
    loops: map<nat, Loop>,
    clock: int)

  datatype Event =
    | IssueRefresh(jti: string, user: Option<string>, tenant: string, expiresAt: int, now: int)
    | IssueOther(tok: Token, now: int)
    | Lookup(call: nat, tok: Token, now: int)
    | Commit(call: nat, newJti: string, now: int)
    | ListOld(call: nat, now: int)
    | RevokeOne(jti: string, exp: Option<int>, now: int)
    | RevokeBegin(call: nat, user: Option<string>, now: int)
    | RevokeNext(call: nat, jti: string, now: int)
    | Sweep(now: int)

  // Signatures cannot be forged, and new ids are fresh. Anyone may call for the revocation
  // of any id, and may present any token. The clock is past 1970.
  predicate Genuine(w: World, tok: Token) {
    tok.authentic ==> tok.jti in w.issued && w.issued[tok.jti] == tok
  }

  predicate Enabled(w: World, e: Event) {
    0 <= w.clock <= e.now &&
    match e
    case IssueRefresh(jti, _, _, _, _) => jti !in w.issued && jti != ""
    case IssueOther(tok, _) => tok.jti !in w.issued && tok.jti != "" && tok.kind != Refresh && tok.authentic
    case Lookup(call, tok, _) => call !in w.pending && Genuine(w, tok)
    case Commit(call, newJti, _) =>
      call in w.pending && w.pending[call].LookedUp? && newJti !in w.issued && newJti != ""
    case ListOld(call, _) => call in w.pending && w.pending[call].Redeemed?
    case RevokeOne(_, _, _) => true
    case RevokeBegin(call, _, _) => call !in w.loops
    case RevokeNext(call, jti, _) => call in w.loops && !w.loops[call].failed && jti in w.loops[call].left
    case Sweep(_) => true
  }

  function Next(mode: Mode, w: World, e: Event): World
    requires Enabled(w, e)
  {
    match e
    case IssueRefresh(jti, user, tenant, expiresAt, now) =>
      w.(s := Issue(w.s, jti, user, tenant, expiresAt),
         issued := w.issued[jti := RefreshToken(jti, user, tenant, expiresAt)],
         owner := w.owner[jti := user], direct := w.direct[jti := true], clock := now)
    case IssueOther(tok, now) => w.(issued := w.issued[tok.jti := tok], clock := now)
    case Lookup(call, tok, now) =>
      w.(pending := w.pending[call := LookedUp(tok, IsBlacklisted(mode, w.s, tok.jti, now))], clock := now)
    case Commit(call, newJti, now) =>
      var tok, listed := w.pending[call].tok, w.pending[call].listed;
      if !Redeems(w.s, tok, listed, now) then w.(pending := w.pending - {call}, clock := now)
      else
        w.(s := Redeem(w.s, tok, listed, newJti, now),
           pending := w.pending[call := Redeemed(tok)],
           issued := w.issued[newJti := RefreshToken(newJti, tok.user, tok.tenant, now + REFRESH_LIFETIME)],
           owner := w.owner[newJti := tok.user], direct := w.direct[newJti := false],
           redeemed := w.redeemed + [tok.jti], clock := now)
    case ListOld(call, now) =>
      var tok := w.pending[call].tok;
      w.(s := Blacklist(mode, w.s, tok.jti, Some(tok.exp), now), pending := w.pending - {call}, clock := now)
    case RevokeOne(jti, exp, now) => w.(s := RevokeToken(mode, w.s, jti, exp, now), clock := now)
    case RevokeBegin(call, user, now) =>
      var ids := RecordsOf(w.s, user);
      w.(loops := w.loops[call := Loop(user, ids, ids, false)], clock := now)
    case RevokeNext(call, jti, now) =>
      var loop := w.loops[call];
      if jti !in w.s.records then w.(loops := w.loops[call := loop.(failed := true)], clock := now)
      else
        w.(s := RevokeRecord(mode, w.s, jti, now),
           loops := w.loops[call := loop.(left := loop.left - {jti})], clock := now)
    case Sweep(now) => w.(s := CleanupRecords(w.s, now), clock := now)
  }

  function Start(now: int): World {
    World(State(map[], {}, map[]), map[], map[], map[], map[], [], map[], now)
  }

  ghost predicate ValidRun(mode: Mode, w: World, es: seq<Event>)
    decreases |es|
  {
    es == [] || (Enabled(w, es[0]) && ValidRun(mode, Next(mode, w, es[0]), es[1..]))
  }

  ghost function After(mode: Mode, w: World, es: seq<Event>): World
    requires ValidRun(mode, w, es)
    decreases |es|
  {
    if es == [] then w else After(mode, Next(mode, w, es[0]), es[1..])
  }

  /******* The invariant *******/

  // Records belong to issued refresh tokens and agree with their payload.
  ghost predicate Backed(w: World) {
    forall j :: j in w.s.records ==>
      var r := w.s.records[j];
      && j in w.issued && j in w.owner && w.owner[j] == r.user
      && w.issued[j] == RefreshToken(j, r.user, r.tenant, r.expiresAt)
  }

  ghost predicate Ledger(w: World) {
    && (forall j :: j in w.issued ==> j != "" && w.issued[j].jti == j && w.issued[j].authentic)
    && (forall j :: j in w.owner <==> j in w.issued && w.issued[j].kind == Refresh)
    && w.direct.Keys == w.owner.Keys
  }

  ghost predicate Known(w: World) {
    forall c :: c in w.pending ==> Genuine(w, w.pending[c].tok)
  }

  ghost predicate RecordsOk(w: World) {
    Backed(w) && Ledger(w) && Known(w)
  }

  ghost predicate OnceOk(w: World) {
    && (forall i, j :: 0 <= i < j < |w.redeemed| ==> w.redeemed[i] != w.redeemed[j])
    && (forall j :: j in w.redeemed ==> j in w.issued && (j in w.s.records ==> w.s.records[j].used))
  }

  // Unused records of a user, and tokens issued to the user outside a refresh.
  function Unused(records: map<string, Record>, user: Option<string>): set<string> {
    set j | j in records && !records[j].used && records[j].user == user
  }

  function UnusedOf(w: World, user: Option<string>): set<string> {
    Unused(w.s.records, user)
  }

  function DirectOf(w: World, user: Option<string>): set<string> {
    set j | j in w.direct && w.direct[j] && j in w.owner && w.owner[j] == user
  }

  ghost predicate CountOk(w: World, user: Option<string>) {
    |UnusedOf(w, user)| <= |DirectOf(w, user)|
  }

  lemma BackedCommit(mode: Mode, w: World, e: Event)
    requires RecordsOk(w) && Enabled(w, e) && e.Commit?
    ensures Backed(Next(mode, w, e))
  {
  }

  lemma BackedStep(mode: Mode, w: World, e: Event)
    requires RecordsOk(w) && Enabled(w, e)
    ensures Backed(Next(mode, w, e))
  {
    if e.Commit? { BackedCommit(mode, w, e); }
  }

  lemma LedgerCommit(mode: Mode, w: World, e: Event)
    requires Ledger(w) && Enabled(w, e) && e.Commit?
    ensures Ledger(Next(mode, w, e))
  {
  }

  lemma LedgerStep(mode: Mode, w: World, e: Event)
    requires Ledger(w) && Enabled(w, e)
    ensures Ledger(Next(mode, w, e))
  {
    if e.Commit? { LedgerCommit(mode, w, e); }
  }

  lemma KnownStep(mode: Mode, w: World, e: Event)
    requires Known(w) && Enabled(w, e)
    ensures Known(Next(mode, w, e))
  {
  }

  lemma RecordsStep(mode: Mode, w: World, e: Event)
    requires RecordsOk(w) && Enabled(w, e)
    ensures RecordsOk(Next(mode, w, e))
  {
    BackedStep(mode, w, e);
    LedgerStep(mode, w, e);
    KnownStep(mode, w, e);
  }

  lemma OnceCommit(mode: Mode, w: World, e: Event)
    requires RecordsOk(w) && OnceOk(w) && Enabled(w, e) && e.Commit?
    ensures OnceOk(Next(mode, w, e))
  {
  }

  lemma OnceStep(mode: Mode, w: World, e: Event)
    requires RecordsOk(w) && OnceOk(w) && Enabled(w, e)
    ensures OnceOk(Next(mode, w, e))
  {
    if e.Commit? { OnceCommit(mode, w, e); }
  }

  // Refreshes that got past the commit carry a token of the manager's own.
  ghost predicate RedeemedAuthentic(w: World) {
    forall c :: c in w.pending && w.pending[c].Redeemed? ==> w.pending[c].tok.authentic
  }

  lemma AuthenticStep(mode: Mode, w: World, e: Event)
    requires RedeemedAuthentic(w) && Enabled(w, e)
    ensures RedeemedAuthentic(Next(mode, w, e))
  {
  }

  ghost predicate Sound(w: World) {
    RecordsOk(w) && OnceOk(w) && RedeemedAuthentic(w)
  }

  lemma {:induction false} RunKeeps(mode: Mode, w: World, es: seq<Event>)
    requires Sound(w) && ValidRun(mode, w, es)
    ensures Sound(After(mode, w, es))
    decreases |es|
  {
    if es != [] {
      RecordsStep(mode, w, es[0]);
      OnceStep(mode, w, es[0]);
      AuthenticStep(mode, w, es[0]);
      RunKeeps(mode, Next(mode, w, es[0]), es[1..]);
    }
  }

  ghost predicate EndsIn(mode: Mode, now: int, es: seq<Event>, w: World) {
    ValidRun(mode, Start(now), es) && After(mode, Start(now), es) == w
  }

  ghost predicate Reachable(mode: Mode, w: World) {
    exists now: int, es: seq<Event> :: EndsIn(mode, now, es, w)
  }

  lemma ReachableIsSound(mode: Mode, w: World)
    requires Reachable(mode, w)
    ensures Sound(w)
  {
    var now: int, es: seq<Event> :| EndsIn(mode, now, es, w);
    RunKeeps(mode, Start(now), es);
  }

  // However refreshes, revocations and cleanups interleave, no refresh token is redeemed
  // twice.
  lemma RedeemedOnce(mode: Mode, now: int, es: seq<Event>)
    requires ValidRun(mode, Start(now), es)
    ensures var redeemed := After(mode, Start(now), es).redeemed;
      forall i, j :: 0 <= i < j < |redeemed| ==> redeemed[i] != redeemed[j]
  {
    RunKeeps(mode, Start(now), es);
  }

  /******* Unused refresh tokens *******/

  // No refresh token was issued to the empty user id.
  ghost predicate NoneNameless(w: World) {
    forall j :: j in w.owner ==> w.owner[j] != Some("")
  }

  lemma CommitDirect(mode: Mode, w: World, call: nat, newJti: string, now: int, user: Option<string>)
    requires Ledger(w) && Enabled(w, Commit(call, newJti, now))
    ensures DirectOf(Next(mode, w, Commit(call, newJti, now)), user) == DirectOf(w, user)
  {
    assert newJti !in w.owner;
  }

  lemma RedeemUnused(s: State, tok: Token, listed: bool, newJti: string, now: int, user: Option<string>)
    requires Redeems(s, tok, listed, now) && newJti !in s.records
    requires tok.user == user ==> s.records[tok.jti].user == user
    ensures |Unused(Redeem(s, tok, listed, newJti, now).records, user)| <= |Unused(s.records, user)|
  {
    var before, after := Unused(s.records, user), Unused(Redeem(s, tok, listed, newJti, now).records, user);
    if tok.user == user {
      assert after == before - {tok.jti} + {newJti};
      assert tok.jti in before;
    } else {
      SubsetIsSmaller(after, before);
    }
  }

  // A redemption replaces one unused record by another of the same user, unless that is
  // the empty one.
  lemma CommitUnused(mode: Mode, w: World, call: nat, newJti: string, now: int, user: Option<string>)
    requires Backed(w) && Known(w) && Enabled(w, Commit(call, newJti, now)) && (user.Some? || NoneNameless(w))
    ensures |UnusedOf(Next(mode, w, Commit(call, newJti, now)), user)| <= |UnusedOf(w, user)|
  {
    var tok, listed := w.pending[call].tok, w.pending[call].listed;
    if Redeems(w.s, tok, listed, now) {
      assert newJti !in w.s.records;
      assert tok.user == user ==> w.s.records[tok.jti].user == user;
      RedeemUnused(w.s, tok, listed, newJti, now, user);
    }
  }

  lemma OtherCounts(mode: Mode, w: World, e: Event, user: Option<string>)
    requires Enabled(w, e) && !e.Commit? && !e.IssueRefresh?
    ensures UnusedOf(Next(mode, w, e), user) <= UnusedOf(w, user)
    ensures DirectOf(Next(mode, w, e), user) == DirectOf(w, user)
  {
  }

  lemma IssueUnused(mode: Mode, w: World, e: Event, user: Option<string>)
    requires Backed(w) && Enabled(w, e) && e.IssueRefresh?
    ensures e.jti !in UnusedOf(w, user)
    ensures UnusedOf(Next(mode, w, e), user) ==
      if e.user == user then UnusedOf(w, user) + {e.jti} else UnusedOf(w, user)
  {
    assert e.jti !in w.s.records;
  }

  lemma IssueDirect(mode: Mode, w: World, e: Event, user: Option<string>)
    requires Ledger(w) && Enabled(w, e) && e.IssueRefresh?
    ensures e.jti !in DirectOf(w, user)
    ensures DirectOf(Next(mode, w, e), user) ==
      if e.user == user then DirectOf(w, user) + {e.jti} else DirectOf(w, user)
  {
    assert e.jti !in w.owner;
  }

  lemma CountStep(mode: Mode, w: World, e: Event, user: Option<string>)
    requires RecordsOk(w) && Enabled(w, e) && (user.Some? || NoneNameless(w)) && CountOk(w, user)
    ensures CountOk(Next(mode, w, e), user)
  {
    if e.Commit? {
      CommitUnused(mode, w, e.call, e.newJti, e.now, user);
      CommitDirect(mode, w, e.call, e.newJti, e.now, user);
    } else if e.IssueRefresh? {
      IssueUnused(mode, w, e, user);
      IssueDirect(mode, w, e, user);
    } else {
      OtherCounts(mode, w, e, user);
      SubsetIsSmaller(UnusedOf(Next(mode, w, e), user), UnusedOf(w, user));
    }
  }

  // Refresh tokens are issued to these users only, apart from refreshes.
  predicate IssuesTo(es: seq<Event>, users: iset<Option<string>>) {
    forall e :: e in es && e.IssueRefresh? ==> e.user in users
  }

  lemma NamelessStep(mode: Mode, w: World, e: Event)
    requires RecordsOk(w) && Enabled(w, e) && NoneNameless(w) && (e.IssueRefresh? ==> e.user != Some(""))
    ensures NoneNameless(Next(mode, w, e))
  {
  }

  lemma {:induction false} CountRun(mode: Mode, w: World, es: seq<Event>, users: iset<Option<string>>,
      user: Option<string>)
    requires RecordsOk(w) && ValidRun(mode, w, es) && IssuesTo(es, users) && CountOk(w, user)
    requires user.Some? || (Some("") !in users && NoneNameless(w))
    ensures CountOk(After(mode, w, es), user)
    decreases |es|
  {
    if es != [] {
      assert es[0] in es;
      RecordsStep(mode, w, es[0]);
      CountStep(mode, w, es[0], user);
      if user.None? {
        NamelessStep(mode, w, es[0]);
      }
      CountRun(mode, Next(mode, w, es[0]), es[1..], users, user);
    }
  }

  // The user id "" is not written into a payload, so redeeming a token issued to it
  // leaves an unused record of no user at all.
  lemma NamelessUserGains(now: int)
    requires 0 <= now
    ensures var tok := RefreshToken("a", Some(""), "t", now + DAY);
      var es := [IssueRefresh("a", Some(""), "t", now + DAY, now), Lookup(0, tok, now), Commit(0, "b", now)];
      ValidRun(Off, Start(now), es) && !CountOk(After(Off, Start(now), es), None)
  {
    var tok := RefreshToken("a", Some(""), "t", now + DAY);
    var e1, e2, e3 := IssueRefresh("a", Some(""), "t", now + DAY, now), Lookup(0, tok, now), Commit(0, "b", now);
    var w1 := Next(Off, Start(now), e1);
    var w2 := Next(Off, w1, e2);
    var w3 := Next(Off, w2, e3);
    assert w2.pending[0] == LookedUp(tok, false);
    assert Redeems(w2.s, tok, false, now);
    assert w3.s.records["b"] == Record(None, "t", now + REFRESH_LIFETIME, false);
    assert "b" in UnusedOf(w3, None);
    assert DirectOf(w3, None) == {};
    var es := [e1, e2, e3];
    assert es[1..] == [e2, e3] && [e2, e3][1..] == [e3] && [e3][1..] == [];
    assert ValidRun(Off, w3, []) && ValidRun(Off, w2, [e3]) && ValidRun(Off, w1, [e2, e3]);
    assert After(Off, w3, []) == w3;
    assert After(Off, w2, [e3]) == After(Off, w3, []);
    assert After(Off, w1, [e2, e3]) == After(Off, w2, [e3]);
    assert After(Off, Start(now), es) == After(Off, w1, [e2, e3]);
  }

  // For users to whom refresh tokens are issued, and any user: over all runs the unused
  // records of the one stay within the refresh tokens issued to the one outside
  // `refresh_access_token`, exactly if the one is not None or the empty id is not among
  // those issued to.
  lemma UnusedBoundedFor(users: iset<Option<string>>, user: Option<string>)
    ensures user.Some? || Some("") !in users <==>
      forall mode: Mode, now: int, es: seq<Event> ::
        ValidRun(mode, Start(now), es) && IssuesTo(es, users) ==> CountOk(After(mode, Start(now), es), user)
  {
    if user.Some? || Some("") !in users {
      forall mode: Mode, now: int, es: seq<Event> | ValidRun(mode, Start(now), es) && IssuesTo(es, users)
        ensures CountOk(After(mode, Start(now), es), user)
      {
        assert UnusedOf(Start(now), user) == {};
        CountRun(mode, Start(now), es, users, user);
      }
    } else {
      NamelessUserGains(0);
    }
  }

  // The bound holds for every user on every run that issues refresh tokens only to these
  // users, exactly when the empty id is not among them.
  lemma UnusedBoundedExactly(users: iset<Option<string>>)
    ensures Some("") !in users <==>
      forall mode: Mode, now: int, es: seq<Event>, user: Option<string> ::
        ValidRun(mode, Start(now), es) && IssuesTo(es, users) ==> CountOk(After(mode, Start(now), es), user)
  {
    UnusedBoundedFor(users, None);
    if Some("") !in users {
      forall mode: Mode, now: int, es: seq<Event>, user: Option<string> |
        ValidRun(mode, Start(now), es) && IssuesTo(es, users)
        ensures CountOk(After(mode, Start(now), es), user)
      {
        UnusedBoundedFor(users, user);
      }
    }
  }

  /******* Revoked tokens *******/

  // A refresh token whose record is gone or used.
  predicate Spent(w: World, tok: Token) {
    tok.kind == Refresh && (tok.jti !in w.s.records || w.s.records[tok.jti].used)
  }

  // Kept out by the blacklist until less than a second before expiry, or spent.
  ghost predicate Out(mode: Mode, w: World, tok: Token) {
    && tok.authentic && Genuine(w, tok) && tok.jti != ""
    && match mode
       case Off => false
       case Local => tok.jti in w.s.local
       case Store =>
         || Spent(w, tok)
         || (tok.jti in w.s.store && w.s.store[tok.jti] > tok.exp - SECOND)
         || w.clock > tok.exp - SECOND
  }

  // A later revocation that names the id of a usable token with an expiry of its own, and
  // so replaces the entry by one that ends a second or more before the token does.
  predicate Reopens(w: World, e: Event, tok: Token) {
    && e.RevokeOne? && e.jti == tok.jti && !Spent(w, tok)
    && EntryEnd(Given(e.exp), e.now).Some? && EntryEnd(Given(e.exp), e.now).value <= tok.exp - SECOND
  }

  ghost predicate NeverReopens(w: World, es: seq<Event>, tok: Token)
    requires ValidRun(Store, w, es)
    decreases |es|
  {
    es == [] || (!Reopens(w, es[0], tok) && NeverReopens(Next(Store, w, es[0]), es[1..], tok))
  }

  // At some moment of the run the token would be accepted, then or later, as things are,
  // a second or more before its expiry.
  ghost predicate AcceptedOnTheWay(w: World, es: seq<Event>, tok: Token)
    requires ValidRun(Store, w, es)
    decreases |es|
  {
    || (exists t :: w.clock <= t <= tok.exp - SECOND && Validate(Store, w.s, tok, t) == Valid)
    || (es != [] && AcceptedOnTheWay(Next(Store, w, es[0]), es[1..], tok))
  }

  lemma RevokedIsOut(mode: Mode, w: World, tok: Token, now: int)
    requires Ledger(w) && tok.authentic && Genuine(w, tok) && mode != Off
    requires Enabled(w, RevokeOne(tok.jti, Some(tok.exp), now))
    ensures Out(mode, Next(mode, w, RevokeOne(tok.jti, Some(tok.exp), now)), tok)
  {
  }

  lemma OutCommit(mode: Mode, w: World, e: Event, tok: Token)
    requires RecordsOk(w) && RedeemedAuthentic(w) && Enabled(w, e) && Out(mode, w, tok)
    requires e.Commit?
    ensures Out(mode, Next(mode, w, e), tok)
  {
  }

  lemma OutListing(mode: Mode, w: World, e: Event, tok: Token)
    requires RecordsOk(w) && RedeemedAuthentic(w) && Enabled(w, e) && Out(mode, w, tok)
    requires (e.RevokeOne? && (mode == Store ==> !Reopens(w, e, tok))) || e.RevokeNext? || e.ListOld?
    ensures Out(mode, Next(mode, w, e), tok)
  {
  }

  lemma OutStep(mode: Mode, w: World, e: Event, tok: Token)
    requires RecordsOk(w) && RedeemedAuthentic(w) && Enabled(w, e) && Out(mode, w, tok)
    requires mode == Store ==> !Reopens(w, e, tok)
    ensures Out(mode, Next(mode, w, e), tok)
  {
    if e.Commit? {
      OutCommit(mode, w, e, tok);
    } else if e.RevokeOne? || e.RevokeNext? || e.ListOld? {
      OutListing(mode, w, e, tok);
    }
  }

  lemma ReopenedIsAccepted(w: World, e: Event, tok: Token)
    requires RecordsOk(w) && tok.authentic && Genuine(w, tok) && Enabled(w, e) && Reopens(w, e, tok)
    ensures var t := EntryEnd(Given(e.exp), e.now).value;
      Next(Store, w, e).clock <= t <= tok.exp - SECOND && Validate(Store, Next(Store, w, e).s, tok, t) == Valid
  {
    assert tok.kind == Refresh ==> w.issued[tok.jti].exp <= w.s.records[tok.jti].expiresAt;
  }

  lemma {:induction false} OutExactly(w: World, es: seq<Event>, tok: Token)
    requires RecordsOk(w) && RedeemedAuthentic(w) && ValidRun(Store, w, es) && Out(Store, w, tok)
    ensures NeverReopens(w, es, tok) <==> !AcceptedOnTheWay(w, es, tok)
    decreases |es|
  {
    if es != [] {
      RecordsStep(Store, w, es[0]);
      AuthenticStep(Store, w, es[0]);
      if Reopens(w, es[0], tok) {
        ReopenedIsAccepted(w, es[0], tok);
      } else {
        OutStep(Store, w, es[0], tok);
        OutExactly(Next(Store, w, es[0]), es[1..], tok);
      }
    }
  }

  // On every continuation of every run, a token revoked with its own expiry is not
  // accepted a second or more before that expiry, in spite of the truncated lifetime of
  // its entry, exactly when no later revocation names its id, while it is usable, with an
  // expiry whose entry ends a second or more earlier than the token.
  lemma RevokedStaysOutExactly(w: World, tok: Token, now: int, es: seq<Event>)
    requires Reachable(Store, w) && tok.authentic && Genuine(w, tok)
    requires Enabled(w, RevokeOne(tok.jti, Some(tok.exp), now))
    requires ValidRun(Store, Next(Store, w, RevokeOne(tok.jti, Some(tok.exp), now)), es)
    ensures var w1 := Next(Store, w, RevokeOne(tok.jti, Some(tok.exp), now));
      NeverReopens(w1, es, tok) <==> !AcceptedOnTheWay(w1, es, tok)
  {
    ReachableIsSound(Store, w);
    RecordsStep(Store, w, RevokeOne(tok.jti, Some(tok.exp), now));
    AuthenticStep(Store, w, RevokeOne(tok.jti, Some(tok.exp), now));
    RevokedIsOut(Store, w, tok, now);
    OutExactly(Next(Store, w, RevokeOne(tok.jti, Some(tok.exp), now)), es, tok);
  }

  lemma {:induction false} OutRun(mode: Mode, w: World, es: seq<Event>, tok: Token)
    requires RecordsOk(w) && RedeemedAuthentic(w) && ValidRun(mode, w, es) && Out(mode, w, tok)
    requires mode == Store ==> NeverReopens(w, es, tok)
    ensures Out(mode, After(mode, w, es), tok)
    decreases |es|
  {
    if es != [] {
      RecordsStep(mode, w, es[0]);
      AuthenticStep(mode, w, es[0]);
      OutStep(mode, w, es[0], tok);
      OutRun(mode, Next(mode, w, es[0]), es[1..], tok);
    }
  }

  // In memory a revoked token is out for good, whoever names its id afterwards; in the
  // store at the end of every run without such a revocation, and from its expiry on.
  lemma RevokedStaysOut(mode: Mode, w: World, tok: Token, now: int, es: seq<Event>, t: int)
    requires mode != Off && Reachable(mode, w) && tok.authentic && Genuine(w, tok)
    requires Enabled(w, RevokeOne(tok.jti, Some(tok.exp), now))
    requires ValidRun(mode, Next(mode, w, RevokeOne(tok.jti, Some(tok.exp), now)), es)
    requires mode == Store ==> NeverReopens(Next(mode, w, RevokeOne(tok.jti, Some(tok.exp), now)), es, tok)
    requires After(mode, Next(mode, w, RevokeOne(tok.jti, Some(tok.exp), now)), es).clock <= t
    requires mode == Store ==> t <= tok.exp - SECOND || tok.exp <= t
    ensures Validate(mode, After(mode, Next(mode, w, RevokeOne(tok.jti, Some(tok.exp), now)), es).s, tok, t) != Valid
  {
    ReachableIsSound(mode, w);
    RecordsStep(mode, w, RevokeOne(tok.jti, Some(tok.exp), now));
    AuthenticStep(mode, w, RevokeOne(tok.jti, Some(tok.exp), now));
    RevokedIsOut(mode, w, tok, now);
    OutRun(mode, Next(mode, w, RevokeOne(tok.jti, Some(tok.exp), now)), es, tok);
  }

  // A token of an hour is revoked, and again under its id with an expiry two seconds away,
  // which needs no signature: ten seconds later it is accepted. A token of three days
  // revoked again without an expiry is accepted after two days.
  lemma SecondRevocationReopens()
    ensures var tok := Token("a", None, "t", Access, HOUR, true);
      var es := [IssueOther(tok, 0), RevokeOne("a", Some(HOUR), 0), RevokeOne("a", Some(2 * SECOND), 0)];
      ValidRun(Store, Start(0), es) && Validate(Store, After(Store, Start(0), es).s, tok, 10 * SECOND) == Valid
    ensures var tok := Token("a", None, "t", Access, 3 * DAY, true);
      var es := [IssueOther(tok, 0), RevokeOne("a", Some(3 * DAY), 0), RevokeOne("a", None, 0)];
      ValidRun(Store, Start(0), es) && Validate(Store, After(Store, Start(0), es).s, tok, 2 * DAY) == Valid
  {
    RevokedTwice(HOUR, Some(2 * SECOND));
    RevokedTwice(3 * DAY, None);
  }

  lemma RevokedTwice(exp: int, again: Option<int>)
    requires exp > 0
    ensures var tok := Token("a", None, "t", Access, exp, true);
      var es := [IssueOther(tok, 0), RevokeOne("a", Some(exp), 0), RevokeOne("a", again, 0)];
      && ValidRun(Store, Start(0), es)
      && After(Store, Start(0), es).s ==
         RevokeToken(Store, RevokeToken(Store, Start(0).s, "a", Some(exp), 0), "a", again, 0)
  {
    var tok := Token("a", None, "t", Access, exp, true);
    var e1, e2, e3 := IssueOther(tok, 0), RevokeOne("a", Some(exp), 0), RevokeOne("a", again, 0);
    var w1 := Next(Store, Start(0), e1);
    var w2 := Next(Store, w1, e2);
    var w3 := Next(Store, w2, e3);
    var es := [e1, e2, e3];
    assert es[1..] == [e2, e3] && [e2, e3][1..] == [e3] && [e3][1..] == [];
    assert ValidRun(Store, w3, []) && ValidRun(Store, w2, [e3]) && ValidRun(Store, w1, [e2, e3]);
    assert After(Store, w3, []) == w3;
    assert After(Store, w2, [e3]) == After(Store, w3, []);
    assert After(Store, w1, [e2, e3]) == After(Store, w2, [e3]);
    assert After(Store, Start(0), es) == After(Store, w1, [e2, e3]);
  }

  /******* Revoking a user *******/

  ghost predicate Gone(w: World, j: string) {
    j in w.issued && w.issued[j].kind == Refresh && w.issued[j].jti == j && j !in w.s.records
  }

  lemma GoneStep(mode: Mode, w: World, e: Event, j: string)
    requires Enabled(w, e) && Gone(w, j)
    ensures Gone(Next(mode, w, e), j) && Next(mode, w, e).issued[j] == w.issued[j]
  {
  }

  lemma {:induction false} GoneRun(mode: Mode, w: World, es: seq<Event>, j: string)
    requires Gone(w, j) && ValidRun(mode, w, es)
    ensures Gone(After(mode, w, es), j) && After(mode, w, es).issued[j] == w.issued[j]
    decreases |es|
  {
    if es != [] {
      GoneStep(mode, w, es[0], j);
      GoneRun(mode, Next(mode, w, es[0]), es[1..], j);
    }
  }

  // Of what a loop collected, only what it has still to reach can have a record.
  ghost predicate LoopOk(w: World, call: nat) {
    && call in w.loops
    && w.loops[call].left <= w.loops[call].ids
    && (forall j :: j in w.loops[call].ids ==> j in w.issued && w.issued[j].kind == Refresh && w.issued[j].jti == j)
    && (forall j :: j in w.loops[call].ids && j in w.s.records ==> j in w.loops[call].left)
  }

  lemma LoopCommit(mode: Mode, w: World, e: Event, call: nat)
    requires Ledger(w) && Enabled(w, e) && LoopOk(w, call) && e.Commit?
    ensures LoopOk(Next(mode, w, e), call) && Next(mode, w, e).loops[call].ids == w.loops[call].ids
  {
  }

  lemma LoopStep(mode: Mode, w: World, e: Event, call: nat)
    requires Ledger(w) && Enabled(w, e) && LoopOk(w, call)
    ensures LoopOk(Next(mode, w, e), call) && Next(mode, w, e).loops[call].ids == w.loops[call].ids
  {
    if e.Commit? { LoopCommit(mode, w, e, call); }
  }

  lemma {:induction false} LoopRun(mode: Mode, w: World, es: seq<Event>, call: nat)
    requires RecordsOk(w) && ValidRun(mode, w, es) && LoopOk(w, call)
    ensures LoopOk(After(mode, w, es), call) && After(mode, w, es).loops[call].ids == w.loops[call].ids
    decreases |es|
  {
    if es != [] {
      RecordsStep(mode, w, es[0]);
      LoopStep(mode, w, es[0], call);
      LoopRun(mode, Next(mode, w, es[0]), es[1..], call);
    }
  }

  // A refresh token issued to the user before the call of `revoke_all_user_tokens` is not
  // accepted or redeemed any more once the loop has passed it, or if it had no record when
  // the loop began; whatever happens meanwhile, and whatever a blacklist lookup made
  // earlier said.
  lemma RevokedUserStaysOut(mode: Mode, w: World, call: nat, user: Option<string>, now: int, es: seq<Event>, j: string,
      listed: bool, t: int)
    requires Reachable(mode, w) && Enabled(w, RevokeBegin(call, user, now))
    requires ValidRun(mode, Next(mode, w, RevokeBegin(call, user, now)), es)
    requires var w' := After(mode, Next(mode, w, RevokeBegin(call, user, now)), es);
      call in w'.loops ==> j !in w'.loops[call].left
    requires j in w.owner && w.owner[j] == user && j in w.issued
    ensures Judge(After(mode, Next(mode, w, RevokeBegin(call, user, now)), es).s, w.issued[j], listed, t) != Valid
  {
    ReachableIsSound(mode, w);
    var w1 := Next(mode, w, RevokeBegin(call, user, now));
    RecordsStep(mode, w, RevokeBegin(call, user, now));
    if j in w.s.records {
      LoopRun(mode, w1, es, call);
    } else {
      assert Gone(w1, j);
      GoneRun(mode, w1, es, j);
    }
  }

  /******* What survives a revocation of all tokens *******/

  // No cleanup, and no other loop takes its turn.
  predicate Undisturbed(e: Event, call: nat) {
    !e.Sweep? && (e.RevokeNext? ==> e.call == call)
  }

  // The user's records are those the loop has still to reach and those issued since.
  ghost predicate Surviving(w: World, call: nat, user: Option<string>, before: set<string>) {
    && call in w.loops && !w.loops[call].failed && w.loops[call].user == user
    && w.loops[call].left <= before <= w.issued.Keys
    && forall j :: j in w.s.records && w.s.records[j].user == user <==>
         j in w.loops[call].left || (j in w.owner && w.owner[j] == user && j !in before)
  }

  lemma SurvivingCommit(mode: Mode, w: World, e: Event, call: nat, user: Option<string>, before: set<string>)
    requires RecordsOk(w) && Enabled(w, e) && Undisturbed(e, call) && Surviving(w, call, user, before) && e.Commit?
    ensures Surviving(Next(mode, w, e), call, user, before)
  {
  }

  lemma SurvivingStep(mode: Mode, w: World, e: Event, call: nat, user: Option<string>, before: set<string>)
    requires RecordsOk(w) && Enabled(w, e) && Undisturbed(e, call) && Surviving(w, call, user, before)
    ensures Surviving(Next(mode, w, e), call, user, before)
  {
    if e.Commit? { SurvivingCommit(mode, w, e, call, user, before); }
  }

  lemma {:induction false} SurvivingRun(mode: Mode, w: World, es: seq<Event>, call: nat, user: Option<string>,
      before: set<string>)
    requires RecordsOk(w) && ValidRun(mode, w, es) && Surviving(w, call, user, before)
    requires forall e :: e in es ==> Undisturbed(e, call)
    ensures Surviving(After(mode, w, es), call, user, before)
    decreases |es|
  {
    if es != [] {
      assert es[0] in es;
      RecordsStep(mode, w, es[0]);
      SurvivingStep(mode, w, es[0], call, user, before);
      SurvivingRun(mode, Next(mode, w, es[0]), es[1..], call, user, before);
    }
  }

  // With issuing, redeeming and single revocations in between, but no cleanup and no other
  // loop, the call does not give up; and a token of the user, whenever issued, has a record
  // afterwards exactly if the loop has still to reach it or it was issued since the call
  // began, directly or for one redeemed meanwhile.
  lemma SurvivorsExactly(mode: Mode, w: World, call: nat, user: Option<string>, now: int, es: seq<Event>)
    requires Reachable(mode, w) && Enabled(w, RevokeBegin(call, user, now))
    requires ValidRun(mode, Next(mode, w, RevokeBegin(call, user, now)), es)
    requires forall e :: e in es ==> Undisturbed(e, call)
    ensures var w' := After(mode, Next(mode, w, RevokeBegin(call, user, now)), es);
      && call in w'.loops && !w'.loops[call].failed
      && forall j :: j in w'.s.records && w'.s.records[j].user == user <==>
           j in w'.loops[call].left || (j in w'.owner && w'.owner[j] == user && j !in w.issued)
  {
    ReachableIsSound(mode, w);
    var w1 := Next(mode, w, RevokeBegin(call, user, now));
    RecordsStep(mode, w, RevokeBegin(call, user, now));
    assert forall j :: j in w.owner ==> j in w.issued;
    assert Surviving(w1, call, user, w.issued.Keys);
    SurvivingRun(mode, w1, es, call, user, w.issued.Keys);
  }

  lemma Prepend(mode: Mode, w: World, e: Event, rest: seq<Event>)
    requires Enabled(w, e) && ValidRun(mode, Next(mode, w, e), rest)
    ensures ValidRun(mode, w, [e] + rest) && After(mode, w, [e] + rest) == After(mode, Next(mode, w, e), rest)
  {
    assert ([e] + rest)[1..] == rest;
  }

  lemma ThreeEvents(mode: Mode, w: World, e1: Event, e2: Event, e3: Event)
    requires Enabled(w, e1)
    requires Enabled(Next(mode, w, e1), e2)
    requires Enabled(Next(mode, Next(mode, w, e1), e2), e3)
    ensures ValidRun(mode, w, [e1, e2, e3])
    ensures After(mode, w, [e1, e2, e3]) == Next(mode, Next(mode, Next(mode, w, e1), e2), e3)
  {
    var w1 := Next(mode, w, e1);
    var w2 := Next(mode, w1, e2);
    Prepend(mode, w2, e3, []);
    Prepend(mode, w1, e2, [e3] + []);
    Prepend(mode, w, e1, [e2] + ([e3] + []));
    assert [e1] + ([e2] + ([e3] + [])) == [e1, e2, e3];
  }

  // What two tokens, a call, a cleanup and the first turn of the loop lead to.
  lemma InterruptedLoop(mode: Mode, w: World)
    requires w.s.records == map["a" := Record(None, "t", SECOND, false), "b" := Record(None, "t", HOUR, false)]
    requires w.s.local == {} && w.s.store == map[] && w.loops == map[] && 0 <= w.clock <= SECOND
    ensures var es := [RevokeBegin(0, None, SECOND), Sweep(MINUTE), RevokeNext(0, "a", MINUTE)];
      && ValidRun(mode, w, es)
      && var w' := After(mode, w, es);
      && w'.loops == map[0 := Loop(None, {"a", "b"}, {"a", "b"}, true)]
      && w'.s == State(map["b" := Record(None, "t", HOUR, false)], {}, map[])
  {
    var e1, e2, e3 := RevokeBegin(0, None, SECOND), Sweep(MINUTE), RevokeNext(0, "a", MINUTE);
    var w1 := Next(mode, w, e1);
    assert RecordsOf(w.s, None) == {"a", "b"};
    var w2 := Next(mode, w1, e2);
    assert w2.s.records == map["b" := Record(None, "t", HOUR, false)];
    assert w2.loops == map[0 := Loop(None, {"a", "b"}, {"a", "b"}, false)];
    ThreeEvents(mode, w, e1, e2, e3);
  }

  // A cleanup in between makes the call give up at the record it has removed, and leaves
  // the user's other tokens as they were.
  lemma CleanupInterruptsLoop(mode: Mode)
    ensures var es := [IssueRefresh("a", None, "t", SECOND, 0), IssueRefresh("b", None, "t", HOUR, 0)] +
        [RevokeBegin(0, None, SECOND), Sweep(MINUTE), RevokeNext(0, "a", MINUTE)];
      && ValidRun(mode, Start(0), es)
      && var w := After(mode, Start(0), es);
      && 0 in w.loops && w.loops[0].failed && Validate(mode, w.s, RefreshToken("b", None, "t", HOUR), MINUTE) == Valid
  {
    var e1, e2 := IssueRefresh("a", None, "t", SECOND, 0), IssueRefresh("b", None, "t", HOUR, 0);
    var rest := [RevokeBegin(0, None, SECOND), Sweep(MINUTE), RevokeNext(0, "a", MINUTE)];
    var w1 := Next(mode, Start(0), e1);
    var w2 := Next(mode, w1, e2);
    InterruptedLoop(mode, w2);
    Prepend(mode, w1, e2, rest);
    Prepend(mode, Start(0), e1, [e2] + rest);
    assert [e1] + ([e2] + rest) == [e1, e2] + rest;
  }

  // Removing expired records changes the status of no token at any later time.
  lemma CleanupChangesNothing(mode: Mode, w: World, tok: Token, listed: bool, now: int, t: int)
    requires Reachable(mode, w) && Genuine(w, tok) && now <= t
    ensures Judge(CleanupRecords(w.s, now), tok, listed, t) == Judge(w.s, tok, listed, t)
  {
    ReachableIsSound(mode, w);
  }
}
