/** What the token manager's calls answer and change, on the fields of tokens and records and
    with the numbers written out. */
module TokenMeaning {
  import opened Prelude
  import opened Tokens
  import opened TokenRuns

  const A_SECOND: int := 1_000_000
  const A_DAY: int := 86_400_000_000

  /******* Answers *******/

  predicate Listed(mode: Mode, s: State, jti: string, now: int) {
    jti != "" && ((mode == Local && jti in s.local) || (mode == Store && jti in s.store && now < s.store[jti]))
  }

  // There is a record of the refresh token, not used, and not past its expiry.
  predicate OnRecord(s: State, tok: Token, now: int) {
    && tok.jti != "" && tok.jti in s.records
    && s.records[tok.jti].used == false && now <= s.records[tok.jti].expiresAt
  }

  // A listed token is blacklisted, whatever else; of the others one with a foreign signature
  // is invalid, one with a good signature expired from its expiry on; and of those left a
  // refresh token is invalid without a record, and everything else valid.
  lemma StatusExactly(mode: Mode, s: State, tok: Token, now: int)
    ensures Validate(mode, s, tok, now) == Blacklisted <==> Listed(mode, s, tok.jti, now)
    ensures Validate(mode, s, tok, now) == ExpiredToken <==>
      !Listed(mode, s, tok.jti, now) && tok.authentic && tok.exp <= now
    ensures Validate(mode, s, tok, now) == Valid <==>
      !Listed(mode, s, tok.jti, now) && tok.authentic && now < tok.exp && (tok.kind == Refresh ==>
        OnRecord(s, tok, now))
  {
  }

  /******* Issuing *******/

  // The expiry in the payload is the whole second before the one recorded.
  predicate WholeSecondOf(exp: int, expiresAt: int) {
    exp % A_SECOND == 0 && exp <= expiresAt < exp + A_SECOND
  }

  // Issuing records the token as unused under its id, with user, tenant and expiry; the
  // payload carries the user unless that is the empty id. Nothing else changes.
  lemma IssueExactly(mode: Mode, w: World, jti: string, user: Option<string>, tenant: string, expiresAt: int, now: int)
    requires Enabled(w, IssueRefresh(jti, user, tenant, expiresAt, now))
    ensures var w' := Next(mode, w, IssueRefresh(jti, user, tenant, expiresAt, now));
      && w'.s == w.s.(records := w.s.records[jti := Record(user, tenant, expiresAt, false)])
      && var tok := w'.issued[jti];
      && tok.jti == jti && tok.tenant == tenant && tok.kind == Refresh && tok.authentic
      && tok.user == (if user == Some("") then None else user) && WholeSecondOf(tok.exp, expiresAt)
  {
  }

  /******* Redeeming *******/

  predicate MayRedeem(w: World, call: nat, now: int)
    requires call in w.pending && w.pending[call].LookedUp?
  {
    var tok := w.pending[call].tok;
    !w.pending[call].listed && tok.authentic && tok.kind == Refresh && now < tok.exp && OnRecord(w.s, tok, now)
  }

  // A refresh goes through exactly if its lookup found nothing and the token is a refresh
  // token of the manager's, not expired, on record and unused. Then its record is used, and
  // a record for the same user and tenant, unused and good for seven days, is made under the
  // new id. Otherwise no record changes; and the lists never do.
  lemma RedeemExactly(mode: Mode, w: World, call: nat, newJti: string, now: int)
    requires Enabled(w, Commit(call, newJti, now))
    ensures var w', tok := Next(mode, w, Commit(call, newJti, now)), w.pending[call].tok;
      w'.s == if !MayRedeem(w, call, now) then w.s
        else w.s.(records := w.s.records[tok.jti := w.s.records[tok.jti].(used := true)]
                                        [newJti := Record(tok.user, tok.tenant, now + 7 * A_DAY, false)])
  {
  }

  // With it goes a token for the same user and tenant; and only a redemption is noted.
  lemma RedeemIssues(mode: Mode, w: World, call: nat, newJti: string, now: int)
    requires Enabled(w, Commit(call, newJti, now))
    ensures var w', tok := Next(mode, w, Commit(call, newJti, now)), w.pending[call].tok;
      if !MayRedeem(w, call, now) then w'.issued == w.issued && w'.redeemed == w.redeemed
      else
        && w'.issued.Keys == w.issued.Keys + {newJti} && w'.redeemed == w.redeemed + [tok.jti]
        && var t := w'.issued[newJti];
        && t.jti == newJti && t.tenant == tok.tenant && t.kind == Refresh && t.authentic
        && t.user == (if tok.user == Some("") then None else tok.user) && WholeSecondOf(t.exp, now + 7 * A_DAY)
  {
  }

  // The lookup of a refresh finds out whether the token is listed then, and changes nothing.
  lemma LookupExactly(mode: Mode, w: World, call: nat, tok: Token, now: int)
    requires Enabled(w, Lookup(call, tok, now))
    ensures var w' := Next(mode, w, Lookup(call, tok, now));
      w'.s == w.s && w'.pending[call] == LookedUp(tok, Listed(mode, w.s, tok.jti, now))
  {
  }

  /******* Listing *******/

  // An entry made for an expiry lasts a whole number of seconds and ends less than a second
  // before it; there is none for an expiry less than a second away.
  predicate EntryFor(end: Option<int>, expiresAt: int, now: int) {
    if expiresAt - now < A_SECOND then end == None
    else end.Some? && (end.value - now) % A_SECOND == 0 && end.value <= expiresAt < end.value + A_SECOND
  }

  // What listing an id does: in memory it is listed for good; in the store until that end,
  // or for a day if no expiry is given; and nothing else changes.
  ghost predicate ListsAs(mode: Mode, s: State, s': State, jti: string, expiresAt: Option<int>, now: int) {
    match mode
    case Off => s' == s
    case Local => s' == s.(local := s.local + {jti})
    case Store =>
      if expiresAt == None then s' == s.(store := s.store[jti := now + A_DAY])
      else
        (exists end: Option<int> ::
           EntryFor(end, expiresAt.value, now)
             && s' == if end == None then s else s.(store := s.store[jti := end.value]))
  }

  lemma BlacklistLists(mode: Mode, s: State, jti: string, expiresAt: Option<int>, now: int)
    ensures ListsAs(mode, s, Blacklist(mode, s, jti, expiresAt, now), jti, expiresAt, now)
  {
    if expiresAt.Some? {
      assert EntryFor(EntryEnd(expiresAt, now), expiresAt.value, now);
    }
  }

  // A revocation lists the id named, unless that is empty, with the expiry named, where 0 is
  // none; whoever names them.
  lemma RevokeExactly(mode: Mode, w: World, jti: string, exp: Option<int>, now: int)
    requires Enabled(w, RevokeOne(jti, exp, now))
    ensures var w' := Next(mode, w, RevokeOne(jti, exp, now));
      && w'.issued == w.issued && w'.pending == w.pending
      && (if jti == "" then w'.s == w.s
          else ListsAs(mode, w.s, w'.s, jti, if exp == Some(0) then None else exp, now))
  {
    BlacklistLists(mode, w.s, jti, if exp == Some(0) then None else exp, now);
  }

  // The end of a refresh lists the redeemed token until its expiry.
  lemma ListOldExactly(mode: Mode, w: World, call: nat, now: int)
    requires Enabled(w, ListOld(call, now))
    ensures var tok := w.pending[call].tok;
      ListsAs(mode, w.s, Next(mode, w, ListOld(call, now)).s, tok.jti, Some(tok.exp), now)
  {
    var tok := w.pending[call].tok;
    BlacklistLists(mode, w.s, tok.jti, Some(tok.exp), now);
  }

  /******* Revoking all tokens of a user, and cleaning up *******/

  // The call collects the ids on record for the user and changes nothing yet.
  lemma RevokeBeginExactly(mode: Mode, w: World, call: nat, user: Option<string>, now: int)
    requires Enabled(w, RevokeBegin(call, user, now))
    ensures var w' := Next(mode, w, RevokeBegin(call, user, now));
      && w'.s == w.s && call in w'.loops && !w'.loops[call].failed && w'.loops[call].left == w'.loops[call].ids
      && forall j :: j in w'.loops[call].ids <==> j in w.s.records && w.s.records[j].user == user
  {
  }

  // A turn takes the record away and lists the id for a day; without a record the call
  // gives up and nothing changes.
  lemma RevokeTurnExactly(mode: Mode, w: World, call: nat, jti: string, now: int)
    requires Enabled(w, RevokeNext(call, jti, now))
    ensures var w' := Next(mode, w, RevokeNext(call, jti, now));
      if jti in w.s.records then
        && w'.s.records == w.s.records - {jti}
        && ListsAs(mode, w.s.(records := w.s.records - {jti}), w'.s, jti, None, now)
        && w'.loops[call] == w.loops[call].(left := w.loops[call].left - {jti})
      else w'.s == w.s && w'.loops[call] == w.loops[call].(failed := true)
  {
    BlacklistLists(mode, w.s.(records := w.s.records - {jti}), jti, None, now);
  }

  // Without anything in between the loop takes all records of the user away, and lists
  // their ids: in memory for good, in the store for a day.
  lemma RevokeAllExactly(mode: Mode, s: State, user: Option<string>, now: int)
    ensures var s' := RevokeUser(mode, s, user, now);
      && (forall j :: j in s'.records <==> j in s.records && s.records[j].user != user)
      && (forall j :: j in s'.records ==> s'.records[j] == s.records[j])
      && (forall j :: j in s'.local <==> j in s.local || (mode == Local && HasRecord(s, j, user)))
      && (forall j :: j in s'.store <==> j in s.store || (mode == Store && HasRecord(s, j, user)))
      && (forall j :: j in s'.store ==>
            s'.store[j] == if mode == Store && HasRecord(s, j, user) then now + A_DAY else s.store[j])
  {
  }

  predicate HasRecord(s: State, jti: string, user: Option<string>) {
    jti in s.records && s.records[jti].user == user
  }

  // A cleanup takes away the records past their expiry, and nothing else.
  lemma CleanupExactly(mode: Mode, w: World, now: int)
    requires Enabled(w, Sweep(now))
    ensures var w' := Next(mode, w, Sweep(now));
      && w'.s == w.s.(records := w'.s.records)
      && (forall j :: j in w'.s.records <==> j in w.s.records && now <= w.s.records[j].expiresAt)
      && (forall j :: j in w'.s.records ==> w'.s.records[j] == w.s.records[j])
  {
  }

  /******* Calls under way *******/

  // A refresh that went through is under way until it has listed the old token, one that did
  // not is over; no other event ends a refresh, and only a lookup begins one.
  lemma CallsExactly(mode: Mode, w: World, e: Event)
    requires Enabled(w, e)
    ensures var w' := Next(mode, w, e);
      w'.pending ==
        match e
        case Lookup(call, tok, now) => w.pending[call := LookedUp(tok, Listed(mode, w.s, tok.jti, now))]
        case Commit(call, _, now) =>
          if MayRedeem(w, call, now) then w.pending[call := Redeemed(w.pending[call].tok)] else w.pending - {call}
        case ListOld(call, _) => w.pending - {call}
        case _ => w.pending
    ensures Next(mode, w, e).clock == e.now
  {
  }

  // Other tokens leave no record, but are among those issued.
  lemma IssueOtherExactly(mode: Mode, w: World, tok: Token, now: int)
    requires Enabled(w, IssueOther(tok, now))
    ensures var w' := Next(mode, w, IssueOther(tok, now));
      w'.s == w.s && w'.issued == w.issued[tok.jti := tok]
  {
  }
}
