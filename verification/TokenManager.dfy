/** The token manager's tables as the program updates them, and its blacklist. */
module TokenManager {
  import opened Prelude
  import opened Tokens

  class Manager {
    const mode: Mode
    var records: map<string, Record>
    var local: set<string>
    var store: map<string, int>

    ghost function View(): State
      reads this
    {
      State(records, local, store)
    }

    constructor (mode: Mode)
      ensures this.mode == mode && View() == State(map[], {}, map[])
    {
      this.mode := mode;
      records, local, store := map[], {}, map[];
    }

    method GenerateRefreshToken(jti: string, user: Option<string>, tenant: string, expiresAt: int) returns (tok: Token)
      modifies this
      ensures View() == Issue(old(View()), jti, user, tenant, expiresAt)
      ensures tok == RefreshToken(jti, user, tenant, expiresAt)
    {
      tok := RefreshToken(jti, user, tenant, expiresAt);
      records := records[jti := Record(user, tenant, expiresAt, false)];
    }

    method LookedUpAsBlacklisted(jti: string, now: int) returns (listed: bool)
      ensures listed == IsBlacklisted(mode, View(), jti, now)
    {
      if mode == Off || jti == "" {
        return false;
      }
      if mode == Local {
        return jti in local;
      }
      return jti in store && now < store[jti];
    }

    method ValidateRefreshToken(jti: string, now: int) returns (ok: bool)
      ensures ok == RecordAccepts(View(), jti, now)
    {
      if jti == "" || jti !in records {
        return false;
      }
      var r := records[jti];
      if r.used || now > r.expiresAt {
        return false;
      }
      return true;
    }

    // `validate_token` once the blacklist has answered.
    method JudgeToken(tok: Token, listed: bool, now: int) returns (status: Status)
      ensures status == Judge(View(), tok, listed, now)
    {
      if listed {
        return Blacklisted;
      }
      if !tok.authentic {
        return Invalid;
      }
      if tok.exp <= now {
        return ExpiredToken;
      }
      if tok.kind == Refresh {
        var ok := ValidateRefreshToken(tok.jti, now);
        if !ok {
          return Invalid;
        }
      }
      return Valid;
    }

    // `refresh_access_token` from the answer of the blacklist to the new tokens.
    method RedeemRefreshToken(tok: Token, listed: bool, newJti: string, now: int) returns (successor: Option<Token>)
      modifies this
      ensures View() == Redeem(old(View()), tok, listed, newJti, now)
      ensures successor == if Redeems(old(View()), tok, listed, now)
        then Some(RefreshToken(newJti, tok.user, tok.tenant, now + REFRESH_LIFETIME)) else None
    {
      var status := JudgeToken(tok, listed, now);
      if status != Valid || tok.kind != Refresh {
        return None;
      }
      if tok.jti in records && records[tok.jti].used {
        return None;
      }
      if tok.jti in records {
        records := records[tok.jti := records[tok.jti].(used := true)];
      }
      var next := GenerateRefreshToken(newJti, tok.user, tok.tenant, now + REFRESH_LIFETIME);
      return Some(next);
    }

    method BlacklistToken(jti: string, expiresAt: Option<int>, now: int)
      modifies this`local, this`store
      ensures View() == Blacklist(mode, old(View()), jti, expiresAt, now)
    {
      if mode == Store {
        if expiresAt.Some? {
          var ttl := (expiresAt.value - now) / SECOND;
          if ttl > 0 {
            store := store[jti := now + ttl * SECOND];
          }
        } else {
          store := store[jti := now + DEFAULT_TTL];
        }
      } else if mode == Local {
        local := local + {jti};
      }
    }

    method Revoke(jti: string, exp: Option<int>, now: int) returns (ok: bool)
      modifies this`local, this`store
      ensures View() == RevokeToken(mode, old(View()), jti, exp, now)
      ensures ok == (jti != "" && mode != Off)
    {
      if jti == "" || mode == Off {
        return false;
      }
      var expiresAt: Option<int> := None;
      if exp.Some? && exp.value != 0 {
        expiresAt := exp;
      }
      BlacklistToken(jti, expiresAt, now);
      return true;
    }

    // One turn of the loop below, up to where it may be suspended; a record that is gone
    // makes the loop give up.
    method RevokeNextToken(jti: string, now: int) returns (found: bool)
      modifies this
      ensures found == (jti in old(records))
      ensures View() == if found then RevokeRecord(mode, old(View()), jti, now) else old(View())
    {
      if jti !in records {
        return false;
      }
      records := records - {jti};
      if mode != Off {
        BlacklistToken(jti, None, now);
      }
      return true;
    }

    // The loop, not interleaved with other calls.
    method RevokeAllUserTokens(user: Option<string>, now: int) returns (count: nat)
      modifies this
      ensures View() == RevokeUser(mode, old(View()), user, now)
      ensures count == |RecordsOf(old(View()), user)|
    {
      ghost var was, done := View(), {};
      var left := set j | j in records && records[j].user == user;
      ghost var doomed := left;
      RevokeNone(mode, was, now);
      count := 0;
      while left != {}
        invariant doomed == done + left && done !! left && count == |done|
        invariant View() == RevokeIds(mode, was, done, now)
        decreases left
      {
        var j :| j in left;
        RevokeOneMore(mode, was, done, j, now);
        var found := RevokeNextToken(j, now);
        left, done, count := left - {j}, done + {j}, count + 1;
      }
    }

    method CleanupExpiredRefreshTokens(now: int) returns (count: nat)
      modifies this`records
      ensures View() == CleanupRecords(old(View()), now)
      ensures count == |ExpiredRecords(old(View()), now)|
    {
      ghost var was, done := records, {};
      var left := set j | j in records && now > records[j].expiresAt;
      ghost var expired := left;
      count := 0;
      while left != {}
        invariant expired == done + left && done !! left && count == |done|
        invariant records == was - done
        decreases left
      {
        var j :| j in left;
        assert was - (done + {j}) == was - done - {j};
        records := records - {j};
        left, done, count := left - {j}, done + {j}, count + 1;
      }
    }
  }

  lemma RevokeNone(mode: Mode, s: State, now: int)
    ensures RevokeIds(mode, s, {}, now) == s
  {
    assert s.records - {} == s.records;
    var none: set<string> := {};
    assert s.store + (map i | i in none :: now + DEFAULT_TTL) == s.store;
  }

  // One turn of the loop: a record is deleted, then its id is listed.
  lemma RevokeOneMore(mode: Mode, s: State, ids: set<string>, j: string, now: int)
    ensures RevokeRecord(mode, RevokeIds(mode, s, ids, now), j, now) == RevokeIds(mode, s, ids + {j}, now)
  {
    assert s.records - ids - {j} == s.records - (ids + {j});
    assert s.local + ids + {j} == s.local + (ids + {j});
    var m, m' := map i | i in ids :: now + DEFAULT_TTL, map i | i in ids + {j} :: now + DEFAULT_TTL;
    assert (s.store + m)[j := now + DEFAULT_TTL] == s.store + m';
  }
}
