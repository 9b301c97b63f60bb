/** Refresh tokens that may be redeemed once, and the blacklist whose entries live for a
    whole number of seconds. A token is its payload; `authentic` says that its signature
    is the manager's own. */
module Tokens {
  import opened Prelude

  datatype TokenType = Access | Refresh | ServiceToken | BackgroundTask | ApiKey

  datatype Token = Token(
    jti: string,
    user: Option<string>,
    tenant: string,
    kind: TokenType,
    exp: int,
    authentic: bool)

  datatype Record = Record(user: Option<string>, tenant: string, expiresAt: int, used: bool)

  // No blacklist, the in-memory set, or a store whose entries disappear by themselves.
  datatype Mode = Off | Local | Store

  datatype State = State(
    records: map<string, Record>,   // refresh tokens by id
    local: set<string>,
    store: map<string, int>)        // id -> the instant its entry disappears

  datatype Status = Valid | ExpiredToken | Blacklisted | Invalid

  const DEFAULT_TTL: int := 86400 * SECOND
  const REFRESH_LIFETIME: int := 7 * DAY

  // Payload times are whole seconds; the clock is past 1970, so truncation rounds down.
  function WholeSeconds(t: int): int {
    t / SECOND * SECOND
  }

  // An empty user id does not get into the payload.
  function PayloadUser(user: Option<string>): Option<string> {
    if user == Some("") then None else user
  }

  /******* Blacklist *******/

  predicate IsBlacklisted(mode: Mode, s: State, jti: string, now: int) {
    match mode
    case Off => false
    case Local => jti != "" && jti in s.local
    case Store => jti != "" && jti in s.store && now < s.store[jti]
  }

  // The instant an entry made now would disappear; None if none is made.
  function EntryEnd(expiresAt: Option<int>, now: int): Option<int> {
    if expiresAt.None? then Some(now + DEFAULT_TTL)
    else
      var ttl := (expiresAt.value - now) / SECOND;
      if ttl > 0 then Some(now + ttl * SECOND) else None
  }

  // A new entry replaces one that is there, also one that would have lasted longer.
  function Blacklist(mode: Mode, s: State, jti: string, expiresAt: Option<int>, now: int): State {
    match mode
    case Off => s
    case Local => s.(local := s.local + {jti})
    case Store =>
      (match EntryEnd(expiresAt, now)
       case None => s
       case Some(end) => s.(store := s.store[jti := end]))
  }

  /******* Validation *******/

  predicate RecordAccepts(s: State, jti: string, now: int) {
    jti != "" && jti in s.records && !s.records[jti].used && now <= s.records[jti].expiresAt
  }

  // What the blacklist lookup said is an argument: the program may be suspended after it.
  function Judge(s: State, tok: Token, listed: bool, now: int): Status {
    if listed then Blacklisted
    else if !tok.authentic then Invalid
    else if tok.exp <= now then ExpiredToken
    else if tok.kind == Refresh && !RecordAccepts(s, tok.jti, now) then Invalid
    else Valid
  }

  function Validate(mode: Mode, s: State, tok: Token, now: int): Status {
    Judge(s, tok, IsBlacklisted(mode, s, tok.jti, now), now)
  }

  /******* Issuing, redeeming, revoking *******/

  function RefreshToken(jti: string, user: Option<string>, tenant: string, expiresAt: int): Token {
    Token(jti, PayloadUser(user), tenant, Refresh, WholeSeconds(expiresAt), true)
  }

  function Issue(s: State, jti: string, user: Option<string>, tenant: string, expiresAt: int): State {
    s.(records := s.records[jti := Record(user, tenant, expiresAt, false)])
  }

  predicate Redeems(s: State, tok: Token, listed: bool, now: int) {
    Judge(s, tok, listed, now) == Valid && tok.kind == Refresh
  }

  // The stretch of a refresh from the answer of the blacklist to the new tokens.
  function Redeem(s: State, tok: Token, listed: bool, newJti: string, now: int): State {
    if !Redeems(s, tok, listed, now) then s
    else
      var s1 := s.(records := s.records[tok.jti := s.records[tok.jti].(used := true)]);
      Issue(s1, newJti, tok.user, tok.tenant, now + REFRESH_LIFETIME)
  }

  // An expiry that is absent or 0 is no expiry.
  function Given(exp: Option<int>): Option<int> {
    if exp == Some(0) then None else exp
  }

  // `revoke_token` reads id and expiry from a payload whose signature it does not verify.
  function RevokeToken(mode: Mode, s: State, jti: string, exp: Option<int>, now: int): State {
    if jti == "" then s else Blacklist(mode, s, jti, Given(exp), now)
  }

  function RecordsOf(s: State, user: Option<string>): set<string> {
    set j | j in s.records && s.records[j].user == user
  }

  // One turn of the loop of `revoke_all_user_tokens`.
  function RevokeRecord(mode: Mode, s: State, jti: string, now: int): State {
    Blacklist(mode, s.(records := s.records - {jti}), jti, None, now)
  }

  // Records go, and their ids are listed for the default period.
  function RevokeIds(mode: Mode, s: State, ids: set<string>, now: int): State {
    State(s.records - ids,
          if mode == Local then s.local + ids else s.local,
          if mode == Store then s.store + (map j | j in ids :: now + DEFAULT_TTL) else s.store)
  }

  function RevokeUser(mode: Mode, s: State, user: Option<string>, now: int): State {
    RevokeIds(mode, s, RecordsOf(s, user), now)
  }

  function ExpiredRecords(s: State, now: int): set<string> {
    set j | j in s.records && now > s.records[j].expiresAt
  }

  function CleanupRecords(s: State, now: int): State {
    s.(records := s.records - ExpiredRecords(s, now))
  }
}
