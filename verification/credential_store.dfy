/**
 * The session and revoked-token tables the authentication services call,
 * as both database layers implement them (mini_social_media/db.ts and
 * template/backend/db.ts). Time is an integer clock `now`; a row's expiry is
 * an instant on the same clock.
 *
 * The two copies agree on sessions and on `revokeToken`/`cleanupExpiredTokens`,
 * and disagree on `isTokenRevoked`: the social copy reports a revocation while
 * its record is still in force (`expires_at > now`), the template copy only once
 * it has lapsed (`expires_at < now`). Both are modelled; `IsTokenRevoked` is the
 * intended one, `TemplateIsTokenRevoked` the template copy as written.
 */
module CredentialStore {
  import opened Wrappers

  datatype Session = Session(id: string, userId: int, createdAt: int, expiresAt: int)

  datatype RevokedToken = RevokedToken(jti: string, revokedAt: int, expiresAt: int)

  /** The two tables, keyed by primary key (`sessions.id`, `revoked_tokens.jti`). */
  datatype Store = Store(sessions: map<string, Session>, revoked: map<string, RevokedToken>)

  /** Every row is filed under its own primary key. */
  ghost predicate Valid(st: Store) {
    && (forall k :: k in st.sessions ==> st.sessions[k].id == k)
    && (forall k :: k in st.revoked ==> st.revoked[k].jti == k)
  }

  const Empty: Store := Store(map[], map[])

  datatype StoreError = PrimaryKeyViolation

  // ---------------------------------------------------------------------------
  // Sessions
  // ---------------------------------------------------------------------------

  /** A session row is in force strictly before its expiry instant. */
  predicate Live(s: Session, now: int) {
    s.expiresAt > now
  }

  /** `createSession`: a plain INSERT, so an id already present is a primary-key violation. */
  function CreateSession(st: Store, userId: int, sessionId: string, expiresAt: int, now: int): (r: Result<Store, StoreError>)
    requires Valid(st)
    ensures r.Err? <==> sessionId in st.sessions
    ensures r.Ok? ==> (
      && Valid(r.value)
      && r.value.sessions == st.sessions[sessionId := Session(sessionId, userId, now, expiresAt)]
      && r.value.revoked == st.revoked)
  {
    if sessionId in st.sessions then Err(PrimaryKeyViolation)
    else Ok(st.(sessions := st.sessions[sessionId := Session(sessionId, userId, now, expiresAt)]))
  }

  /** `getSession`: the row with that id, only while it is in force. */
  function GetSession(st: Store, sessionId: string, now: int): (r: Option<Session>)
    requires Valid(st)
    ensures r.Some? <==> sessionId in st.sessions && Live(st.sessions[sessionId], now)
    ensures r.Some? ==> r.value == st.sessions[sessionId] && r.value.id == sessionId
  {
    if sessionId in st.sessions && st.sessions[sessionId].expiresAt > now then Some(st.sessions[sessionId])
    else None
  }

  /** `deleteSession`: removes the row with that id if there is one; an unknown id is not an error. */
  function DeleteSession(st: Store, sessionId: string): (r: Store)
    requires Valid(st)
    ensures Valid(r)
    ensures sessionId !in r.sessions
    ensures forall k :: k != sessionId ==> (k in r.sessions <==> k in st.sessions)
    ensures forall k :: k in r.sessions ==> r.sessions[k] == st.sessions[k]
    ensures r.revoked == st.revoked
    ensures sessionId !in st.sessions ==> r == st
  {
    st.(sessions := map k | k in st.sessions && k != sessionId :: st.sessions[k])
  }

  /** `deleteExpiredSessions`: the sweep removes exactly the rows whose expiry is at or before `now`. */
  function DeleteExpiredSessions(st: Store, now: int): (r: Store)
    requires Valid(st)
    ensures Valid(r)
    ensures forall k :: k in r.sessions <==> k in st.sessions && st.sessions[k].expiresAt > now
    ensures forall k :: k in r.sessions ==> r.sessions[k] == st.sessions[k]
    ensures r.revoked == st.revoked
  {
    st.(sessions := map k | k in st.sessions && st.sessions[k].expiresAt > now :: st.sessions[k])
  }

  /** The sweep never takes away a session `getSession` would still return, and leaves nothing it would refuse. */
  lemma SweepAgreesWithLookup(st: Store, now: int, sessionId: string)
    requires Valid(st)
    ensures GetSession(DeleteExpiredSessions(st, now), sessionId, now) == GetSession(st, sessionId, now)
    ensures sessionId in DeleteExpiredSessions(st, now).sessions <==> GetSession(st, sessionId, now).Some?
  {
  }

  /** Lookups never depend on whether the sweep ran: running it at any earlier instant changes no answer at `now`. */
  lemma {:induction false} EarlierSweepInvisible(st: Store, earlier: int, now: int, sessionId: string)
    requires Valid(st) && earlier <= now
    ensures GetSession(DeleteExpiredSessions(st, earlier), sessionId, now) == GetSession(st, sessionId, now)
  {
    var swept := DeleteExpiredSessions(st, earlier);
    if sessionId in st.sessions && st.sessions[sessionId].expiresAt > now {
      assert sessionId in swept.sessions;
    }
  }

  /** A session read back right after it was created is returned, as long as its expiry lies ahead. */
  lemma CreateThenGet(st: Store, userId: int, sessionId: string, expiresAt: int, now: int)
    requires Valid(st) && sessionId !in st.sessions && expiresAt > now
    ensures CreateSession(st, userId, sessionId, expiresAt, now).Ok?
    ensures GetSession(CreateSession(st, userId, sessionId, expiresAt, now).value, sessionId, now)
         == Some(Session(sessionId, userId, now, expiresAt))
  {
  }

  /** Logging out twice is the same as logging out once, and after it the session is gone. */
  lemma DeleteSessionIdempotent(st: Store, sessionId: string, now: int)
    requires Valid(st)
    ensures DeleteSession(DeleteSession(st, sessionId), sessionId) == DeleteSession(st, sessionId)
    ensures GetSession(DeleteSession(st, sessionId), sessionId, now) == None
  {
  }

  // ---------------------------------------------------------------------------
  // Revoked tokens
  // ---------------------------------------------------------------------------

  /** `revokeToken`: INSERT OR REPLACE keyed by `jti`; the new row carries a fresh `revoked_at`. */
  function RevokeToken(st: Store, jti: string, expiresAt: int, now: int): (r: Store)
    requires Valid(st)
    ensures Valid(r)
    ensures jti in r.revoked && r.revoked[jti] == RevokedToken(jti, now, expiresAt)
    ensures forall k :: k != jti ==> (k in r.revoked <==> k in st.revoked)
    ensures forall k :: k in st.revoked && k != jti ==> r.revoked[k] == st.revoked[k]
    ensures r.revoked.Keys == st.revoked.Keys + {jti}
    ensures r.sessions == st.sessions
  {
    st.(revoked := st.revoked[jti := RevokedToken(jti, now, expiresAt)])
  }

  /** `isTokenRevoked` (social copy): a record for `jti` exists and is still in force. */
  function IsTokenRevoked(st: Store, jti: string, now: int): (b: bool)
    requires Valid(st)
    ensures b <==> jti in st.revoked && st.revoked[jti].expiresAt > now
  {
    jti in st.revoked && st.revoked[jti].expiresAt > now
  }

  /** `isTokenRevoked` (template copy, as written): a record for `jti` exists and has already lapsed. */
  function TemplateIsTokenRevoked(st: Store, jti: string, now: int): (b: bool)
    requires Valid(st)
    ensures b <==> jti in st.revoked && st.revoked[jti].expiresAt < now
  {
    jti in st.revoked && st.revoked[jti].expiresAt < now
  }

  /** `cleanupExpiredTokens`: deletes exactly the records whose expiry is strictly before `now`. */
  function CleanupExpiredTokens(st: Store, now: int): (r: Store)
    requires Valid(st)
    ensures Valid(r)
    ensures forall k :: k in r.revoked <==> k in st.revoked && st.revoked[k].expiresAt >= now
    ensures forall k :: k in r.revoked ==> r.revoked[k] == st.revoked[k]
    ensures r.sessions == st.sessions
  {
    st.(revoked := map k | k in st.revoked && st.revoked[k].expiresAt >= now :: st.revoked[k])
  }

  /** Revoking is an upsert: revoking again replaces the record, leaving exactly one per `jti` with the newest expiry. */
  lemma RevokeTwice(st: Store, jti: string, exp1: int, t1: int, exp2: int, t2: int)
    requires Valid(st)
    ensures RevokeToken(RevokeToken(st, jti, exp1, t1), jti, exp2, t2) == RevokeToken(st, jti, exp2, t2)
  {
  }

  /** A token revoked with an expiry still ahead is reported revoked until that expiry passes, then not. */
  lemma RevokedUntilExpiry(st: Store, jti: string, expiresAt: int, revokedAt: int, now: int)
    requires Valid(st)
    ensures IsTokenRevoked(RevokeToken(st, jti, expiresAt, revokedAt), jti, now) <==> now < expiresAt
  {
  }

  /** Pruning never changes the answer of `isTokenRevoked`, for any token at any instant from `now` on. */
  lemma {:induction false} CleanupInvisible(st: Store, now: int, later: int, jti: string)
    requires Valid(st) && now <= later
    ensures IsTokenRevoked(CleanupExpiredTokens(st, now), jti, later) == IsTokenRevoked(st, jti, later)
  {
    var pruned := CleanupExpiredTokens(st, now);
    if jti in st.revoked && st.revoked[jti].expiresAt > later {
      assert jti in pruned.revoked;
    }
  }

  /**
   * The template copy inverts the test: a token revoked with an expiry still ahead is
   * reported NOT revoked, and once the record lapses it is reported revoked.
   */
  lemma TemplateRevocationInverted(st: Store, jti: string, expiresAt: int, now: int)
    requires Valid(st)
    ensures now < expiresAt ==>
      !TemplateIsTokenRevoked(RevokeToken(st, jti, expiresAt, now), jti, now)
      && IsTokenRevoked(RevokeToken(st, jti, expiresAt, now), jti, now)
    ensures expiresAt < now ==>
      TemplateIsTokenRevoked(RevokeToken(st, jti, expiresAt, now), jti, now)
      && !IsTokenRevoked(RevokeToken(st, jti, expiresAt, now), jti, now)
  {
  }

  /** In the template copy a cleanup removes exactly the records it would report revoked. */
  lemma TemplateCleanupErasesRevocations(st: Store, now: int, jti: string)
    requires Valid(st)
    ensures !TemplateIsTokenRevoked(CleanupExpiredTokens(st, now), jti, now)
  {
  }
}
