/**
 * Account registration and the two-step SRP login, with the in-memory
 * store of half-finished SRP sessions and its periodic cleanup. Time is
 * in milliseconds; the database, the SRP library and the cookie session
 * enter as parameters.
 */
module AuthHandlers {
  import opened Wrappers
  import opened Platform
  import opened HttpReply
  import opened ServerUtils

  const MAX_EMAIL_LEN := 260
  const MAX_SALT_LEN := 16
  const MAX_VERIFIER_LEN := 520
  const MAX_CHALLENGE_LEN := 64

  const MINUTE_MS := 60 * 1000
  const HOUR_MS := 60 * MINUTE_MS
  const SRP_SESSION_TTL := 5 * MINUTE_MS
  /** The access token's lifetime as `LoginVerify` writes it. */
  const LOGIN_TOKEN_LIFETIME := 12 * HOUR_MS
  /** Bytes of randomness in the SRP session id and the access token. */
  const TOKEN_BYTES := 32

  const MSG_INVALID_EMAIL := "Invalid email address."
  const MSG_EMAIL_IN_USE := "Email already in use."
  const MSG_INVALID_CREDENTIALS := "Invalid credentials."
  const MSG_EXPIRED_SESSION := "Invalid or expired session."
  const MSG_INVALID_SESSION := "Invalid session."

  /* ------------------------------- Register ------------------------------- */

  /** The parts `srp.Triplet` exposes: username, verifier and SRP salt. */
  datatype Triplet = Triplet(username: string, verifier: Bytes, srpSalt: Bytes)

  /** The decoded register body; `salt` is the master salt. */
  datatype RegisterBody = RegisterBody(challenge: string, triplet: Triplet, salt: Bytes)

  datatype InsertResult = Inserted | DuplicateEmail | InsertFailed

  /** The row `Register` inserts. */
  datatype NewUser = NewUser(email: string, salt: Bytes, srpSalt: Bytes, verifier: Bytes, challenge: string)

  /** Whether a register body passes the emptiness and length checks. */
  predicate RegisterFieldsOk(b: RegisterBody) {
    && |b.triplet.username| > 0 && |b.triplet.verifier| > 0 && |b.triplet.srpSalt| > 0 && |b.challenge| > 0
    && |b.triplet.username| <= MAX_EMAIL_LEN
    && |b.triplet.srpSalt| <= MAX_SALT_LEN
    && |b.salt| <= MAX_SALT_LEN
    && |b.triplet.verifier| <= MAX_VERIFIER_LEN
    && |b.challenge| <= MAX_CHALLENGE_LEN
  }

  /**
   * `Register`. `body` is `None` when the JSON does not parse; `insert` is
   * what the database answers to the insert, which is attempted only when
   * the checks pass.
   */
  method Register(parseAddress: string -> bool, body: Option<RegisterBody>, insert: InsertResult)
      returns (resp: Response, inserted: Option<NewUser>)
    ensures inserted.Some? <==> body.Some? && RegisterFieldsOk(body.value) && ValidateEmail(parseAddress, body.value.triplet.username)
    ensures inserted.Some? ==> inserted.value == NewUser(body.value.triplet.username, body.value.salt,
                                                          body.value.triplet.srpSalt, body.value.triplet.verifier,
                                                          body.value.challenge)
    ensures resp.success <==> inserted.Some? && insert == Inserted
    ensures body.None? || !RegisterFieldsOk(body.value) ==> resp == BadRequest
    ensures body.Some? && RegisterFieldsOk(body.value) && !ValidateEmail(parseAddress, body.value.triplet.username)
            ==> resp == Fail(STATUS_BAD_REQUEST, MSG_INVALID_EMAIL)
    ensures inserted.Some? && insert == DuplicateEmail ==> resp == Fail(STATUS_CONFLICT, MSG_EMAIL_IN_USE)
  {
    inserted := None;
    if body.None? {
      return BadRequest, None;
    }
    var t := body.value.triplet;
    var challenge := body.value.challenge;
    if |t.username| == 0 || |t.verifier| == 0 || |t.srpSalt| == 0 || |challenge| == 0 {
      return BadRequest, None;
    }
    if |t.username| > MAX_EMAIL_LEN || |t.srpSalt| > MAX_SALT_LEN || |body.value.salt| > MAX_SALT_LEN
       || |t.verifier| > MAX_VERIFIER_LEN || |challenge| > MAX_CHALLENGE_LEN {
      return BadRequest, None;
    }
    if !ValidateEmail(parseAddress, t.username) {
      return Fail(STATUS_BAD_REQUEST, MSG_INVALID_EMAIL), None;
    }
    inserted := Some(NewUser(t.username, body.value.salt, t.srpSalt, t.verifier, challenge));
    match insert
    case DuplicateEmail => resp := Fail(STATUS_CONFLICT, MSG_EMAIL_IN_USE);
    case InsertFailed => resp := InternalError;
    case Inserted => resp := Ok;
  }

  /* ---------------------------- SRP sessions ---------------------------- */

  /** A stored SRP handshake: the server state (the ephemeral `B` as far as this model sees it), its start time and email. */
  datatype SrpSession = SrpSession(b: Bytes, createdAt: int, email: string)

  /** Whether `cleanupSRPSessions` keeps a session at time `now`. */
  predicate Fresh(s: SrpSession, now: int) {
    now - s.createdAt <= SRP_SESSION_TTL
  }

  /** `srpSessionStore`, keyed by session id. */
  class SrpSessionStore {
    var sessions: map<string, SrpSession>

    constructor ()
      ensures sessions == map[]
    {
      sessions := map[];
    }

    method Store(id: string, s: SrpSession)
      modifies this
      ensures sessions == old(sessions)[id := s]
    {
      sessions := sessions[id := s];
    }

    method Load(id: string) returns (s: Option<SrpSession>)
      ensures s.Some? <==> id in sessions
      ensures s.Some? ==> s.value == sessions[id]
    {
      if id in sessions {
        s := Some(sessions[id]);
      } else {
        s := None;
      }
    }

    method Delete(id: string)
      modifies this
      ensures sessions == old(sessions) - {id}
    {
      sessions := sessions - {id};
    }

    /** One tick of `cleanupSRPSessions`: drops every session older than the TTL. */
    method Cleanup(now: int)
      modifies this
      ensures sessions == map id | id in old(sessions) && Fresh(old(sessions)[id], now) :: old(sessions)[id]
    {
      var todo := sessions.Keys;
      ghost var start := sessions;
      while todo != {}
        invariant todo <= start.Keys
        invariant sessions.Keys <= start.Keys
        invariant forall id :: id in sessions ==> sessions[id] == start[id]
        invariant forall id :: id in start && id !in todo ==> (id in sessions <==> Fresh(start[id], now))
        invariant forall id :: id in todo ==> id in sessions
        decreases todo
      {
        var id :| id in todo;
        if now - sessions[id].createdAt > SRP_SESSION_TTL {
          sessions := sessions - {id};
        }
        todo := todo - {id};
      }
    }
  }

  /* ------------------------------ LoginStart ------------------------------ */

  /** What the server keeps of an account for the SRP flow. */
  datatype Account = Account(uuid: string, srpSalt: Bytes, verifier: Bytes)

  /**
   * The SRP library on the server: whether `NewServer` and `SetA` succeed,
   * the ephemeral `B`, verifying `M1` and the computation of `M2`.
   */
  datatype SrpServerLib = SrpServerLib(
    newServerOk: (string, Bytes, Bytes) -> bool,
    acceptsA: (Bytes, Bytes) -> bool,
    publicB: (string, Bytes, Bytes, Bytes) -> Bytes,
    checkM1: (Bytes, Bytes) -> bool,
    computeM2: Bytes -> Option<Bytes>)

  /** The reply data of `LoginStart`: the bare SRP salt, or the salt, `B` and session id. */
  datatype StartData = SaltOnly(salt: Bytes) | Handshake(salt: Bytes, b: Bytes, sessionId: string)

  /** The email passes the emptiness and length check of both login steps. */
  predicate EmailOk(email: string) {
    email != "" && |email| <= MAX_EMAIL_LEN
  }

  /**
   * `LoginStart`. `accounts` is the users table keyed by email; `sessionId`
   * is the fresh random token; `cookieOk` is whether the cookie session
   * accepted it.
   */
  method LoginStart(store: SrpSessionStore, srp: SrpServerLib, accounts: map<string, Account>,
                    body: Option<(string, Bytes)>, sessionId: string, cookieOk: bool, now: int)
      returns (resp: Response, data: Option<StartData>)
    modifies store
    ensures body.None? || body.value.0 == "" || |body.value.0| > MAX_EMAIL_LEN ==>
              resp == BadRequest && store.sessions == old(store.sessions)
    ensures body.Some? && body.value.0 != "" && |body.value.0| <= MAX_EMAIL_LEN && body.value.0 !in accounts ==>
              resp == Fail(STATUS_UNAUTHORIZED, MSG_INVALID_CREDENTIALS) && data.None?
    ensures body.Some? && body.value.0 != "" && |body.value.0| <= MAX_EMAIL_LEN && body.value.0 in accounts
            && body.value.1 == [] ==>
              resp == Ok && data == Some(SaltOnly(accounts[body.value.0].srpSalt))
    ensures body.Some? && EmailOk(body.value.0) && body.value.0 in accounts && body.value.1 != [] ==>
              var (email, a) := body.value;
              var acct := accounts[email];
              && (!srp.newServerOk(email, acct.srpSalt, acct.verifier) ==> resp == InternalError)
              && (srp.newServerOk(email, acct.srpSalt, acct.verifier) && !srp.acceptsA(acct.verifier, a) ==> resp == BadRequest)
              && (srp.newServerOk(email, acct.srpSalt, acct.verifier) && srp.acceptsA(acct.verifier, a) && !cookieOk ==>
                    resp == InternalError)
              && (resp.success <==> srp.newServerOk(email, acct.srpSalt, acct.verifier) && srp.acceptsA(acct.verifier, a) && cookieOk)
              && (resp.success ==> data == Some(Handshake(acct.srpSalt, srp.publicB(email, acct.srpSalt, acct.verifier, a), sessionId)))
    ensures resp.success <==> data.Some?
    ensures store.sessions == old(store.sessions) || (data.Some? && data.value.Handshake?)
    ensures data.Some? && data.value.Handshake? ==>
              && body.Some? && body.value.0 in accounts && body.value.1 != []
              && data.value.sessionId == sessionId && data.value.salt == accounts[body.value.0].srpSalt
              && store.sessions == old(store.sessions)[sessionId := SrpSession(data.value.b, now, body.value.0)]
  {
    data := None;
    if body.None? {
      return BadRequest, None;
    }
    var (email, a) := body.value;
    if |email| == 0 || |email| > MAX_EMAIL_LEN {
      return BadRequest, None;
    }
    if |a| == 0 {
      if email !in accounts {
        return Fail(STATUS_UNAUTHORIZED, MSG_INVALID_CREDENTIALS), None;
      }
      return Ok, Some(SaltOnly(accounts[email].srpSalt));
    }
    if email !in accounts {
      return Fail(STATUS_UNAUTHORIZED, MSG_INVALID_CREDENTIALS), None;
    }
    var acct := accounts[email];
    if !srp.newServerOk(email, acct.srpSalt, acct.verifier) {
      return InternalError, None;
    }
    if !srp.acceptsA(acct.verifier, a) {
      return BadRequest, None;
    }
    if !cookieOk {
      return InternalError, None;
    }
    var b := srp.publicB(email, acct.srpSalt, acct.verifier, a);
    store.Store(sessionId, SrpSession(b, now, email));
    resp := Ok;
    data := Some(Handshake(acct.srpSalt, b, sessionId));
  }

  /* ------------------------------ LoginVerify ------------------------------ */

  /** A row of `account_sessions`. */
  datatype AccessSession = AccessSession(owner: string, token: string, createdAt: int, expiresAt: int)

  /** The database and cookie steps after a good `M1`, each of which can fail. */
  datatype LoginEffects = LoginEffects(uuidFound: bool, insertOk: bool, cookieOk: bool)

  /** The verify body: email, `M1` and the session id. */
  datatype VerifyBody = VerifyBody(email: string, m1: Bytes, sessionId: string)

  /**
   * The request passes every check before the proof `M2` is computed: the
   * fields are present, the session is stored for the same email, and the
   * library accepts `M1`.
   */
  predicate VerifyGuardsPass(sessions: map<string, SrpSession>, srp: SrpServerLib, body: Option<VerifyBody>) {
    && body.Some? && body.value.email != "" && body.value.m1 != [] && body.value.sessionId != ""
    && body.value.sessionId in sessions
    && sessions[body.value.sessionId].email == body.value.email
    && srp.checkM1(sessions[body.value.sessionId].b, body.value.m1)
  }

  /**
   * `LoginVerify`. On success it returns `M2`, issues an access session
   * that expires 12 hours later, and deletes the SRP session; a failed
   * proof or any earlier failure leaves the store as it was.
   */
  method LoginVerify(store: SrpSessionStore, srp: SrpServerLib, accounts: map<string, Account>,
                     body: Option<VerifyBody>, effects: LoginEffects, token: string, now: int)
      returns (resp: Response, m2: Option<Bytes>, issued: Option<AccessSession>)
    modifies store
    ensures body.None? || body.value.email == "" || body.value.m1 == [] || body.value.sessionId == "" ==>
              resp == BadRequest && store.sessions == old(store.sessions)
    ensures body.Some? && body.value.email != "" && body.value.m1 != [] && body.value.sessionId != ""
            && body.value.sessionId !in old(store.sessions) ==>
              resp == Fail(STATUS_UNAUTHORIZED, MSG_EXPIRED_SESSION)
    ensures body.Some? && body.value.sessionId in old(store.sessions)
            && old(store.sessions)[body.value.sessionId].email != body.value.email
            && body.value.email != "" && body.value.m1 != [] && body.value.sessionId != "" ==>
              resp == Fail(STATUS_UNAUTHORIZED, MSG_INVALID_SESSION)
    ensures body.Some? && body.value.sessionId in old(store.sessions)
            && old(store.sessions)[body.value.sessionId].email == body.value.email
            && body.value.email != "" && body.value.m1 != [] && body.value.sessionId != ""
            && !srp.checkM1(old(store.sessions)[body.value.sessionId].b, body.value.m1) ==>
              resp == Fail(STATUS_UNAUTHORIZED, MSG_INVALID_CREDENTIALS)
    ensures VerifyGuardsPass(old(store.sessions), srp, body) ==>
              var b := old(store.sessions)[body.value.sessionId].b;
              && (srp.computeM2(b).None? ==> resp == InternalError)
              && (resp.success <==> srp.computeM2(b).Some? && effects.uuidFound && body.value.email in accounts
                                    && effects.insertOk && effects.cookieOk)
              && (!resp.success ==> resp == InternalError)
    ensures resp.success ==> m2 == srp.computeM2(old(store.sessions)[body.value.sessionId].b)
    ensures resp.success <==> m2.Some?
    ensures resp.success <==> issued.Some?
    ensures !resp.success ==> store.sessions == old(store.sessions)
    ensures resp.success ==>
              && body.Some? && body.value.sessionId in old(store.sessions)
              && old(store.sessions)[body.value.sessionId].email == body.value.email
              && srp.checkM1(old(store.sessions)[body.value.sessionId].b, body.value.m1)
              && body.value.email in accounts
              && issued == Some(AccessSession(accounts[body.value.email].uuid, token, now, now + LOGIN_TOKEN_LIFETIME))
              && store.sessions == old(store.sessions) - {body.value.sessionId}
  {
    m2 := None;
    issued := None;
    if body.None? {
      return BadRequest, None, None;
    }
    var req := body.value;
    if |req.email| == 0 || |req.m1| == 0 || |req.sessionId| == 0 {
      return BadRequest, None, None;
    }
    var sess := store.Load(req.sessionId);
    if sess.None? {
      return Fail(STATUS_UNAUTHORIZED, MSG_EXPIRED_SESSION), None, None;
    }
    if sess.value.email != req.email {
      return Fail(STATUS_UNAUTHORIZED, MSG_INVALID_SESSION), None, None;
    }
    if !srp.checkM1(sess.value.b, req.m1) {
      return Fail(STATUS_UNAUTHORIZED, MSG_INVALID_CREDENTIALS), None, None;
    }
    var proof := srp.computeM2(sess.value.b);
    if proof.None? {
      return InternalError, None, None;
    }
    var expires := now + LOGIN_TOKEN_LIFETIME;
    if !effects.uuidFound || sess.value.email !in accounts {
      return InternalError, None, None;
    }
    var owner := accounts[sess.value.email].uuid;
    if !effects.insertOk {
      return InternalError, None, None;
    }
    if !effects.cookieOk {
      return InternalError, None, None;
    }
    store.Delete(req.sessionId);
    resp := Ok;
    m2 := proof;
    issued := Some(AccessSession(owner, token, now, expires));
  }

  /** A login that fails its proof can be retried against the same stored session. */
  method WrongProofKeepsSession(srp: SrpServerLib, accounts: map<string, Account>, email: string,
                                b: Bytes, m1: Bytes, effects: LoginEffects, token: string, now: int)
      returns (stillStored: bool)
    requires email != "" && m1 != [] && !srp.checkM1(b, m1)
    ensures stillStored
  {
    var store := new SrpSessionStore();
    store.Store("sid", SrpSession(b, now, email));
    var resp, m2, issued := LoginVerify(store, srp, accounts, Some(VerifyBody(email, m1, "sid")), effects, token, now);
    stillStored := "sid" in store.sessions;
  }

  /** After cleanup no stored session is older than the TTL, and every younger one is still there. */
  method CleanupKeepsOnlyFresh(store: SrpSessionStore, now: int) returns (ok: bool)
    modifies store
    ensures forall id :: id in store.sessions ==> Fresh(store.sessions[id], now)
    ensures forall id :: id in old(store.sessions) && Fresh(old(store.sessions)[id], now) ==> id in store.sessions
  {
    store.Cleanup(now);
    ok := true;
  }
}
