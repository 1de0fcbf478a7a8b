/** The request-level service (internal/service/auth.go). */
module Auth {
  import opened Prelude
  import opened Encoding
  import opened Redis
  import opened Tokens
  import opened Database
  import opened Storage

  datatype Metadata = Metadata(userAgent: string, ip: string)

  datatype Pair = Pair(access: string, refresh: string)

  datatype Notice = Notice(userId: int, oldIp: string, newIp: string, userAgent: string)

  /** What a request draws from outside: random bytes, a new token id, and the time. */
  datatype Supply = Supply(entropy: seq<byte>, jti: string, now: int)

  // ---------- specification ----------

  /** The row that goes with a pair; the storage layer fills in the user. */
  function NewSession(cfg: Config, raw: seq<byte>, meta: Metadata, supply: Supply): Session
    requires |raw| == RAW_TOKEN_LENGTH
  {
    var refresh := MintRefresh(cfg, raw);
    Session(0, refresh.selector, refresh.verifierHash, meta.userAgent, meta.ip, supply.jti,
            supply.now, supply.now + cfg.refreshTtl)
  }

  function NewPair(cfg: Config, raw: seq<byte>, userId: int, supply: Supply): Pair
    requires |raw| == RAW_TOKEN_LENGTH
  {
    Pair(MintAccess(cfg, userId, supply.now, supply.jti), MintRefresh(cfg, raw).token)
  }

  ghost function IssueEffect(cfg: Config, db: Db, guid: string, meta: Metadata, supply: Supply): (Db, Result<Pair, Error>) {
    if |supply.entropy| < RAW_TOKEN_LENGTH then (db, Err(RandomFailure))
    else
      var raw := supply.entropy[..RAW_TOKEN_LENGTH];
      match IssueTx(db, guid, NewSession(cfg, raw, meta, supply))
      case Err(e) => (db, Err(e))
      case Ok(done) => (done.0, Ok(NewPair(cfg, raw, done.1, supply)))
  }

  /** What a refresh does next once it has read its active session. */
  datatype Plan =
    | Refuse(error: Error)
    | Revoke(userId: int, error: Error)
    | Rotate(session: Session, userId: int, pair: Pair)

  /** The checks between the lookup and the next storage call, and the notification they emit. */
  function Decide(cfg: Config, found: Session, jti: string, refresh: string, meta: Metadata, supply: Supply)
    : (Plan, Option<Notice>)
  {
    if found.jti != jti then (Refuse(PairMismatch), None)
    else if found.userAgent != meta.userAgent then (Revoke(found.userId, AgentChanged), None)
    else
      var notice := if found.ip != meta.ip
                    then Some(Notice(found.userId, found.ip, meta.ip, meta.userAgent)) else None;
      match CheckRefresh(cfg, refresh, found.verifierHash)
      case Some(e) => (Refuse(e), notice)
      case None =>
        if |supply.entropy| < RAW_TOKEN_LENGTH then (Refuse(RandomFailure), notice)
        else
          var raw := supply.entropy[..RAW_TOKEN_LENGTH];
          (Rotate(NewSession(cfg, raw, meta, supply), found.userId, NewPair(cfg, raw, found.userId, supply)), notice)
  }

  datatype Refreshed = Refreshed(db: Db, result: Result<Pair, Error>, notice: Option<Notice>)

  /** A selector without an active row: unknown, or already used, which revokes its owner. */
  ghost function DetectTheft(db: Db, selector: string): (Db, Error) {
    match Find(db, selector)
    case None => (db, SessionNotFound)
    case Some(session) => (DeleteUserSessions(db, session.userId), ReuseDetected)
  }

  ghost function Carry(db: Db, selector: string, plan: Plan): (Db, Result<Pair, Error>) {
    match plan
    case Refuse(e) => (db, Err(e))
    case Revoke(userId, e) => (DeleteUserSessions(db, userId), Err(e))
    case Rotate(session, userId, pair) =>
      match RotateTx(db, selector, session, userId)
      case Err(e) => (db, Err(e))
      case Ok(after) => (after, Ok(pair))
  }

  ghost function RefreshEffect(cfg: Config, db: Db, access: string, refresh: string, meta: Metadata, supply: Supply): Refreshed {
    match cfg.decode(access)
    case None => Refreshed(db, Err(TokenMalformed), None)
    case Some(claims) =>
      var parts := Split(refresh, '.');
      if |parts| != TOKEN_PARTS_EXPECTED then Refreshed(db, Err(RefreshFormat), None)
      else match FindActive(db, parts[0])
        case None =>
          var (after, error) := DetectTheft(db, parts[0]);
          Refreshed(after, Err(error), None)
        case Some(found) =>
          var (plan, notice) := Decide(cfg, found, claims.jti, refresh, meta, supply);
          var (after, result) := Carry(db, parts[0], plan);
          Refreshed(after, result, notice)
  }

  /** The denylist is written before the rows are deleted, and stays written when the deletion fails. */
  function LogoutEffect(cfg: Config, db: Db, store: Store, access: string, now: int, deleteFails: bool)
    : (Db, Store, Option<Error>)
  {
    match Authenticate(cfg, store, access, now)
    case Err(e) => (db, store, Some(e))
    case Ok(userId) =>
      match Invalidate(cfg, store, access, now)
      case Err(e) => (db, store, Some(e))
      case Ok(denied) =>
        if deleteFails then (db, denied, Some(StorageFailure)) else (DeleteUserSessions(db, userId), denied, None)
  }

  function PublicGuid(db: Db, userId: int): Result<string, Error> {
    if userId in db.users then Ok(db.users[userId]) else Err(NoSuchUser)
  }

  // ---------- the service ----------

  /** Delivery is asynchronous; what is kept is the notifications handed over. */
  class WebhookService {
    var emitted: seq<Notice>

    constructor ()
      ensures emitted == []
    {
      emitted := [];
    }

    method NotifyIPChange(notice: Notice)
      modifies this
      ensures emitted == old(emitted) + [notice]
    {
      emitted := emitted + [notice];
    }
  }

  class AuthService {
    const tokenService: TokenService
    const storage: PostgresStorage
    const webhookService: WebhookService

    ghost predicate Valid()
      reads storage.db
    {
      storage.Valid() && Consistent(storage.db.db)
    }

    constructor (tokenService: TokenService, storage: PostgresStorage, webhookService: WebhookService)
      ensures this.tokenService == tokenService && this.storage == storage && this.webhookService == webhookService
    {
      this.tokenService := tokenService;
      this.storage := storage;
      this.webhookService := webhookService;
    }

    method IssueTokens(guid: string, userMetadata: Metadata, supply: Supply) returns (r: Result<Pair, Error>)
      requires Valid()
      modifies storage.db
      ensures (storage.db.db, r) == IssueEffect(tokenService.cfg, old(storage.db.db), guid, userMetadata, supply)
      ensures Valid()
    {
      var cfg := tokenService.cfg;
      var refresh := tokenService.CreateRefreshToken(supply.entropy);
      if refresh.Err? {
        return Err(refresh.error);
      }
      var session := Session(0, refresh.value.selector, refresh.value.verifierHash, userMetadata.userAgent,
                             userMetadata.ip, supply.jti, supply.now, supply.now + cfg.refreshTtl);
      var user := storage.IssueTokensTx(guid, session);
      if user.Err? {
        return Err(user.error);
      }
      var accessToken := tokenService.CreateAccessTokenWithJTI(user.value, supply.now, supply.jti);
      return Ok(Pair(accessToken, refresh.value.token));
    }

    method DetectTheftAndRevoke(selector: string) returns (error: Error)
      requires Valid()
      modifies storage.db
      ensures (storage.db.db, error) == DetectTheft(old(storage.db.db), selector)
      ensures Valid()
    {
      var usedSession := storage.sessions.FindSessionBySelector(selector);
      if usedSession.None? {
        return SessionNotFound;
      }
      storage.sessions.DeleteAllUserSessions(usedSession.value.userId);
      return ReuseDetected;
    }

    /** The new pair for a session that passed the checks, and the rotation. */
    method RotateTo(selector: string, activeSession: Session, userMetadata: Metadata, supply: Supply)
      returns (r: Result<Pair, Error>)
      requires Valid()
      modifies storage.db
      ensures Valid()
      ensures |supply.entropy| < RAW_TOKEN_LENGTH ==> r == Err(RandomFailure) && storage.db.db == old(storage.db.db)
      ensures |supply.entropy| >= RAW_TOKEN_LENGTH ==>
                var (cfg, raw) := (tokenService.cfg, supply.entropy[..RAW_TOKEN_LENGTH]);
                (storage.db.db, r) == Carry(old(storage.db.db), selector,
                                            Rotate(NewSession(cfg, raw, userMetadata, supply), activeSession.userId,
                                                   NewPair(cfg, raw, activeSession.userId, supply)))
    {
      var newAccessToken := tokenService.CreateAccessTokenWithJTI(activeSession.userId, supply.now, supply.jti);
      var newRefresh := tokenService.CreateRefreshToken(supply.entropy);
      if newRefresh.Err? {
        return Err(newRefresh.error);
      }
      var newSession := Session(0, newRefresh.value.selector, newRefresh.value.verifierHash, userMetadata.userAgent,
                                userMetadata.ip, supply.jti, supply.now, supply.now + tokenService.cfg.refreshTtl);
      var failed := storage.RotateTokensTx(selector, newSession, activeSession.userId);
      if failed.Some? {
        return Err(failed.value);
      }
      return Ok(Pair(newAccessToken, newRefresh.value.token));
    }

    /** The part of a refresh after its active session is read. */
    method Exchange(selector: string, activeSession: Session, claims: Claims, refreshToken: string,
                    userMetadata: Metadata, supply: Supply)
      returns (r: Result<Pair, Error>)
      requires Valid()
      modifies storage.db, webhookService
      ensures var (plan, notice) := Decide(tokenService.cfg, activeSession, claims.jti, refreshToken, userMetadata, supply);
              && (storage.db.db, r) == Carry(old(storage.db.db), selector, plan)
              && webhookService.emitted == old(webhookService.emitted) + (if notice.Some? then [notice.value] else [])
      ensures Valid()
    {
      if activeSession.jti != claims.jti {
        return Err(PairMismatch);
      }
      if activeSession.userAgent != userMetadata.userAgent {
        storage.sessions.DeleteAllUserSessions(activeSession.userId);
        return Err(AgentChanged);
      }
      if activeSession.ip != userMetadata.ip {
        webhookService.NotifyIPChange(
          Notice(activeSession.userId, activeSession.ip, userMetadata.ip, userMetadata.userAgent));
      }
      var invalid := tokenService.ValidateRefreshToken(refreshToken, activeSession.verifierHash);
      if invalid.Some? {
        return Err(invalid.value);
      }
      r := RotateTo(selector, activeSession, userMetadata, supply);
    }

    method RefreshTokens(accessToken: string, refreshToken: string, userMetadata: Metadata, supply: Supply)
      returns (r: Result<Pair, Error>)
      requires Valid()
      modifies storage.db, webhookService
      ensures var done := RefreshEffect(tokenService.cfg, old(storage.db.db), accessToken, refreshToken, userMetadata, supply);
              && storage.db.db == done.db
              && r == done.result
              && webhookService.emitted == old(webhookService.emitted) + (if done.notice.Some? then [done.notice.value] else [])
      ensures Valid()
    {
      var claims := tokenService.cfg.decode(accessToken);
      if claims.None? {
        return Err(TokenMalformed);
      }
      var parts := Split(refreshToken, '.');
      if |parts| != TOKEN_PARTS_EXPECTED {
        return Err(RefreshFormat);
      }
      var active := storage.sessions.GetActiveSessionBySelector(parts[0]);
      if active.None? {
        var theft := DetectTheftAndRevoke(parts[0]);
        return Err(theft);
      }
      r := Exchange(parts[0], active.value, claims.value, refreshToken, userMetadata, supply);
    }

    /** `deleteFails` says whether the database refuses the deletion. */
    method Logout(accessToken: string, now: int, deleteFails: bool) returns (error: Option<Error>)
      requires Valid()
      modifies storage.db, tokenService.tokenStorage.client
      ensures (storage.db.db, tokenService.tokenStorage.client.entries, error)
              == LogoutEffect(tokenService.cfg, old(storage.db.db), old(tokenService.tokenStorage.client.entries),
                              accessToken, now, deleteFails)
      ensures Valid()
    {
      var userId := tokenService.ValidateAccessTokenAndGetUserID(accessToken, now);
      if userId.Err? {
        return Some(userId.error);
      }
      error := tokenService.InvalidateAccessToken(accessToken, now);
      if error.Some? {
        return;
      }
      if deleteFails {
        return Some(StorageFailure);
      }
      storage.sessions.DeleteAllUserSessions(userId.value);
      return None;
    }

    method GetPublicGUID(userId: int) returns (r: Result<string, Error>)
      requires storage.Valid()
      ensures r == PublicGuid(storage.db.db, userId)
    {
      var user := storage.users.GetUserByID(userId);
      if user.None? {
        return Err(NoSuchUser);
      }
      return Ok(user.value);
    }
  }
}
