/** What each request answers and leaves behind, in every case, after every run of requests that do
    not overlap: read off the pairs handed out, not off the order in which the service checks. */
module Outcomes {
  import opened Prelude
  import opened Decimal
  import opened Encoding
  import opened Redis
  import opened Tokens
  import opened Database
  import opened Auth
  import opened Requests
  import opened Lineage

  // ---------- a new pair and its row ----------

  /** The row a new pair is stored in, field by field. */
  ghost predicate RowOf(cfg: Config, row: Row, userId: int, raw: seq<byte>, meta: Metadata, supply: Supply)
    requires |raw| == 32
  {
    && row.status == Active
    && row.session.userId == userId
    && row.session.selector == Base64(raw[..16])
    && row.session.verifierHash == Hex(cfg.sha256(Base64(raw[16..])))
    && row.session.userAgent == meta.userAgent && row.session.ip == meta.ip
    && row.session.jti == supply.jti
    && row.session.createdAt == supply.now && row.session.expiresAt == supply.now + cfg.refreshTtl
  }

  /** The pair itself: a signed token with these claims, and selector and verifier around one dot. */
  ghost predicate PairOf(cfg: Config, pair: Pair, userId: int, raw: seq<byte>, supply: Supply)
    requires |raw| == 32
  {
    && pair.refresh == Base64(raw[..16]) + "." + Base64(raw[16..])
    && exists claims: Claims ::
         && pair.access == cfg.sign(claims)
         && claims.uid == FormatInt(userId) && claims.subject == FormatInt(userId) && claims.jti == supply.jti
         && claims.issuedAt == supply.now / 1000 && claims.expiresAt == Some((supply.now + cfg.accessTtl) / 1000)
  }

  /** The tables with one row more, under the next id. */
  ghost predicate WithRow(cfg: Config, sessions: map<int, Row>, db: Db, after: Db, userId: int, raw: seq<byte>,
                          meta: Metadata, supply: Supply)
    requires |raw| == 32
  {
    && after.nextSession == db.nextSession + 1
    && db.nextSession in after.sessions && RowOf(cfg, after.sessions[db.nextSession], userId, raw, meta, supply)
    && after.sessions == sessions[db.nextSession := after.sessions[db.nextSession]]
  }

  lemma PairIsOfItsUser(cfg: Config, raw: seq<byte>, userId: int, supply: Supply)
    requires |raw| == 32
    ensures PairOf(cfg, NewPair(cfg, raw, userId, supply), userId, raw, supply)
  {
    var claims := MintClaims(cfg, userId, supply.now, supply.jti);
    assert NewPair(cfg, raw, userId, supply).access == cfg.sign(claims);
  }

  // ---------- issue ----------

  /** An issue for this guid finds ids left for a session and, if it needs one, for a user. */
  predicate IdsLeft(db: Db, guid: string) {
    db.nextSession <= MAX_INT64 && (guid in db.users.Values || db.nextUser <= MAX_INT64)
  }

  /** This is the id an issue for this guid is for: of the user that has it, or else the next one. */
  predicate IssuedFor(db: Db, guid: string, userId: int) {
    if guid in db.users.Values then userId in db.users && db.users[userId] == guid else userId == db.nextUser
  }

  /** The answer to an issue with a selector that is not stored. */
  ghost predicate IssueAnswers(cfg: Config, db: Db, guid: string, meta: Metadata, supply: Supply, userId: int) {
    var (after, result) := IssueEffect(cfg, db, guid, meta, supply);
    if |supply.entropy| < 32 then after == db && result == Err(RandomFailure)
    else if !IdsLeft(db, guid) then after == db && result == Err(IdsExhausted)
    else
      && result.Ok?
      && PairOf(cfg, result.value, userId, supply.entropy[..32], supply)
      && WithRow(cfg, db.sessions, db, after, userId, supply.entropy[..32], meta, supply)
      && after.users == (if userId in db.users then db.users else db.users[userId := guid])
      && after.users[userId] == guid
  }

  lemma FreshIsNotStored(cfg: Config, w: World, r: Request)
    requires Good(cfg, w) && Fresh(w, r) && !r.LogoutRequest? && |r.supply.entropy| >= 32
    ensures !Stored(w.db, Selector(r.supply.entropy[..32]))
  {
    forall id | id in w.db.sessions
      ensures w.db.sessions[id].session.selector != Selector(r.supply.entropy[..32])
    {
      var i := GrantOf(w.grants, w.db.sessions[id].session.selector).value;
      assert w.grants[i] in w.grants;
    }
  }

  lemma IssueInGoodWorld(cfg: Config, w: World, r: Request, userId: int)
    requires Good(cfg, w) && Fresh(w, r) && r.IssueRequest? && IssuedFor(w.db, r.guid, userId)
    ensures IssueAnswers(cfg, w.db, r.guid, r.meta, r.supply, userId)
  {
    if |r.supply.entropy| >= 32 {
      var raw := r.supply.entropy[..32];
      var session := NewSession(cfg, raw, r.meta, r.supply);
      FreshIsNotStored(cfg, w, r);
      if r.guid in w.db.users.Values {
        IssueForKnown(w.db, r.guid, session, userId);
      } else {
        IssueForNew(w.db, r.guid, session);
      }
      if IssueTx(w.db, r.guid, session).Ok? {
        IssueFacts(w.db, r.guid, session);
        PairIsOfItsUser(cfg, raw, userId, r.supply);
      }
    }
  }

  /** After every run, a fresh issue with enough bytes and ids left succeeds: for the user its guid
      has, and otherwise for a new one; with a signed pair and its row, and nothing else changed.
      Without them it is an error, and nothing is changed. */
  lemma IssueOutcome(cfg: Config, requests: seq<Request>, r: Request, userId: int)
    requires AllFresh(cfg, requests + [r]) && r.IssueRequest? && IssuedFor(Run(cfg, requests).db, r.guid, userId)
    ensures IssueAnswers(cfg, Run(cfg, requests).db, r.guid, r.meta, r.supply, userId)
  {
    assert (requests + [r])[..|requests|] == requests;
    RunKeepsGood(cfg, requests);
    IssueInGoodWorld(cfg, Run(cfg, requests), r, userId);
  }

  // ---------- refresh ----------

  /** The notification a refresh from this client calls for. */
  function NoticeFor(session: Session, meta: Metadata): Option<Notice> {
    if session.ip == meta.ip then None else Some(Notice(session.userId, session.ip, meta.ip, session.userAgent))
  }

  /** The answer to a refresh that passed the checks of the pair and of the client: the address is
      notified whatever comes next, and what fails leaves the tables alone. */
  ghost predicate ExchangeAnswers(cfg: Config, db: Db, session: Session, v: string, meta: Metadata, supply: Supply, done: Refreshed) {
    && done.notice == NoticeFor(session, meta)
    && (done.result.Err? ==> done.db == db)
    && if UnHex(session.verifierHash) != Some(cfg.sha256(v)) then done.result == Err(WrongVerifier)
       else if |supply.entropy| < 32 then done.result == Err(RandomFailure)
       else if db.nextSession > MAX_INT64 then done.result == Err(IdsExhausted)
       else if Stored(db, Base64(supply.entropy[..16])) then done.result == Err(DuplicateSelector)
       else
         && done.result.Ok? && done.db.users == db.users
         && PairOf(cfg, done.result.value, session.userId, supply.entropy[..32], supply)
         && WithRow(cfg, MarkUsed(db, session.selector).sessions, db, done.db, session.userId, supply.entropy[..32], meta, supply)
  }

  /** The answer to a refresh that presents the selector of grant `i`, a verifier and a token id. */
  ghost predicate PresentedAnswers(cfg: Config, w: World, i: nat, v: string, jti: string, meta: Metadata, supply: Supply,
                                   done: Refreshed)
    requires i < |w.grants|
  {
    var session := w.grants[i].session;
    if !IsLive(w, i) then done == Refreshed(w.db, Err(SessionNotFound), None)
    else if HasChild(w.grants, i) then done == Refreshed(DeleteUserSessions(w.db, session.userId), Err(ReuseDetected), None)
    else if jti != session.jti then done == Refreshed(w.db, Err(PairMismatch), None)
    else if meta.userAgent != session.userAgent then
      done == Refreshed(DeleteUserSessions(w.db, session.userId), Err(AgentChanged), None)
    else ExchangeAnswers(cfg, w.db, session, v, meta, supply, done)
  }

  /** The answer to any refresh at all. */
  ghost predicate RefreshAnswers(cfg: Config, w: World, access: string, refresh: string, meta: Metadata, supply: Supply) {
    var done := RefreshEffect(cfg, w.db, access, refresh, meta, supply);
    if cfg.decode(access).None? then done == Refreshed(w.db, Err(TokenMalformed), None)
    else if Occurrences(refresh, '.') != 1 then done == Refreshed(w.db, Err(RefreshFormat), None)
    else
      exists selector: string, v: string ::
        && refresh == selector + "." + v && '.' !in selector && '.' !in v
        && (if exists i :: 0 <= i < |w.grants| && w.grants[i].session.selector == selector
            then exists i: nat :: i < |w.grants| && w.grants[i].session.selector == selector
                                  && PresentedAnswers(cfg, w, i, v, cfg.decode(access).value.jti, meta, supply, done)
            else done == Refreshed(w.db, Err(SessionNotFound), None))
  }

  /** What one text of two parts is accepted against. */
  lemma AcceptedAgainst(cfg: Config, refresh: string, v: string, hash: string)
    requires |Split(refresh, '.')| == 2 && v == Split(refresh, '.')[1] && UnHex(hash).Some?
    ensures CheckRefresh(cfg, refresh, hash) == if UnHex(hash) == Some(cfg.sha256(v)) then None else Some(WrongVerifier)
  {
  }

  lemma SameHalf(raw: seq<byte>)
    requires |raw| >= 32
    ensures raw[..32][..16] == raw[..16]
  {
  }

  lemma ExchangeInGoodWorld(cfg: Config, w: World, i: nat, refresh: string, v: string, meta: Metadata, supply: Supply)
    requires Good(cfg, w) && i < |w.grants| && IsLive(w, i) && !HasChild(w.grants, i)
    requires |Split(refresh, '.')| == 2 && v == Split(refresh, '.')[1] && Split(refresh, '.')[0] == w.grants[i].session.selector
    requires meta.userAgent == w.grants[i].session.userAgent
    ensures var session := w.grants[i].session;
            var (plan, notice) := Decide(cfg, session, session.jti, refresh, meta, supply);
            var (after, result) := Carry(w.db, session.selector, plan);
            ExchangeAnswers(cfg, w.db, session, v, meta, supply, Refreshed(after, result, notice))
  {
    var session := w.grants[i].session;
    assert PairMatches(cfg, w.grants[i]) && session.userId in w.db.users;
    AcceptedAgainst(cfg, refresh, v, session.verifierHash);
    if UnHex(session.verifierHash) == Some(cfg.sha256(v)) && |supply.entropy| >= 32 {
      var raw := supply.entropy[..32];
      var row := NewSession(cfg, raw, meta, supply);
      SameHalf(supply.entropy);
      RotationCommits(w.db, session.selector, row, session.userId);
      if RotateTx(w.db, session.selector, row, session.userId).Ok? {
        RotateFacts(w.db, session.selector, row, session.userId);
        PairIsOfItsUser(cfg, raw, session.userId, supply);
      } else {
        RotationStopped(w.db, session.selector, row, session.userId);
      }
    }
  }

  lemma PresentedInGoodWorld(cfg: Config, w: World, i: nat, access: string, refresh: string, v: string, meta: Metadata, supply: Supply)
    requires Good(cfg, w) && i < |w.grants| && cfg.decode(access).Some?
    requires Split(refresh, '.') == [w.grants[i].session.selector, v]
    ensures PresentedAnswers(cfg, w, i, v, cfg.decode(access).value.jti, meta, supply,
                             RefreshEffect(cfg, w.db, access, refresh, meta, supply))
  {
    var session, jti := w.grants[i].session, cfg.decode(access).value.jti;
    assert GrantHasRow(w, i);
    if IsLive(w, i) && !HasChild(w.grants, i) {
      assert FindActive(w.db, session.selector) == Some(session);
      if jti == session.jti && meta.userAgent == session.userAgent {
        ExchangeInGoodWorld(cfg, w, i, refresh, v, meta, supply);
      }
    }
  }

  lemma UnknownInGoodWorld(cfg: Config, w: World, access: string, refresh: string, meta: Metadata, supply: Supply)
    requires Good(cfg, w) && cfg.decode(access).Some? && |Split(refresh, '.')| == 2
    requires forall i :: 0 <= i < |w.grants| ==> w.grants[i].session.selector != Split(refresh, '.')[0]
    ensures RefreshEffect(cfg, w.db, access, refresh, meta, supply) == Refreshed(w.db, Err(SessionNotFound), None)
  {
    var selector := Split(refresh, '.')[0];
    assert GrantOf(w.grants, selector).None?;
    assert RowId(w.db, selector).None?;
  }

  lemma RefreshInGoodWorld(cfg: Config, w: World, access: string, refresh: string, meta: Metadata, supply: Supply)
    requires Good(cfg, w)
    ensures RefreshAnswers(cfg, w, access, refresh, meta, supply)
  {
    SplitCount(refresh, '.');
    if cfg.decode(access).Some? && Occurrences(refresh, '.') == 1 {
      var selector, v := Split(refresh, '.')[0], Split(refresh, '.')[1];
      assert Split(refresh, '.') == [selector, v];
      SplitInTwo(refresh, selector, v, '.');
      if exists i :: 0 <= i < |w.grants| && w.grants[i].session.selector == selector {
        var i: nat :| i < |w.grants| && w.grants[i].session.selector == selector;
        PresentedInGoodWorld(cfg, w, i, access, refresh, v, meta, supply);
      } else {
        UnknownInGoodWorld(cfg, w, access, refresh, meta, supply);
      }
    }
  }

  /** After every run, the answer to every refresh: error or pair, notification, and tables. */
  lemma RefreshOutcome(cfg: Config, requests: seq<Request>, access: string, refresh: string, meta: Metadata, supply: Supply)
    requires AllFresh(cfg, requests)
    ensures RefreshAnswers(cfg, Run(cfg, requests), access, refresh, meta, supply)
  {
    RunKeepsGood(cfg, requests);
    RefreshInGoodWorld(cfg, Run(cfg, requests), access, refresh, meta, supply);
  }

  /** After every run, a refresh that presents a live, unexchanged session with its own token id from
      its own client notifies the address change, if there is one, exactly once, whether or not
      its verifier is right, bytes suffice and the transaction commits; and if it fails, no row changes. */
  lemma AddressIsNotified(cfg: Config, requests: seq<Request>, i: nat, access: string, refresh: string, meta: Metadata, supply: Supply)
    requires AllFresh(cfg, requests) && i < |Run(cfg, requests).grants|
    requires IsLive(Run(cfg, requests), i) && !HasChild(Run(cfg, requests).grants, i)
    requires var session := Run(cfg, requests).grants[i].session;
             && cfg.decode(access).Some? && cfg.decode(access).value.jti == session.jti
             && |Split(refresh, '.')| == 2 && Split(refresh, '.')[0] == session.selector
             && meta.userAgent == session.userAgent
    ensures var (w, session) := (Run(cfg, requests), Run(cfg, requests).grants[i].session);
            var done := RefreshEffect(cfg, w.db, access, refresh, meta, supply);
            && done.notice == (if session.ip == meta.ip then None
                               else Some(Notice(session.userId, session.ip, meta.ip, session.userAgent)))
            && (done.result.Err? ==> done.db == w.db)
  {
    RunKeepsGood(cfg, requests);
    var v := Split(refresh, '.')[1];
    assert Split(refresh, '.') == [Split(refresh, '.')[0], v];
    PresentedInGoodWorld(cfg, Run(cfg, requests), i, access, refresh, v, meta, supply);
  }

  // ---------- logout ----------

  /** The answer to a logout. With a token that authenticates: the denial is written, for as long as
      the token has left or without a deadline, and the user's rows go unless that fails. With any
      other text nothing is written at all. */
  ghost predicate LogoutAnswers(cfg: Config, db: Db, store: Store, access: string, now: int, deleteFails: bool) {
    var (after, written, error) := LogoutEffect(cfg, db, store, access, now, deleteFails);
    if Get(store, access, now) != Some("invalidated") && cfg.verified(access)
       && exists userId :: Carries(cfg, access, now, userId)
    then
      && (var expiry := cfg.decode(access).value.expiresAt.value * 1000;
          written == store[access := Entry("invalidated", if now < expiry then Some(expiry) else None)])
      && (deleteFails ==> after == db && error == Some(StorageFailure))
      && (!deleteFails ==>
            error == None && forall userId :: Carries(cfg, access, now, userId) ==> after == DeleteUserSessions(db, userId))
    else
      && after == db && written == store && error != Some(StorageFailure)
      && Authenticate(cfg, store, access, now).Err? && error == Some(Authenticate(cfg, store, access, now).error)
  }

  /** The answer to every logout, on any tables and any store. */
  lemma LogoutOutcome(cfg: Config, db: Db, store: Store, access: string, now: int, deleteFails: bool)
    requires Sound(cfg)
    ensures LogoutAnswers(cfg, db, store, access, now, deleteFails)
  {
    DenialExactly(cfg, store, access, now);
    forall userId | Carries(cfg, access, now, userId)
      ensures Get(store, access, now) != Some("invalidated") && cfg.verified(access) ==>
                Authenticate(cfg, store, access, now) == Ok(userId)
    {
      AuthenticatesExactly(cfg, store, access, now, userId);
    }
    var verdict := Authenticate(cfg, store, access, now);
    if verdict.Ok? {
      AuthenticatesExactly(cfg, store, access, now, verdict.value);
    } else {
      RefusedBecause(cfg, store, access, now);
    }
  }

  /** A text without a good signature authenticates for no one, and logging out with it changes nothing. */
  lemma UnverifiedChangesNothing(cfg: Config, w: World, access: string, now: int, deleteFails: bool)
    requires Sound(cfg) && !cfg.verified(access)
    ensures Authenticate(cfg, w.store, access, now).Err?
    ensures LogoutEffect(cfg, w.db, w.store, access, now, deleteFails).2.Some?
    ensures Step(cfg, w, LogoutRequest(access, now, deleteFails)) == w
  {
    if Authenticate(cfg, w.store, access, now).Ok? {
      AuthenticatesExactly(cfg, w.store, access, now, Authenticate(cfg, w.store, access, now).value);
    }
  }

  // ---------- public guid ----------

  /** The guid of an id is the one whose id it is, and an id without a user is an error. */
  lemma GuidOutcome(db: Db, userId: int, guid: string)
    requires Consistent(db)
    ensures PublicGuid(db, userId) == Ok(guid) <==> UserId(db, guid) == Some(userId)
    ensures PublicGuid(db, userId) == Err(NoSuchUser) <==> userId !in db.users
  {
    GuidsAndIds(db, userId, guid);
  }
}
