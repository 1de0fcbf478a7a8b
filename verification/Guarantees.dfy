/** What holds in every run of requests that do not overlap. */
module Guarantees {
  import opened Prelude
  import opened Decimal
  import opened Encoding
  import opened Redis
  import opened Tokens
  import opened Database
  import opened Auth
  import opened Requests
  import opened Lineage

  // ---------- chains ----------

  /** The grants from the issue a grant descends from down to the grant itself. */
  ghost function ChainOf(grants: seq<Grant>, i: nat): (c: seq<nat>)
    requires GrantsFormChains(grants) && i < |grants|
    ensures |c| > 0 && c[|c| - 1] == i && forall k :: 0 <= k < |c| ==> c[k] < |grants|
    decreases i
  {
    match grants[i].parent
    case None => [i]
    case Some(p) => ChainOf(grants, p) + [i]
  }

  ghost predicate IsUsed(db: Db, selector: string) {
    Stored(db, selector) && db.sessions[RowId(db, selector).value].status == Used
  }

  lemma {:induction false} ChainFacts(cfg: Config, w: World, i: nat)
    requires Good(cfg, w) && i < |w.grants|
    ensures var c := ChainOf(w.grants, i);
            && w.grants[c[0]].parent.None?
            && (forall k :: 0 < k < |c| ==> w.grants[c[k]].parent == Some(c[k - 1]))
            && (forall k :: 0 <= k < |c| ==>
                  && w.grants[c[k]].session.userId == w.grants[i].session.userId
                  && w.grants[c[k]].session.userAgent == w.grants[i].session.userAgent
                  && w.grants[c[k]].guid == w.grants[i].guid
                  && (IsLive(w, c[k]) <==> IsLive(w, i)))
    decreases i
  {
    if w.grants[i].parent.Some? {
      ChainFacts(cfg, w, w.grants[i].parent.value);
    }
  }

  lemma ChainRows(cfg: Config, w: World, i: nat)
    requires Good(cfg, w) && i < |w.grants|
    ensures var c := ChainOf(w.grants, i);
            && (forall k :: 0 <= k < |c| ==> (Stored(w.db, w.grants[c[k]].session.selector) <==> IsLive(w, i)))
            && (IsLive(w, i) ==>
                  && (forall k :: 0 <= k < |c| - 1 ==> IsUsed(w.db, w.grants[c[k]].session.selector))
                  && (IsUsed(w.db, w.grants[i].session.selector) <==> HasChild(w.grants, i)))
  {
    var c := ChainOf(w.grants, i);
    ChainFacts(cfg, w, i);
    forall k | 0 <= k < |c|
      ensures GrantHasRow(w, c[k]) && (k < |c| - 1 ==> HasChild(w.grants, c[k]))
    {
      if k < |c| - 1 {
        assert w.grants[c[k + 1]].parent == Some(c[k]);
      }
    }
  }

  /** In every run the chain a grant ends is linear, belongs to one user and one client, is
      stored whole or gone whole, and while stored has every row but the newest used. */
  lemma ChainsAreWhole(cfg: Config, requests: seq<Request>, i: nat)
    requires AllFresh(cfg, requests) && i < |Run(cfg, requests).grants|
    ensures var w := Run(cfg, requests);
            && GrantsFormChains(w.grants)
            && var c := ChainOf(w.grants, i);
            && w.grants[c[0]].parent.None?
            && (forall k :: 0 < k < |c| ==> w.grants[c[k]].parent == Some(c[k - 1]))
            && (forall k :: 0 <= k < |c| ==>
                  && w.grants[c[k]].session.userId == w.grants[i].session.userId
                  && w.grants[c[k]].session.userAgent == w.grants[i].session.userAgent
                  && (Stored(w.db, w.grants[c[k]].session.selector) <==> IsLive(w, i)))
            && (IsLive(w, i) ==>
                  && (forall k :: 0 <= k < |c| - 1 ==> IsUsed(w.db, w.grants[c[k]].session.selector))
                  && (IsUsed(w.db, w.grants[i].session.selector) <==> HasChild(w.grants, i)))
  {
    RunKeepsGood(cfg, requests);
    ChainFacts(cfg, Run(cfg, requests), i);
    ChainRows(cfg, Run(cfg, requests), i);
  }

  /** Two chains from the same issue are the same line: one continues the other. */
  lemma {:induction false} ChainsDoNotFork(grants: seq<Grant>, i: nat, j: nat)
    requires GrantsFormChains(grants) && i < |grants| && j < |grants|
    requires ChainOf(grants, i)[0] == ChainOf(grants, j)[0]
    requires |ChainOf(grants, i)| <= |ChainOf(grants, j)|
    ensures ChainOf(grants, i) <= ChainOf(grants, j)
    decreases j
  {
    var a, b := ChainOf(grants, i), ChainOf(grants, j);
    if |a| < |b| {
      ChainsDoNotFork(grants, i, grants[j].parent.value);
    } else if grants[i].parent.Some? {
      var p, q := grants[i].parent.value, grants[j].parent.value;
      ChainsDoNotFork(grants, p, q);
      assert ChainOf(grants, p)[|a| - 2] == p && ChainOf(grants, q)[|a| - 2] == q;
    }
  }

  // ---------- histories only grow ----------

  lemma {:induction false} HistoryGrows(cfg: Config, requests: seq<Request>, k: nat)
    requires AllFresh(cfg, requests) && k <= |requests|
    ensures var (w, w') := (Run(cfg, requests[..k]), Run(cfg, requests));
            && w.grants <= w'.grants
            && (forall u :: u in w.db.users ==> u in w'.db.users && w'.db.users[u] == w.db.users[u])
  {
    if k == |requests| {
      assert requests[..k] == requests;
    } else {
      var front := requests[..|requests| - 1];
      assert front[..k] == requests[..k];
      LastStep(cfg, requests);
      HistoryGrows(cfg, front, k);
    }
  }

  // ---------- single use and replay ----------

  ghost predicate Exchanged(grants: seq<Grant>, selector: string) {
    exists p: nat :: p < |grants| && HasChild(grants, p) && grants[p].session.selector == selector
  }

  lemma SuccessIsExchange(cfg: Config, requests: seq<Request>)
    requires AllFresh(cfg, requests) && |requests| > 0
    requires var (front, last) := (requests[..|requests| - 1], requests[|requests| - 1]);
             last.RefreshRequest? && Handed(cfg, Run(cfg, front), last).Some?
    ensures Exchanged(Run(cfg, requests).grants, Split(requests[|requests| - 1].refresh, '.')[0])
  {
    var front, last := requests[..|requests| - 1], requests[|requests| - 1];
    var before, after := Run(cfg, front).grants, Run(cfg, requests).grants;
    LastStep(cfg, requests);
    var p := GrantOf(before, Split(last.refresh, '.')[0]).value;
    assert after[|before|].parent == Some(p) && after[p] == before[p];
  }

  lemma ExchangeIsForEver(before: seq<Grant>, after: seq<Grant>, selector: string)
    requires Exchanged(before, selector) && before <= after
    ensures Exchanged(after, selector)
  {
    var p: nat :| p < |before| && HasChild(before, p) && before[p].session.selector == selector;
    var j :| 0 <= j < |before| && before[j].parent == Some(p);
    assert after[j] == before[j] && after[p] == before[p];
  }

  lemma ExchangedIsRefused(cfg: Config, w: World, r: Request, selector: string)
    requires Good(cfg, w) && Exchanged(w.grants, selector)
    requires r.RefreshRequest? && Handed(cfg, w, r).Some?
    ensures Split(r.refresh, '.')[0] != selector
  {
    var p: nat :| p < |w.grants| && HasChild(w.grants, p) && w.grants[p].session.selector == selector;
    GrantIndex(w, p);
    ActiveRowIsGrants(cfg, w, Split(r.refresh, '.')[0]);
  }

  lemma StaysExchanged(cfg: Config, requests: seq<Request>, a: nat)
    requires AllFresh(cfg, requests) && a < |requests|
    requires requests[a].RefreshRequest? && Handed(cfg, Run(cfg, requests[..a]), requests[a]).Some?
    ensures Exchanged(Run(cfg, requests).grants, Split(requests[a].refresh, '.')[0])
  {
    var upTo := requests[..a + 1];
    PrefixesAreFresh(cfg, requests, a + 1);
    assert upTo[..a] == requests[..a];
    SuccessIsExchange(cfg, upTo);
    HistoryGrows(cfg, requests, a + 1);
    ExchangeIsForEver(Run(cfg, upTo).grants, Run(cfg, requests).grants, Split(requests[a].refresh, '.')[0]);
  }

  /** No two refreshes of a run both succeed on the same refresh token. */
  lemma SingleUse(cfg: Config, requests: seq<Request>, a: nat, b: nat)
    requires AllFresh(cfg, requests) && a < b < |requests|
    requires requests[a].RefreshRequest? && Handed(cfg, Run(cfg, requests[..a]), requests[a]).Some?
    requires requests[b].RefreshRequest? && Handed(cfg, Run(cfg, requests[..b]), requests[b]).Some?
    ensures Split(requests[a].refresh, '.')[0] != Split(requests[b].refresh, '.')[0]
  {
    var front := requests[..b];
    PrefixesAreFresh(cfg, requests, b);
    assert front[..a] == requests[..a];
    StaysExchanged(cfg, front, a);
    RunKeepsGood(cfg, front);
    ExchangedIsRefused(cfg, Run(cfg, front), requests[b], Split(requests[a].refresh, '.')[0]);
  }

  /** Presenting an exchanged token again deletes exactly its owner's rows, unless the owner has
      been revoked since it was granted. After that, or if so, it is unknown and nothing changes. */
  lemma ReplayIsDetected(cfg: Config, requests: seq<Request>, i: nat, access: string, refresh: string,
                         meta: Metadata, supply: Supply)
    requires AllFresh(cfg, requests) && i < |Run(cfg, requests).grants|
    requires HasChild(Run(cfg, requests).grants, i)
    requires cfg.decode(access).Some? && |Split(refresh, '.')| == TOKEN_PARTS_EXPECTED
    requires Split(refresh, '.')[0] == Run(cfg, requests).grants[i].session.selector
    ensures var w := Run(cfg, requests);
            var once := RefreshEffect(cfg, w.db, access, refresh, meta, supply);
            var twice := RefreshEffect(cfg, once.db, access, refresh, meta, supply);
            && once.notice.None?
            && (IsLive(w, i) ==> once.result == Err(ReuseDetected)
                                 && once.db == DeleteUserSessions(w.db, w.grants[i].session.userId))
            && (!IsLive(w, i) ==> once.result == Err(SessionNotFound) && once.db == w.db)
            && twice == Refreshed(once.db, Err(SessionNotFound), None)
  {
    RunKeepsGood(cfg, requests);
    var w := Run(cfg, requests);
    var g := w.grants[i];
    assert GrantHasRow(w, i);
    RowIdAfterDelete(w.db, g.session.userId, g.session.selector);
  }

  // ---------- only tokens that were handed out ----------

  /** The verifier presented and the verifier of a token handed out have different digests if they differ. */
  ghost predicate NoCollision(cfg: Config, g: Grant, refresh: string) {
    var a, b := Split(refresh, '.'), Split(g.pair.refresh, '.');
    |a| == TOKEN_PARTS_EXPECTED && |b| == TOKEN_PARTS_EXPECTED ==> CollisionFree(cfg.sha256, {a[1], b[1]})
  }

  /** A text accepted against the hash of a made token, with that token's selector, is that token. */
  lemma SameToken(cfg: Config, g: Grant, refresh: string)
    requires NoCollision(cfg, g, refresh) && PairMatches(cfg, g)
    requires |Split(refresh, '.')| == TOKEN_PARTS_EXPECTED && Split(refresh, '.')[0] == g.session.selector
    requires CheckRefresh(cfg, refresh, g.session.verifierHash) == None
    ensures refresh == g.pair.refresh
  {
    var a, b := Split(refresh, '.'), Split(g.pair.refresh, '.');
    assert cfg.sha256(a[1]) == cfg.sha256(b[1]);
    assert a == [a[0], a[1]] && b == [b[0], b[1]];
    SplitParts(refresh, '.');
    SplitParts(g.pair.refresh, '.');
  }

  lemma AcceptedIsHanded(cfg: Config, w: World, access: string, refresh: string, meta: Metadata, supply: Supply) returns (i: nat)
    requires Good(cfg, w) && forall g :: g in w.grants ==> NoCollision(cfg, g, refresh)
    requires RefreshEffect(cfg, w.db, access, refresh, meta, supply).result.Ok?
    ensures i < |w.grants| && IsLive(w, i) && !HasChild(w.grants, i)
    ensures refresh == w.grants[i].pair.refresh && meta.userAgent == w.grants[i].session.userAgent
    ensures cfg.decode(access).Some? && cfg.decode(access).value.jti == w.grants[i].session.jti
  {
    var selector := Split(refresh, '.')[0];
    RotationEffect(cfg, w.db, access, refresh, meta, supply);
    ActiveRowIsGrants(cfg, w, selector);
    i := GrantOf(w.grants, selector).value;
    assert PairMatches(cfg, w.grants[i]) && w.grants[i] in w.grants;
    SameToken(cfg, w.grants[i], refresh);
  }

  /** A refresh succeeds only on the exact text of a refresh token handed out earlier in the run,
      neither exchanged nor revoked since, from its client, together with an access token that
      carries its token id, unless the verifier presented collides with one handed out. */
  lemma OnlyHandedTokensWork(cfg: Config, requests: seq<Request>, access: string, refresh: string, meta: Metadata, supply: Supply)
    requires Sound(cfg) && AllFresh(cfg, requests)
    requires forall g :: g in Run(cfg, requests).grants ==> NoCollision(cfg, g, refresh)
    requires RefreshEffect(cfg, Run(cfg, requests).db, access, refresh, meta, supply).result.Ok?
    ensures var w := Run(cfg, requests);
            exists i: nat :: i < |w.grants| && IsLive(w, i) && !HasChild(w.grants, i)
                             && refresh == w.grants[i].pair.refresh
                             && meta.userAgent == w.grants[i].session.userAgent
                             && cfg.decode(access).Some? && cfg.decode(access).value.jti == w.grants[i].session.jti
  {
    RunKeepsGood(cfg, requests);
    var i := AcceptedIsHanded(cfg, Run(cfg, requests), access, refresh, meta, supply);
  }

  // ---------- the two halves of a pair ----------

  lemma MintedClaims(cfg: Config, userId: int, now: int, jti: string)
    requires Sound(cfg)
    ensures cfg.decode(MintAccess(cfg, userId, now, jti)) == Some(MintClaims(cfg, userId, now, jti))
  {
  }

  /** While its row is active, a refresh token works with the access token it was handed out
      with, from the same client; from another client it deletes exactly its owner's rows; with
      any other access token of the run it is refused and nothing changes. */
  lemma PairsAreBound(cfg: Config, requests: seq<Request>, i: nat, j: nat, meta: Metadata, supply: Supply)
    requires Sound(cfg) && AllFresh(cfg, requests)
    requires i < |Run(cfg, requests).grants| && j < |Run(cfg, requests).grants|
    requires IsLive(Run(cfg, requests), i) && !HasChild(Run(cfg, requests).grants, i)
    ensures var w := Run(cfg, requests);
            var done := RefreshEffect(cfg, w.db, w.grants[j].pair.access, w.grants[i].pair.refresh, meta, supply);
            && (i != j ==> done == Refreshed(w.db, Err(PairMismatch), None))
            && (i == j && meta.userAgent != w.grants[i].session.userAgent ==>
                  done == Refreshed(DeleteUserSessions(w.db, w.grants[i].session.userId), Err(AgentChanged), None))
            && (i == j && meta.userAgent == w.grants[i].session.userAgent && w.db.nextSession <= MAX_INT64
                && |supply.entropy| >= RAW_TOKEN_LENGTH
                && !Stored(w.db, Selector(supply.entropy[..RAW_TOKEN_LENGTH])) ==>
                  done.result.Ok?)
  {
    RunKeepsGood(cfg, requests);
    var w := Run(cfg, requests);
    var g, h := w.grants[i], w.grants[j];
    assert GrantHasRow(w, i) && PairMatches(cfg, g) && PairMatches(cfg, h);
    MintedClaims(cfg, h.session.userId, h.session.createdAt, h.session.jti);
    assert FindActive(w.db, g.session.selector) == Some(g.session);
    if i == j && |supply.entropy| >= RAW_TOKEN_LENGTH {
      var session := NewSession(cfg, supply.entropy[..RAW_TOKEN_LENGTH], meta, supply);
      RotationCommits(w.db, g.session.selector, session, g.session.userId);
    }
  }

  // ---------- logout ----------

  /** After a logout with grant `i`'s access token: every row of its user is gone and no other,
      unless the deletion fails, and then none is. Either way, from then on the token authenticates
      again at most in the five seconds after its expiry, and there exactly if the logout came
      before the expiry. */
  ghost predicate LoggedOut(cfg: Config, w: World, i: nat, now: int, deleteFails: bool, later: int)
    requires i < |w.grants|
  {
    var g := w.grants[i];
    var (db, store, error) := LogoutEffect(cfg, w.db, w.store, g.pair.access, now, deleteFails);
    var expiry := (g.session.createdAt + cfg.accessTtl) / 1000 * 1000;
    && error == (if deleteFails then Some(StorageFailure) else None)
    && db == (if deleteFails then w.db else DeleteUserSessions(w.db, g.session.userId))
    && (Authenticate(cfg, store, g.pair.access, later).Ok? <==> now < expiry < later < expiry + 5_000)
  }

  lemma LogoutInGoodWorld(cfg: Config, w: World, i: nat, now: int, deleteFails: bool, later: int)
    requires Sound(cfg) && Good(cfg, w) && i < |w.grants| && now <= later
    requires Authenticate(cfg, w.store, w.grants[i].pair.access, now).Ok?
    ensures LoggedOut(cfg, w, i, now, deleteFails, later)
  {
    var s := w.grants[i].session;
    assert PairMatches(cfg, w.grants[i]);
    DeniedTokenRejected(cfg, w.store, s.userId, s.jti, s.createdAt, now, later);
    MintedTokenAccepted(cfg, w.store, s.userId, s.jti, s.createdAt, now);
  }

  /** In every run an access token that authenticates can be logged out, with exactly that effect. */
  lemma LogoutRevokes(cfg: Config, requests: seq<Request>, i: nat, now: int, deleteFails: bool, later: int)
    requires Sound(cfg) && AllFresh(cfg, requests)
    requires i < |Run(cfg, requests).grants| && now <= later
    requires Authenticate(cfg, Run(cfg, requests).store, Run(cfg, requests).grants[i].pair.access, now).Ok?
    ensures LoggedOut(cfg, Run(cfg, requests), i, now, deleteFails, later)
  {
    RunKeepsGood(cfg, requests);
    LogoutInGoodWorld(cfg, Run(cfg, requests), i, now, deleteFails, later);
  }

  /** After a logout with grant `i`'s access token whose deletion failed: the rows are still
      there, and logging out again with that token works exactly in the five seconds after its
      expiry. */
  ghost predicate RetryIsLate(cfg: Config, w: World, i: nat, now: int, later: int)
    requires i < |w.grants|
  {
    var g := w.grants[i];
    var (db, store, error) := LogoutEffect(cfg, w.db, w.store, g.pair.access, now, true);
    var again := LogoutEffect(cfg, db, store, g.pair.access, later, false);
    var expiry := (g.session.createdAt + cfg.accessTtl) / 1000 * 1000;
    && error == Some(StorageFailure) && db == w.db
    && (again.2.None? <==> now < expiry < later < expiry + 5_000)
    && again.0 == if again.2.None? then DeleteUserSessions(w.db, g.session.userId) else w.db
  }

  lemma RetryInGoodWorld(cfg: Config, w: World, i: nat, now: int, later: int)
    requires Sound(cfg) && Good(cfg, w) && i < |w.grants| && now <= later
    requires Authenticate(cfg, w.store, w.grants[i].pair.access, now).Ok?
    ensures RetryIsLate(cfg, w, i, now, later)
  {
    var s := w.grants[i].session;
    assert PairMatches(cfg, w.grants[i]);
    LogoutInGoodWorld(cfg, w, i, now, true, later);
    var store := LogoutEffect(cfg, w.db, w.store, w.grants[i].pair.access, now, true).1;
    MintedTokenAccepted(cfg, store, s.userId, s.jti, s.createdAt, later);
  }

  /** A logout whose deletion failed cannot be repeated before the token's expiry, in any run. */
  lemma FailedLogoutRetry(cfg: Config, requests: seq<Request>, i: nat, now: int, later: int)
    requires Sound(cfg) && AllFresh(cfg, requests)
    requires i < |Run(cfg, requests).grants| && now <= later
    requires Authenticate(cfg, Run(cfg, requests).store, Run(cfg, requests).grants[i].pair.access, now).Ok?
    ensures RetryIsLate(cfg, Run(cfg, requests), i, now, later)
  {
    RunKeepsGood(cfg, requests);
    RetryInGoodWorld(cfg, Run(cfg, requests), i, now, later);
  }

  // ---------- identity ----------

  /** Whatever happens after a pair was handed out, its access token, when it authenticates,
      leads back to the guid the chain was issued for. */
  lemma IdentityRoundTrip(cfg: Config, requests: seq<Request>, i: nat, store: Store, now: int)
    requires Sound(cfg) && AllFresh(cfg, requests) && i < |Run(cfg, requests).grants|
    ensures var w := Run(cfg, requests);
            var verdict := Authenticate(cfg, store, w.grants[i].pair.access, now);
            verdict.Ok? ==> PublicGuid(w.db, verdict.value) == Ok(w.grants[i].guid)
  {
    RunKeepsGood(cfg, requests);
    var w := Run(cfg, requests);
    var s := w.grants[i].session;
    assert PairMatches(cfg, w.grants[i]);
    MintedTokenAccepted(cfg, store, s.userId, s.jti, s.createdAt, now);
  }

  /** Users are never renamed or dropped, and at every moment guids and ids match one to one. */
  lemma UsersAreForEver(cfg: Config, requests: seq<Request>, k: nat)
    requires AllFresh(cfg, requests) && k <= |requests|
    ensures var (past, latest) := (Run(cfg, requests[..k]).db, Run(cfg, requests).db);
            (forall u :: u in past.users ==> UserId(latest, past.users[u]) == Some(u) && latest.users[u] == past.users[u])
  {
    HistoryGrows(cfg, requests, k);
    RunKeepsGood(cfg, requests);
    var past, latest := Run(cfg, requests[..k]).db, Run(cfg, requests).db;
    forall u | u in past.users ensures UserId(latest, past.users[u]) == Some(u) {
      UserIdIs(latest, u);
    }
  }

  // ---------- notifications along a chain ----------

  function NoticesOf(grants: seq<Grant>, chain: seq<nat>): seq<Notice>
    requires forall k :: 0 <= k < |chain| ==> chain[k] < |grants|
  {
    if |chain| == 0 then []
    else
      var last := grants[chain[|chain| - 1]].notice;
      NoticesOf(grants, chain[..|chain| - 1]) + if last.Some? then [last.value] else []
  }

  function Addresses(grants: seq<Grant>, chain: seq<nat>): seq<string>
    requires forall k :: 0 <= k < |chain| ==> chain[k] < |grants|
  {
    seq(|chain|, k requires 0 <= k < |chain| => grants[chain[k]].session.ip)
  }

  /** One notification for each place where an address differs from the one before it. */
  function AddressChanges(userId: int, userAgent: string, ips: seq<string>): seq<Notice> {
    if |ips| < 2 then []
    else
      var n := |ips| - 1;
      AddressChanges(userId, userAgent, ips[..n]) +
      if ips[n - 1] != ips[n] then [Notice(userId, ips[n - 1], ips[n], userAgent)] else []
  }

  lemma NoticesExtend(grants: seq<Grant>, front: seq<nat>, i: nat)
    requires forall k :: 0 <= k < |front| ==> front[k] < |grants|
    requires i < |grants| && |front| > 0
    ensures NoticesOf(grants, front + [i]) == NoticesOf(grants, front) + if grants[i].notice.Some? then [grants[i].notice.value] else []
    ensures Addresses(grants, front + [i]) == Addresses(grants, front) + [grants[i].session.ip]
  {
    assert (front + [i])[..|front|] == front;
  }

  lemma ChangesExtend(userId: int, userAgent: string, ips: seq<string>, ip: string)
    requires |ips| > 0
    ensures AddressChanges(userId, userAgent, ips + [ip]) == AddressChanges(userId, userAgent, ips)
              + if ips[|ips| - 1] != ip then [Notice(userId, ips[|ips| - 1], ip, userAgent)] else []
  {
    assert (ips + [ip])[..|ips|] == ips;
  }

  lemma {:induction false} ChainNotices(grants: seq<Grant>, i: nat)
    requires GrantsFormChains(grants) && i < |grants|
    ensures var c := ChainOf(grants, i);
            var s := grants[i].session;
            NoticesOf(grants, c) == AddressChanges(s.userId, s.userAgent, Addresses(grants, c))
    decreases i
  {
    if grants[i].parent.Some? {
      var p := grants[i].parent.value;
      var front, s := ChainOf(grants, p), grants[i].session;
      ChainNotices(grants, p);
      NoticesExtend(grants, front, i);
      ChangesExtend(s.userId, s.userAgent, Addresses(grants, front), s.ip);
    } else {
      assert NoticesOf(grants, [i]) == NoticesOf(grants, []) + [];
    }
  }

  /** The notifications the successful refreshes of a chain emitted are exactly its address
      changes, each with the old and the new address. */
  lemma NoticesFollowAddresses(cfg: Config, requests: seq<Request>, i: nat)
    requires AllFresh(cfg, requests) && i < |Run(cfg, requests).grants|
    ensures var w := Run(cfg, requests);
            && GrantsFormChains(w.grants)
            && var c := ChainOf(w.grants, i);
            var s := w.grants[i].session;
            NoticesOf(w.grants, c) == AddressChanges(s.userId, s.userAgent, Addresses(w.grants, c))
  {
    RunKeepsGood(cfg, requests);
    ChainNotices(Run(cfg, requests).grants, i);
  }

  // ---------- conservation of rows ----------

  /** The issues, or with `rotated` the rotations, for a user among the grants from an index on. */
  function GrantsFor(grants: seq<Grant>, from: nat, userId: int, rotated: bool): nat {
    if |grants| <= from then 0
    else
      var last := grants[|grants| - 1];
      GrantsFor(grants[..|grants| - 1], from, userId, rotated) +
      if last.session.userId == userId && last.parent.Some? == rotated then 1 else 0
  }

  ghost predicate Conserved(w: World, userId: int) {
    && |ActiveIds(w.db, userId)| == GrantsFor(w.grants, Mark(w, userId), userId, false)
    && |RowIds(w.db, userId)| == GrantsFor(w.grants, Mark(w, userId), userId, false)
                                 + GrantsFor(w.grants, Mark(w, userId), userId, true)
  }

  lemma GrantsForExtends(grants: seq<Grant>, g: Grant, from: nat, userId: int, rotated: bool)
    requires from <= |grants|
    ensures GrantsFor(grants + [g], from, userId, rotated) == GrantsFor(grants, from, userId, rotated)
              + if g.session.userId == userId && g.parent.Some? == rotated then 1 else 0
  {
    assert (grants + [g])[..|grants|] == grants;
  }

  lemma GrantConserves(cfg: Config, w: World, w': World, g: Grant, userId: int)
    requires Good(cfg, w) && Granted(cfg, w, w', g) && Conserved(w, userId)
    ensures Conserved(w', userId)
  {
    GrantsForExtends(w.grants, g, Mark(w, userId), userId, false);
    GrantsForExtends(w.grants, g, Mark(w, userId), userId, true);
    if g.parent.None? {
      CountAfterInsert(w.db, w'.db, g.session, userId);
    } else {
      var selector := w.grants[g.parent.value].session.selector;
      CountAfterMark(w.db, selector, userId);
      CountAfterInsert(MarkUsed(w.db, selector), w'.db, g.session, userId);
    }
  }

  lemma NothingAtStart(userId: int)
    ensures Conserved(START, userId)
  {
    assert RowIds(EMPTY, userId) == {} && ActiveIds(EMPTY, userId) == {};
  }

  lemma WipeConserves(w: World, w': World, deleted: int, userId: int)
    requires Wiped(w, w', deleted) && Conserved(w, userId)
    ensures Conserved(w', userId)
  {
    CountAfterDelete(w.db, deleted, userId);
  }

  /** A user's active rows are the issues since that user was last revoked; all of the user's
      rows are those issues and the rotations since. */
  lemma {:induction false} RowsAreConserved(cfg: Config, requests: seq<Request>, userId: int)
    requires AllFresh(cfg, requests)
    ensures Conserved(Run(cfg, requests), userId)
  {
    if |requests| == 0 {
      NothingAtStart(userId);
    } else {
      var front, last := requests[..|requests| - 1], requests[|requests| - 1];
      var w, w' := Run(cfg, front), Run(cfg, requests);
      LastStep(cfg, requests);
      RowsAreConserved(cfg, front, userId);
      if Handed(cfg, w, last).Some? {
        GrantConserves(cfg, w, w', Handed(cfg, w, last).value, userId);
      } else if Revoked(cfg, w, last).Some? {
        WipeConserves(w, w', Revoked(cfg, w, last).value, userId);
      }
    }
  }
}
