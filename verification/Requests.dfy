/** Runs of requests that do not overlap, with the tokens handed out along the way. */
module Requests {
  import opened Prelude
  import opened Encoding
  import opened Redis
  import opened Tokens
  import opened Database
  import opened Auth

  datatype Request =
    | IssueRequest(guid: string, meta: Metadata, supply: Supply)
    | RefreshRequest(access: string, refresh: string, meta: Metadata, supply: Supply)
    | LogoutRequest(access: string, now: int, deleteFails: bool)

  /** A pair handed out: the row stored for it, the grant whose token was exchanged for it, and
      the notification the exchange emitted. */
  datatype Grant = Grant(guid: string, session: Session, pair: Pair, parent: Option<nat>, notice: Option<Notice>)

  /** The stores, and two histories: the grants so far, and for each user how many grants there
      were when that user was last revoked. */
  datatype World = World(db: Db, store: Store, grants: seq<Grant>, marks: map<int, nat>)

  const START: World := World(EMPTY, map[], [], map[])

  function Mark(w: World, userId: int): nat {
    if userId in w.marks then w.marks[userId] else 0
  }

  ghost function GrantOf(grants: seq<Grant>, selector: string): (r: Option<nat>)
    ensures r.Some? ==> r.value < |grants| && grants[r.value].session.selector == selector
    ensures r.None? ==> forall i :: 0 <= i < |grants| ==> grants[i].session.selector != selector
  {
    if exists i :: 0 <= i < |grants| && grants[i].session.selector == selector
    then var i: nat :| i < |grants| && grants[i].session.selector == selector; Some(i)
    else None
  }

  /** The user all of whose sessions the request deletes. */
  ghost function Revoked(cfg: Config, w: World, r: Request): Option<int> {
    match r
    case IssueRequest(_, _, _) => None
    case RefreshRequest(access, refresh, meta, supply) =>
      var result := RefreshEffect(cfg, w.db, access, refresh, meta, supply).result;
      var selector := Split(refresh, '.')[0];
      if result == Err(ReuseDetected) && Find(w.db, selector).Some? then Some(Find(w.db, selector).value.userId)
      else if result == Err(AgentChanged) && FindActive(w.db, selector).Some? then Some(FindActive(w.db, selector).value.userId)
      else None
    case LogoutRequest(access, now, deleteFails) =>
      var userId := Authenticate(cfg, w.store, access, now);
      if LogoutEffect(cfg, w.db, w.store, access, now, deleteFails).2.None? && userId.Ok? then Some(userId.value) else None
  }

  /** The pair a request hands out, if it succeeds. */
  ghost function Handed(cfg: Config, w: World, r: Request): Option<Grant> {
    match r
    case LogoutRequest(_, _, _) => None
    case IssueRequest(guid, meta, supply) =>
      var (after, result) := IssueEffect(cfg, w.db, guid, meta, supply);
      if result.Err? || |supply.entropy| < RAW_TOKEN_LENGTH || UserId(after, guid).None? then None
      else
        var session := NewSession(cfg, supply.entropy[..RAW_TOKEN_LENGTH], meta, supply);
        Some(Grant(guid, session.(userId := UserId(after, guid).value), result.value, None, None))
    case RefreshRequest(access, refresh, meta, supply) =>
      var done := RefreshEffect(cfg, w.db, access, refresh, meta, supply);
      var parent := GrantOf(w.grants, Split(refresh, '.')[0]);
      if done.result.Err? || |supply.entropy| < RAW_TOKEN_LENGTH || parent.None? then None
      else
        var session := NewSession(cfg, supply.entropy[..RAW_TOKEN_LENGTH], meta, supply);
        var exchanged := w.grants[parent.value];
        Some(Grant(exchanged.guid, session.(userId := exchanged.session.userId), done.result.value, parent, done.notice))
  }

  ghost function Step(cfg: Config, w: World, r: Request): World {
    var handed := Handed(cfg, w, r);
    var revoked := Revoked(cfg, w, r);
    World(
      match r {
        case IssueRequest(guid, meta, supply) => IssueEffect(cfg, w.db, guid, meta, supply).0
        case RefreshRequest(access, refresh, meta, supply) => RefreshEffect(cfg, w.db, access, refresh, meta, supply).db
        case LogoutRequest(access, now, deleteFails) => LogoutEffect(cfg, w.db, w.store, access, now, deleteFails).0
      },
      if r.LogoutRequest? then LogoutEffect(cfg, w.db, w.store, r.access, r.now, r.deleteFails).1 else w.store,
      if handed.Some? then w.grants + [handed.value] else w.grants,
      if revoked.Some? then w.marks[revoked.value := |w.grants|] else w.marks)
  }

  /** The random source does not repeat what it gave to an earlier grant. */
  ghost predicate Fresh(w: World, r: Request) {
    !r.LogoutRequest? ==>
      forall g :: g in w.grants ==>
        && g.session.jti != r.supply.jti
        && (|r.supply.entropy| >= RAW_TOKEN_LENGTH ==> g.session.selector != Selector(r.supply.entropy[..RAW_TOKEN_LENGTH]))
  }

  ghost function Run(cfg: Config, requests: seq<Request>): World {
    if |requests| == 0 then START
    else Step(cfg, Run(cfg, requests[..|requests| - 1]), requests[|requests| - 1])
  }

  ghost predicate AllFresh(cfg: Config, requests: seq<Request>) {
    |requests| > 0 ==>
      var front := requests[..|requests| - 1];
      AllFresh(cfg, front) && Fresh(Run(cfg, front), requests[|requests| - 1])
  }

  // ---------- what every run keeps ----------

  ghost predicate HasChild(grants: seq<Grant>, i: nat) {
    exists j :: 0 <= j < |grants| && grants[j].parent == Some(i)
  }

  ghost predicate GrantsAreDistinct(grants: seq<Grant>) {
    forall i, j :: 0 <= i < j < |grants| ==>
      grants[i].session.selector != grants[j].session.selector && grants[i].session.jti != grants[j].session.jti
  }

  /** The notification an address change from one grant to the next calls for. */
  function Expected(before: Session, after: Session): Option<Notice> {
    if before.ip != after.ip then Some(Notice(before.userId, before.ip, after.ip, after.userAgent)) else None
  }

  /** A child comes after its parent, for the same user and client; no parent has two; issuing notifies no one. */
  ghost predicate GrantsFormChains(grants: seq<Grant>) {
    && (forall i :: 0 <= i < |grants| && grants[i].parent.Some? ==>
          var p := grants[i].parent.value;
          && p < i
          && grants[i].session.userId == grants[p].session.userId
          && grants[i].session.userAgent == grants[p].session.userAgent
          && grants[i].guid == grants[p].guid
          && grants[i].notice == Expected(grants[p].session, grants[i].session))
    && (forall i, j :: 0 <= i < j < |grants| && grants[i].parent.Some? ==> grants[i].parent != grants[j].parent)
    && (forall i :: 0 <= i < |grants| && grants[i].parent.None? ==> grants[i].notice.None?)
  }

  ghost predicate PairMatches(cfg: Config, g: Grant) {
    && g.pair.access == MintAccess(cfg, g.session.userId, g.session.createdAt, g.session.jti)
    && |Split(g.pair.refresh, '.')| == TOKEN_PARTS_EXPECTED
    && Split(g.pair.refresh, '.')[0] == g.session.selector
    && CheckRefresh(cfg, g.pair.refresh, g.session.verifierHash) == None
  }

  ghost predicate GrantsMatchUsers(cfg: Config, w: World) {
    forall i :: 0 <= i < |w.grants| ==>
      && PairMatches(cfg, w.grants[i])
      && w.grants[i].session.userId in w.db.users
      && w.db.users[w.grants[i].session.userId] == w.grants[i].guid
  }

  /** Live grants are the ones made since their user was last revoked. */
  predicate IsLive(w: World, i: nat)
    requires i < |w.grants|
  {
    Mark(w, w.grants[i].session.userId) <= i
  }

  /** A live grant has its row, active until it is exchanged and used after; a revoked one has none. */
  ghost predicate GrantHasRow(w: World, i: nat)
    requires i < |w.grants|
  {
    var id := RowId(w.db, w.grants[i].session.selector);
    && (id.Some? <==> IsLive(w, i))
    && (id.Some? ==> w.db.sessions[id.value] == Row(w.grants[i].session, if HasChild(w.grants, i) then Used else Active))
  }

  ghost predicate RowsMatchGrants(w: World) {
    && (forall i :: 0 <= i < |w.grants| ==> GrantHasRow(w, i))
    && (forall id :: id in w.db.sessions ==> GrantOf(w.grants, w.db.sessions[id].session.selector).Some?)
  }

  ghost predicate MarksAreSane(w: World) {
    && (forall u :: u in w.marks ==> w.marks[u] <= |w.grants|)
    && (forall i :: 0 <= i < |w.grants| && w.grants[i].parent.Some? ==>
          var p := w.grants[i].parent.value;
          p < |w.grants| && (IsLive(w, i) <==> IsLive(w, p)))
  }

  ghost predicate Good(cfg: Config, w: World) {
    && Consistent(w.db)
    && GrantsAreDistinct(w.grants)
    && GrantsFormChains(w.grants)
    && GrantsMatchUsers(cfg, w)
    && RowsMatchGrants(w)
    && MarksAreSane(w)
  }
}
