/** Any number of requests in flight. Each storage call or transaction is one step, and the
    steps of different requests interleave freely. A request may stop at any point, which
    covers every storage error, cancelled context and crash. */
module Interleaving {
  import opened Prelude
  import opened Encoding
  import opened Tokens
  import opened Database
  import opened Auth

  /** Where a request stands: the storage call it makes next. */
  datatype Phase =
    | Issuing(guid: string, session: Session)
    | Presented(jti: string, refresh: string, meta: Metadata)
    | Missed(selector: string)
    | Revoking(userId: int)
    | Rotating(selector: string, session: Session, userId: int)
    | Finished

  /** What the storage calls that matter did, in the order they took effect. */
  datatype Event =
    | LookedUp(request: nat, selector: string, active: bool)
    | Issued(request: nat, session: Session)
    | Rotated(request: nat, selector: string, session: Session, fromActive: bool)
    | Wiped(request: nat, userId: int)

  /** The tables, the requests by number, every selector and every token id drawn so far, and the log. */
  datatype State = State(db: Db, requests: map<nat, Phase>, drawn: set<string>, ids: set<string>, log: seq<Event>)

  const IDLE: State := State(EMPTY, map[], {}, {}, [])

  datatype Action =
    | BeginIssue(request: nat, guid: string, meta: Metadata, supply: Supply)
    | BeginRefresh(request: nat, access: string, refresh: string, meta: Metadata)
    | BeginLogout(request: nat, userId: int)
    | Advance(request: nat, supply: Supply)
    | Abort(request: nat)

  // ---------- steps ----------

  ghost function Enter(s: State, r: nat, phase: Phase): State {
    s.(requests := s.requests[r := phase])
  }

  ghost function Record(s: State, r: nat, phase: Phase, db: Db, e: Event): State {
    s.(db := db, requests := s.requests[r := phase], log := s.log + [e])
  }

  /** The new row a request is about to store. */
  function Pending(p: Phase): Option<Session> {
    if p.Issuing? || p.Rotating? then Some(p.session) else None
  }

  /** A request that enters this phase has drawn the selector and the token id of its new row. */
  ghost function Draw(s: State, p: Phase): State {
    match Pending(p)
    case None => s
    case Some(session) => s.(drawn := s.drawn + {session.selector}, ids := s.ids + {session.jti})
  }

  ghost function LookUp(cfg: Config, s: State, r: nat, phase: Phase, supply: Supply): State
    requires phase.Presented?
  {
    var selector := Split(phase.refresh, '.')[0];
    match FindActive(s.db, selector)
    case None => Record(s, r, Missed(selector), s.db, LookedUp(r, selector, false))
    case Some(found) =>
      var looked := LookedUp(r, selector, true);
      match Decide(cfg, found, phase.jti, phase.refresh, phase.meta, supply).0
      case Refuse(_) => Record(s, r, Finished, s.db, looked)
      case Revoke(userId, _) => Record(s, r, Revoking(userId), s.db, looked)
      case Rotate(session, userId, _) =>
        Draw(Record(s, r, Rotating(selector, session, userId), s.db, looked), Rotating(selector, session, userId))
  }

  ghost function Call(cfg: Config, s: State, r: nat, phase: Phase, supply: Supply): State {
    match phase
    case Issuing(guid, session) =>
      (match IssueTx(s.db, guid, session)
       case Err(_) => Enter(s, r, Finished)
       case Ok(done) => Record(s, r, Finished, done.0, Issued(r, session.(userId := done.1))))
    case Presented(_, _, _) => LookUp(cfg, s, r, phase, supply)
    case Missed(selector) =>
      (match Find(s.db, selector)
       case None => Enter(s, r, Finished)
       case Some(found) => Enter(s, r, Revoking(found.userId)))
    case Revoking(userId) => Record(s, r, Finished, DeleteUserSessions(s.db, userId), Wiped(r, userId))
    case Rotating(selector, session, userId) =>
      (match RotateTx(s.db, selector, session, userId)
       case Err(_) => Enter(s, r, Finished)
       case Ok(after) =>
         Record(s, r, Finished, after,
                Rotated(r, selector, session.(userId := userId), FindActive(s.db, selector).Some?)))
    case Finished => s
  }

  ghost function Next(cfg: Config, s: State, a: Action): State {
    match a
    case BeginIssue(r, guid, meta, supply) =>
      if |supply.entropy| < RAW_TOKEN_LENGTH then Enter(s, r, Finished)
      else
        var session := NewSession(cfg, supply.entropy[..RAW_TOKEN_LENGTH], meta, supply);
        Draw(Enter(s, r, Issuing(guid, session)), Issuing(guid, session))
    case BeginRefresh(r, access, refresh, meta) =>
      if cfg.decode(access).None? || |Split(refresh, '.')| != TOKEN_PARTS_EXPECTED then Enter(s, r, Finished)
      else Enter(s, r, Presented(cfg.decode(access).value.jti, refresh, meta))
    case BeginLogout(r, userId) => Enter(s, r, Revoking(userId))
    case Advance(r, supply) => if r in s.requests then Call(cfg, s, r, s.requests[r], supply) else s
    case Abort(r) => if r in s.requests then Enter(s, r, Finished) else s
  }

  /** The random source never repeats a selector or a token id. */
  ghost predicate FreshDraw(s: State, supply: Supply) {
    |supply.entropy| >= RAW_TOKEN_LENGTH ==>
      Selector(supply.entropy[..RAW_TOKEN_LENGTH]) !in s.drawn && supply.jti !in s.ids
  }

  ghost predicate Enabled(s: State, a: Action) {
    match a
    case BeginIssue(r, _, _, supply) => r !in s.requests && FreshDraw(s, supply)
    case BeginRefresh(r, _, _, _) => r !in s.requests
    case BeginLogout(r, _) => r !in s.requests
    case Advance(r, supply) =>
      r in s.requests && !s.requests[r].Finished? && (s.requests[r].Presented? ==> FreshDraw(s, supply))
    case Abort(r) => r in s.requests && !s.requests[r].Finished?
  }

  ghost function Run(cfg: Config, actions: seq<Action>): State {
    if |actions| == 0 then IDLE
    else Next(cfg, Run(cfg, actions[..|actions| - 1]), actions[|actions| - 1])
  }

  ghost predicate AllEnabled(cfg: Config, actions: seq<Action>) {
    |actions| > 0 ==>
      var front := actions[..|actions| - 1];
      AllEnabled(cfg, front) && Enabled(Run(cfg, front), actions[|actions| - 1])
  }

  // ---------- reading the log ----------

  /** The session an event put into the table. */
  function Made(e: Event): Option<Session> {
    if e.Issued? || e.Rotated? then Some(e.session) else None
  }

  /** Among the first `n` events, a session with this selector was made. */
  ghost predicate Known(log: seq<Event>, n: nat, selector: string)
    requires n <= |log|
  {
    exists k :: 0 <= k < n && Made(log[k]).Some? && Made(log[k]).value.selector == selector
  }

  /** Among the first `n` events, a rotation of this selector committed. */
  ghost predicate Retired(log: seq<Event>, n: nat, selector: string)
    requires n <= |log|
  {
    exists k :: 0 <= k < n && log[k].Rotated? && log[k].selector == selector
  }

  /** After event `k` and among the first `n`, this user's sessions were deleted. */
  ghost predicate WipedSince(log: seq<Event>, k: nat, n: nat, userId: int)
    requires n <= |log|
  {
    exists j :: k < j < n && log[j].Wiped? && log[j].userId == userId
  }

  /** Among the first `n` events, this request found this selector active. */
  ghost predicate FoundBy(log: seq<Event>, n: nat, r: nat, selector: string)
    requires n <= |log|
  {
    exists k :: 0 <= k < n && log[k] == LookedUp(r, selector, true)
  }

  ghost predicate HasLookedUp(log: seq<Event>, r: nat) {
    exists k :: 0 <= k < |log| && log[k].LookedUp? && log[k].request == r
  }

  // ---------- the invariant, in parts ----------

  /** Every selector is put into the table at most once. */
  ghost predicate MadeOnce(log: seq<Event>) {
    forall j, k :: 0 <= j < k < |log| && Made(log[j]).Some? && Made(log[k]).Some? ==>
      Made(log[j]).value.selector != Made(log[k]).value.selector
  }

  /** Drawn selectors are either in the log or waiting with one request. */
  ghost predicate DrawsAreUnique(s: State) {
    && (forall k :: 0 <= k < |s.log| && Made(s.log[k]).Some? ==> Made(s.log[k]).value.selector in s.drawn)
    && (forall r :: r in s.requests && Pending(s.requests[r]).Some? ==>
          var selector := Pending(s.requests[r]).value.selector;
          selector in s.drawn && !Known(s.log, |s.log|, selector))
    && (forall q, r | q in s.requests && r in s.requests && q != r ::
          Pending(s.requests[q]).Some? && Pending(s.requests[r]).Some? ==>
            Pending(s.requests[q]).value.selector != Pending(s.requests[r]).value.selector)
  }

  /** Drawn token ids, likewise, each belong to one made session or to one request. */
  ghost predicate IdsAreUnique(s: State) {
    && (forall k :: 0 <= k < |s.log| && Made(s.log[k]).Some? ==> Made(s.log[k]).value.jti in s.ids)
    && (forall j, k :: 0 <= j < k < |s.log| && Made(s.log[j]).Some? && Made(s.log[k]).Some? ==>
          Made(s.log[j]).value.jti != Made(s.log[k]).value.jti)
    && (forall r :: r in s.requests && Pending(s.requests[r]).Some? ==> Pending(s.requests[r]).value.jti in s.ids)
    && (forall r, k :: r in s.requests && Pending(s.requests[r]).Some? && 0 <= k < |s.log| && Made(s.log[k]).Some? ==>
          Pending(s.requests[r]).value.jti != Made(s.log[k]).value.jti)
    && (forall q, r | q in s.requests && r in s.requests && q != r ::
          Pending(s.requests[q]).Some? && Pending(s.requests[r]).Some? ==>
            Pending(s.requests[q]).value.jti != Pending(s.requests[r]).value.jti)
  }

  /** A made session is stored exactly while its user has not been wiped since, and is active
      exactly while no rotation of it has committed. */
  ghost predicate RowReflects(s: State, k: nat)
    requires k < |s.log|
  {
    Made(s.log[k]).Some? ==>
      var x := Made(s.log[k]).value;
      var id := RowId(s.db, x.selector);
      && (id.Some? <==> !WipedSince(s.log, k, |s.log|, x.userId))
      && (id.Some? ==> s.db.sessions[id.value] == Row(x, if Retired(s.log, |s.log|, x.selector) then Used else Active))
  }

  ghost predicate RowsReflectLog(s: State) {
    && (forall k :: 0 <= k < |s.log| ==> RowReflects(s, k))
    && (forall id :: id in s.db.sessions ==> Known(s.log, |s.log|, s.db.sessions[id].session.selector))
  }

  /** A selector belongs to one user for ever. */
  ghost predicate Owned(log: seq<Event>, selector: string, userId: int) {
    forall k :: 0 <= k < |log| && Made(log[k]).Some? && Made(log[k]).value.selector == selector ==>
      Made(log[k]).value.userId == userId
  }

  /** A request about to rotate a selector has found it active, and for the user it names. */
  ghost predicate RotatingIsFounded(s: State, r: nat)
    requires r in s.requests
  {
    s.requests[r].Rotating? ==>
      var p := s.requests[r];
      && FoundBy(s.log, |s.log|, r, p.selector)
      && Known(s.log, |s.log|, p.selector)
      && p.userId in s.db.users
      && Owned(s.log, p.selector, p.userId)
  }

  /** A request looks up its selector once, and only while it is Presented. */
  ghost predicate LookupsAreOnce(s: State) {
    && (forall j, k :: 0 <= j < k < |s.log| && s.log[j].LookedUp? && s.log[k].LookedUp? ==>
          s.log[j].request != s.log[k].request)
    && (forall k :: 0 <= k < |s.log| ==> s.log[k].request in s.requests)
    && (forall r :: r in s.requests && s.requests[r].Presented? ==> !HasLookedUp(s.log, r))
  }

  /** A rotation follows its own request's lookup, of a session already made. */
  ghost predicate RotationsAreFounded(log: seq<Event>) {
    forall k :: 0 <= k < |log| && log[k].Rotated? ==>
      FoundBy(log, k, log[k].request, log[k].selector) && Known(log, |log|, log[k].selector)
  }

  /** No lookup finds a selector active once a rotation of it has committed, nor once its user
      has been wiped. */
  ghost predicate LookupIsHonest(log: seq<Event>, k: nat)
    requires k < |log|
  {
    log[k].LookedUp? && log[k].active ==>
      && !Retired(log, k, log[k].selector)
      && (forall i :: 0 <= i < k && Made(log[i]).Some? && Made(log[i]).value.selector == log[k].selector ==>
            !WipedSince(log, i, k, Made(log[i]).value.userId))
  }

  ghost predicate Inv(s: State) {
    && Consistent(s.db)
    && MadeOnce(s.log)
    && DrawsAreUnique(s)
    && IdsAreUnique(s)
    && RowsReflectLog(s)
    && (forall r :: r in s.requests ==> RotatingIsFounded(s, r))
    && LookupsAreOnce(s)
    && RotationsAreFounded(s.log)
    && (forall k :: 0 <= k < |s.log| ==> LookupIsHonest(s.log, k))
  }
}
