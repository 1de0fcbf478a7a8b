/** What holds however requests interleave. */
module Races {
  import opened Prelude
  import opened Decimal
  import opened Encoding
  import opened Tokens
  import opened Database
  import opened Auth
  import opened Interleaving
  import opened Steps

  // ---------- every run keeps the invariant ----------

  lemma DecideRotates(cfg: Config, found: Session, jti: string, refresh: string, meta: Metadata, supply: Supply)
    requires Decide(cfg, found, jti, refresh, meta, supply).0.Rotate?
    ensures var plan := Decide(cfg, found, jti, refresh, meta, supply).0;
            && |supply.entropy| >= RAW_TOKEN_LENGTH
            && plan.session.selector == Selector(supply.entropy[..RAW_TOKEN_LENGTH]) && plan.session.jti == supply.jti
            && plan.userId == found.userId
  {
  }

  lemma LookUpKeeps(cfg: Config, s: State, r: nat, supply: Supply)
    requires Inv(s) && FreshDraw(s, supply) && r in s.requests && s.requests[r].Presented?
    ensures Inv(LookUp(cfg, s, r, s.requests[r], supply))
  {
    var phase := s.requests[r];
    var selector := Split(phase.refresh, '.')[0];
    var s' := LookUp(cfg, s, r, phase, supply);
    if FindActive(s.db, selector).None? {
      LookupKeeps(s, r, Missed(selector), LookedUp(r, selector, false), s');
    } else {
      var found := FindActive(s.db, selector).value;
      if Decide(cfg, found, phase.jti, phase.refresh, phase.meta, supply).0.Rotate? {
        DecideRotates(cfg, found, phase.jti, phase.refresh, phase.meta, supply);
      }
      LookupKeeps(s, r, s'.requests[r], LookedUp(r, selector, true), s');
    }
  }

  lemma IssueCallKeeps(cfg: Config, s: State, r: nat, supply: Supply)
    requires Inv(s) && r in s.requests && s.requests[r].Issuing?
    ensures Inv(Call(cfg, s, r, s.requests[r], supply))
  {
    var p := s.requests[r];
    var s' := Call(cfg, s, r, p, supply);
    if IssueTx(s.db, p.guid, p.session).Ok? {
      IssueFacts(s.db, p.guid, p.session);
      var (after, userId) := IssueTx(s.db, p.guid, p.session).value;
      InsertKeeps(s, r, Issued(r, p.session.(userId := userId)), after, None, s');
    } else {
      EnterKeeps(s, r, Finished, s');
    }
  }

  lemma RotateCallKeeps(cfg: Config, s: State, r: nat, supply: Supply)
    requires Inv(s) && r in s.requests && s.requests[r].Rotating?
    ensures Inv(Call(cfg, s, r, s.requests[r], supply))
  {
    var p := s.requests[r];
    var s' := Call(cfg, s, r, p, supply);
    if RotateTx(s.db, p.selector, p.session, p.userId).Ok? {
      RotateFacts(s.db, p.selector, p.session, p.userId);
      assert RotatingIsFounded(s, r);
      InsertKeeps(s, r, s'.log[|s.log|], s'.db, Some(p.selector), s');
    } else {
      EnterKeeps(s, r, Finished, s');
    }
  }

  lemma CallKeeps(cfg: Config, s: State, r: nat, supply: Supply)
    requires Inv(s) && r in s.requests && (s.requests[r].Presented? ==> FreshDraw(s, supply))
    ensures Inv(Call(cfg, s, r, s.requests[r], supply))
  {
    match s.requests[r]
    case Issuing(_, _) => IssueCallKeeps(cfg, s, r, supply);
    case Presented(_, _, _) => LookUpKeeps(cfg, s, r, supply);
    case Missed(selector) => EnterKeeps(s, r, Call(cfg, s, r, s.requests[r], supply).requests[r], Call(cfg, s, r, s.requests[r], supply));
    case Revoking(userId) => WipeKeeps(s, r, userId, Call(cfg, s, r, s.requests[r], supply));
    case Rotating(_, _, _) => RotateCallKeeps(cfg, s, r, supply);
    case Finished =>
  }

  lemma NextKeeps(cfg: Config, s: State, a: Action)
    requires Inv(s) && Enabled(s, a)
    ensures Inv(Next(cfg, s, a))
  {
    if a.Advance? {
      CallKeeps(cfg, s, a.request, a.supply);
    } else {
      EnterKeeps(s, a.request, Next(cfg, s, a).requests[a.request], Next(cfg, s, a));
    }
  }

  /** After every interleaving: the schema holds, and rows, requests and log agree. */
  lemma {:induction false} RunKeepsInv(cfg: Config, actions: seq<Action>)
    requires AllEnabled(cfg, actions)
    ensures Inv(Run(cfg, actions))
  {
    if |actions| > 0 {
      RunKeepsInv(cfg, actions[..|actions| - 1]);
      NextKeeps(cfg, Run(cfg, actions[..|actions| - 1]), actions[|actions| - 1]);
    }
  }

  // ---------- the shape of a step ----------

  /** Every step but a lookup: no new rotation is under way, and one that commits was. */
  lemma NextMoves(cfg: Config, s: State, a: Action) returns (p: Phase, es: seq<Event>)
    requires Enabled(s, a) && !(a.Advance? && s.requests[a.request].Presented?)
    ensures Moves(s, Next(cfg, s, a), a.request, p, es) && !p.Rotating?
    ensures |es| == 1 && es[0].Rotated? ==>
              a.request in s.requests && s.requests[a.request].Rotating? && es[0].selector == s.requests[a.request].selector
  {
    var s' := Next(cfg, s, a);
    p := s'.requests[a.request];
    es := s'.log[|s.log|..];
    assert s.log + es == s'.log;
  }

  lemma LookUpMoves(cfg: Config, s: State, r: nat, supply: Supply) returns (p: Phase, e: Event)
    requires r in s.requests && s.requests[r].Presented?
    ensures Moves(s, LookUp(cfg, s, r, s.requests[r], supply), r, p, [e]) && e.LookedUp?
    ensures p == LookUp(cfg, s, r, s.requests[r], supply).requests[r]
  {
    var selector := Split(s.requests[r].refresh, '.')[0];
    p := LookUp(cfg, s, r, s.requests[r], supply).requests[r];
    e := LookedUp(r, selector, FindActive(s.db, selector).Some?);
  }

  // ---------- rotation ----------

  /** The one lookup of a request that rotated is of the selector it rotated, was active, and came first. */
  lemma LookupOfRotation(s: State, j: nat, k: nat)
    requires Inv(s) && j < |s.log| && k < |s.log|
    requires s.log[k].Rotated? && s.log[j].LookedUp? && s.log[j].request == s.log[k].request
    ensures j < k && s.log[j] == LookedUp(s.log[k].request, s.log[k].selector, true)
  {
    var m :| 0 <= m < k && s.log[m] == LookedUp(s.log[k].request, s.log[k].selector, true);
    assert m == j;
  }

  lemma HonestLookupCameFirst(log: seq<Event>, m: nat, i: nat)
    requires m < |log| && i < |log| && LookupIsHonest(log, m)
    requires log[m].LookedUp? && log[m].active && log[i].Rotated? && log[i].selector == log[m].selector
    ensures m < i
  {
    assert !Retired(log, m, log[m].selector);
  }

  /** Once a rotation of a selector has committed, no lookup of it finds it active, and no
      request that looks it up afterwards ever commits a rotation, of anything. */
  lemma LateLookupNeverSucceeds(cfg: Config, actions: seq<Action>, i: nat, j: nat, k: nat)
    requires AllEnabled(cfg, actions) && i < j < |Run(cfg, actions).log| && k < |Run(cfg, actions).log|
    requires var log := Run(cfg, actions).log;
             log[i].Rotated? && log[j].LookedUp? && log[j].selector == log[i].selector
    ensures var log := Run(cfg, actions).log;
            !log[j].active && !(log[k].Rotated? && log[k].request == log[j].request)
  {
    RunKeepsInv(cfg, actions);
    var log := Run(cfg, actions).log;
    assert LookupIsHonest(log, j);
    if log[k].Rotated? && log[k].request == log[j].request {
      LookupOfRotation(Run(cfg, actions), j, k);
    }
  }

  /** Two rotations of one selector both had their lookups before the first of them committed. */
  lemma BothLookedUpBeforeFirstCommit(cfg: Config, actions: seq<Action>, i: nat, j: nat)
    requires AllEnabled(cfg, actions) && i < j < |Run(cfg, actions).log|
    requires var log := Run(cfg, actions).log;
             log[i].Rotated? && log[j].Rotated? && log[i].selector == log[j].selector
    ensures var log := Run(cfg, actions).log;
            FoundBy(log, i, log[i].request, log[i].selector) && FoundBy(log, i, log[j].request, log[i].selector)
  {
    RunKeepsInv(cfg, actions);
    var log := Run(cfg, actions).log;
    assert FoundBy(log, j, log[j].request, log[j].selector);
    var m :| 0 <= m < j && log[m] == LookedUp(log[j].request, log[j].selector, true);
    HonestLookupCameFirst(log, m, i);
  }

  /** A request that has found its session active and passed the checks always commits, whatever
      the others have done to that session since. */
  lemma FoundedRotationCommits(cfg: Config, actions: seq<Action>, r: nat, supply: Supply)
    requires AllEnabled(cfg, actions)
    requires r in Run(cfg, actions).requests && Run(cfg, actions).requests[r].Rotating?
    requires Run(cfg, actions).db.nextSession <= MAX_INT64
    ensures var s := Run(cfg, actions);
            var s' := Next(cfg, s, Advance(r, supply));
            var p := s.requests[r];
            s'.log == s.log + [Rotated(r, p.selector, p.session.(userId := p.userId), FindActive(s.db, p.selector).Some?)]
  {
    RunKeepsInv(cfg, actions);
    var s := Run(cfg, actions);
    var p := s.requests[r];
    assert RotatingIsFounded(s, r);
    forall id | id in s.db.sessions ensures s.db.sessions[id].session.selector != p.session.selector {
      assert Known(s.log, |s.log|, s.db.sessions[id].session.selector);
    }
    RotationCommits(s.db, p.selector, p.session, p.userId);
  }

  /** A request that has drawn its session commits its issue while ids are left: for the user its guid
      has, or else for a new one. */
  lemma IssueCommits(cfg: Config, actions: seq<Action>, r: nat, supply: Supply, userId: int)
    requires AllEnabled(cfg, actions)
    requires var s := Run(cfg, actions);
             && r in s.requests && s.requests[r].Issuing? && s.db.nextSession <= MAX_INT64
             && if s.requests[r].guid in s.db.users.Values then userId in s.db.users && s.db.users[userId] == s.requests[r].guid
                else userId == s.db.nextUser <= MAX_INT64
    ensures var (s, t) := (Run(cfg, actions), Next(cfg, Run(cfg, actions), Advance(r, supply)));
            && t.log == s.log + [Issued(r, s.requests[r].session.(userId := userId))]
            && t.db.users == (if userId in s.db.users then s.db.users else s.db.users[userId := s.requests[r].guid])
  {
    RunKeepsInv(cfg, actions);
    var s := Run(cfg, actions);
    var p := s.requests[r];
    forall id | id in s.db.sessions ensures s.db.sessions[id].session.selector != p.session.selector {
      assert Known(s.log, |s.log|, s.db.sessions[id].session.selector);
    }
    if p.guid in s.db.users.Values {
      IssueForKnown(s.db, p.guid, p.session, userId);
    } else {
      IssueForNew(s.db, p.guid, p.session);
    }
  }

  /** A lookup finds a selector active exactly when it was made, its user has not been revoked
      since, and no rotation of it has committed. */
  lemma LookupOutcome(cfg: Config, actions: seq<Action>, selector: string)
    requires AllEnabled(cfg, actions)
    ensures var s := Run(cfg, actions);
            FindActive(s.db, selector).Some?
            <==> && !Retired(s.log, |s.log|, selector)
                 && exists k: nat :: k < |s.log| && Made(s.log[k]).Some? && Made(s.log[k]).value.selector == selector
                                     && !WipedSince(s.log, k, |s.log|, Made(s.log[k]).value.userId)
  {
    RunKeepsInv(cfg, actions);
    var s := Run(cfg, actions);
    if FindActive(s.db, selector).Some? {
      var k := FoundWasMade(s, selector);
    }
    forall k: nat | k < |s.log| && Made(s.log[k]).Some? && Made(s.log[k]).value.selector == selector
      ensures FindActive(s.db, selector).Some? <==>
              !WipedSince(s.log, k, |s.log|, Made(s.log[k]).value.userId) && !Retired(s.log, |s.log|, selector)
    {
      ActiveExactly(s, k);
    }
  }

  // ---------- the two halves of a pair ----------

  /** What a lookup by request `r` must lead to when it presents session `i`'s selector with the
      token id of session `j`. */
  ghost predicate Bound(cfg: Config, s: State, r: nat, i: nat, j: nat, supply: Supply)
    requires i < |s.log| && j < |s.log| && Made(s.log[i]).Some? && Made(s.log[j]).Some?
    requires r in s.requests && s.requests[r].Presented?
  {
    var p, x := s.requests[r], Made(s.log[i]).value;
    var s' := Next(cfg, s, Advance(r, supply));
    && s'.db == s.db && s'.log == s.log + [LookedUp(r, x.selector, true)] && r in s'.requests
    && (i != j ==> s'.requests[r].Finished?)
    && (i == j && p.meta.userAgent != x.userAgent ==> s'.requests[r] == Revoking(x.userId))
    && (i == j && p.meta.userAgent == x.userAgent ==>
          (s'.requests[r].Rotating? <==>
             CheckRefresh(cfg, p.refresh, x.verifierHash).None? && |supply.entropy| >= RAW_TOKEN_LENGTH))
    && (s'.requests[r].Rotating? ==> s'.requests[r].selector == x.selector && s'.requests[r].userId == x.userId)
  }

  /** In every interleaving, while session `i` is stored and active: with its own token id its
      token goes on to a rotation from its own client and to a revocation from another, and with
      the token id of any other session ever made it is refused with nothing changed. */
  lemma PairsAreBound(cfg: Config, actions: seq<Action>, r: nat, i: nat, j: nat, supply: Supply)
    requires AllEnabled(cfg, actions)
    requires var s := Run(cfg, actions);
             && i < |s.log| && j < |s.log| && Made(s.log[i]).Some? && Made(s.log[j]).Some?
             && r in s.requests && s.requests[r].Presented?
             && Split(s.requests[r].refresh, '.')[0] == Made(s.log[i]).value.selector
             && s.requests[r].jti == Made(s.log[j]).value.jti
             && !WipedSince(s.log, i, |s.log|, Made(s.log[i]).value.userId)
             && !Retired(s.log, |s.log|, Made(s.log[i]).value.selector)
    ensures Bound(cfg, Run(cfg, actions), r, i, j, supply)
  {
    RunKeepsInv(cfg, actions);
    ActiveExactly(Run(cfg, actions), i);
    IdsTell(Run(cfg, actions), i, j);
    LookupIsBound(cfg, Run(cfg, actions), r, i, j, supply);
  }

  lemma LookupIsBound(cfg: Config, s: State, r: nat, i: nat, j: nat, supply: Supply)
    requires i < |s.log| && j < |s.log| && Made(s.log[i]).Some? && Made(s.log[j]).Some?
    requires r in s.requests && s.requests[r].Presented?
    requires Split(s.requests[r].refresh, '.')[0] == Made(s.log[i]).value.selector
    requires s.requests[r].jti == Made(s.log[j]).value.jti
    requires FindActive(s.db, Made(s.log[i]).value.selector) == Made(s.log[i])
    requires Made(s.log[i]).value.jti == Made(s.log[j]).value.jti <==> i == j
    ensures Bound(cfg, s, r, i, j, supply)
  {
  }

  lemma IdsTell(s: State, i: nat, j: nat)
    requires IdsAreUnique(s) && i < |s.log| && j < |s.log| && Made(s.log[i]).Some? && Made(s.log[j]).Some?
    ensures Made(s.log[i]).value.jti == Made(s.log[j]).value.jti <==> i == j
  {
  }

  // ---------- used rows ----------

  /** No step turns a used row active again or puts another session under its id. */
  lemma UsedStaysUsed(cfg: Config, s: State, a: Action, id: int)
    requires Inv(s) && Enabled(s, a)
    requires id in s.db.sessions && s.db.sessions[id].status == Used && id in Next(cfg, s, a).db.sessions
    ensures Next(cfg, s, a).db.sessions[id] == s.db.sessions[id]
  {
    if a.Advance? {
      match s.requests[a.request]
      case Issuing(guid, session) => IssueLeavesUsed(s.db, guid, session, id);
      case Rotating(selector, session, userId) => RotateLeavesUsed(s.db, selector, session, userId, id);
      case _ =>
    }
  }

  lemma IssueLeavesUsed(db: Db, guid: string, session: Session, id: int)
    requires Consistent(db) && id in db.sessions
    ensures IssueTx(db, guid, session).Ok? ==>
              var after := IssueTx(db, guid, session).value.0;
              id in after.sessions && after.sessions[id] == db.sessions[id]
  {
    if IssueTx(db, guid, session).Ok? {
      IssueFacts(db, guid, session);
    }
  }

  lemma RotateLeavesUsed(db: Db, selector: string, session: Session, userId: int, id: int)
    requires Consistent(db) && id in db.sessions && db.sessions[id].status == Used
    ensures RotateTx(db, selector, session, userId).Ok? ==>
              var after := RotateTx(db, selector, session, userId).value;
              id in after.sessions && after.sessions[id] == db.sessions[id]
  {
    if RotateTx(db, selector, session, userId).Ok? {
      RotateFacts(db, selector, session, userId);
    }
  }

  // ---------- users ----------

  ghost predicate UsersKept(past: Db, latest: Db) {
    forall u :: u in past.users ==> u in latest.users && latest.users[u] == past.users[u]
  }

  /** No step renames or drops a user. */
  lemma NextKeepsUsers(cfg: Config, s: State, a: Action)
    requires Inv(s) && Enabled(s, a)
    ensures UsersKept(s.db, Next(cfg, s, a).db)
  {
    if a.Advance? && s.requests[a.request].Issuing? {
      IssueKeepsUsers(s.db, s.requests[a.request].guid, s.requests[a.request].session);
    } else if a.Advance? && s.requests[a.request].Rotating? {
      var p := s.requests[a.request];
      RotateKeepsUsers(s.db, p.selector, p.session, p.userId);
    } else {
      OtherStepsLeaveUsers(cfg, s, a);
    }
  }

  lemma OtherStepsLeaveUsers(cfg: Config, s: State, a: Action)
    requires Enabled(s, a) && (a.Advance? ==> !s.requests[a.request].Issuing? && !s.requests[a.request].Rotating?)
    ensures Next(cfg, s, a).db.users == s.db.users
  {
  }

  lemma IssueKeepsUsers(db: Db, guid: string, session: Session)
    requires Consistent(db)
    ensures IssueTx(db, guid, session).Ok? ==> UsersKept(db, IssueTx(db, guid, session).value.0)
  {
    if IssueTx(db, guid, session).Ok? {
      IssueFacts(db, guid, session);
    }
  }

  lemma RotateKeepsUsers(db: Db, selector: string, session: Session, userId: int)
    requires Consistent(db)
    ensures RotateTx(db, selector, session, userId).Ok? ==> UsersKept(db, RotateTx(db, selector, session, userId).value)
  {
    if RotateTx(db, selector, session, userId).Ok? {
      RotateFacts(db, selector, session, userId);
    }
  }

  lemma {:induction false} UsersStay(cfg: Config, actions: seq<Action>, n: nat)
    requires AllEnabled(cfg, actions) && n <= |actions|
    ensures UsersKept(Run(cfg, actions[..n]).db, Run(cfg, actions).db)
  {
    if n == |actions| {
      assert actions[..n] == actions;
    } else {
      var front := actions[..|actions| - 1];
      assert front[..n] == actions[..n];
      UsersStay(cfg, front, n);
      RunKeepsInv(cfg, front);
      NextKeepsUsers(cfg, Run(cfg, front), actions[|actions| - 1]);
      assert Run(cfg, actions) == Next(cfg, Run(cfg, front), actions[|actions| - 1]);
    }
  }

  /** In every interleaving users are never renamed or dropped, and each guid goes on naming its user. */
  lemma UsersAreForEver(cfg: Config, actions: seq<Action>, n: nat)
    requires AllEnabled(cfg, actions) && n <= |actions|
    ensures var (past, latest) := (Run(cfg, actions[..n]).db, Run(cfg, actions).db);
            forall u :: u in past.users ==> UserId(latest, past.users[u]) == Some(u) && latest.users[u] == past.users[u]
  {
    UsersStay(cfg, actions, n);
    RunKeepsInv(cfg, actions);
    UsersNamed(Run(cfg, actions[..n]).db, Run(cfg, actions).db);
  }

  lemma UsersNamed(past: Db, latest: Db)
    requires UsersKept(past, latest) && Consistent(latest)
    ensures forall u :: u in past.users ==> UserId(latest, past.users[u]) == Some(u)
  {
    forall u | u in past.users ensures UserId(latest, past.users[u]) == Some(u) {
      UserIdIs(latest, u);
    }
  }

  // ---------- revocation ----------

  /** The log only grows, so what is said of a moment in it stays said. */
  lemma {:induction false} LogGrows(cfg: Config, actions: seq<Action>, n: nat)
    requires n <= |actions|
    ensures Run(cfg, actions[..n]).log <= Run(cfg, actions).log
  {
    if n == |actions| {
      assert actions[..n] == actions;
    } else {
      assert actions[..|actions| - 1][..n] == actions[..n];
      LogGrows(cfg, actions[..|actions| - 1], n);
    }
  }

  /** A session made before its user's sessions were deleted is never stored again, and a request
      that looks it up after the deletion never commits a rotation. */
  lemma NoResurrection(cfg: Config, actions: seq<Action>, i: nat, j: nat)
    requires AllEnabled(cfg, actions) && i < j < |Run(cfg, actions).log|
    requires var log := Run(cfg, actions).log;
             Made(log[i]).Some? && log[j].Wiped? && log[j].userId == Made(log[i]).value.userId
    ensures var s := Run(cfg, actions);
            var selector := Made(s.log[i]).value.selector;
            && !Stored(s.db, selector)
            && (forall k, m :: j < k < |s.log| && s.log[k].LookedUp? && s.log[k].selector == selector && 0 <= m < |s.log| ==>
                  !s.log[k].active && !(s.log[m].Rotated? && s.log[m].request == s.log[k].request))
  {
    RunKeepsInv(cfg, actions);
    var s := Run(cfg, actions);
    var log, x := s.log, Made(s.log[i]).value;
    assert RowReflects(s, i);
    forall k, m | j < k < |log| && log[k].LookedUp? && log[k].selector == x.selector && 0 <= m < |log|
      ensures !log[k].active && !(log[m].Rotated? && log[m].request == log[k].request)
    {
      assert LookupIsHonest(log, k);
      if log[m].Rotated? && log[m].request == log[k].request {
        LookupOfRotation(s, k, m);
      }
    }
  }

  /** And nothing else removes a row: a made session is gone exactly when its user was wiped since. */
  lemma GoneExactlyWhenWiped(cfg: Config, actions: seq<Action>, i: nat)
    requires AllEnabled(cfg, actions) && i < |Run(cfg, actions).log| && Made(Run(cfg, actions).log[i]).Some?
    ensures var s := Run(cfg, actions);
            var x := Made(s.log[i]).value;
            !Stored(s.db, x.selector) <==> WipedSince(s.log, i, |s.log|, x.userId)
  {
    RunKeepsInv(cfg, actions);
    assert RowReflects(Run(cfg, actions), i);
  }

  // ---------- conservation ----------

  datatype Kind = Issues | Rotations | Misses

  /** Whether an event counts for a user as an issue, as a rotation, or as a rotation whose mark
      hit no active row. */
  predicate Counts(e: Event, kind: Kind, userId: int) {
    match kind
    case Issues => e.Issued? && e.session.userId == userId
    case Rotations => e.Rotated? && e.session.userId == userId
    case Misses => e.Rotated? && e.session.userId == userId && !e.fromActive
  }

  /** The events of one kind for a user since that user's sessions were last deleted. */
  function Since(log: seq<Event>, kind: Kind, userId: int): nat {
    if |log| == 0 then 0
    else
      var last := log[|log| - 1];
      if last.Wiped? && last.userId == userId then 0
      else Since(log[..|log| - 1], kind, userId) + if Counts(last, kind, userId) then 1 else 0
  }

  ghost predicate Conserved(s: State, userId: int) {
    && |ActiveIds(s.db, userId)| == Since(s.log, Issues, userId) + Since(s.log, Misses, userId)
    && |RowIds(s.db, userId)| == Since(s.log, Issues, userId) + Since(s.log, Rotations, userId)
  }

  lemma SinceGrows(log: seq<Event>, e: Event, kind: Kind, userId: int)
    ensures Since(log + [e], kind, userId) ==
            if e.Wiped? && e.userId == userId then 0
            else Since(log, kind, userId) + if Counts(e, kind, userId) then 1 else 0
  {
    assert (log + [e])[..|log|] == log;
  }

  lemma EventConserves(s: State, s': State, e: Event, userId: int)
    requires Conserved(s, userId) && s'.log == s.log + [e]
    requires e.Wiped? && e.userId == userId ==> RowIds(s'.db, userId) == {} && ActiveIds(s'.db, userId) == {}
    requires !(e.Wiped? && e.userId == userId) ==>
               && |RowIds(s'.db, userId)| == |RowIds(s.db, userId)|
                    + (if Counts(e, Issues, userId) || Counts(e, Rotations, userId) then 1 else 0)
               && |ActiveIds(s'.db, userId)| == |ActiveIds(s.db, userId)|
                    + (if Counts(e, Issues, userId) || Counts(e, Misses, userId) then 1 else 0)
    ensures Conserved(s', userId)
  {
    SinceGrows(s.log, e, Issues, userId);
    SinceGrows(s.log, e, Rotations, userId);
    SinceGrows(s.log, e, Misses, userId);
  }

  lemma IssueConserves(cfg: Config, s: State, r: nat, supply: Supply, userId: int)
    requires Inv(s) && r in s.requests && s.requests[r].Issuing? && Conserved(s, userId)
    ensures Conserved(Call(cfg, s, r, s.requests[r], supply), userId)
  {
    var p, s' := s.requests[r], Call(cfg, s, r, s.requests[r], supply);
    if IssueTx(s.db, p.guid, p.session).Ok? {
      IssueFacts(s.db, p.guid, p.session);
      var e := s'.log[|s.log|];
      CountAfterInsert(s.db, s'.db, e.session, userId);
      EventConserves(s, s', e, userId);
    }
  }

  lemma RotateConserves(cfg: Config, s: State, r: nat, supply: Supply, userId: int)
    requires Inv(s) && r in s.requests && s.requests[r].Rotating? && Conserved(s, userId)
    ensures Conserved(Call(cfg, s, r, s.requests[r], supply), userId)
  {
    var p, s' := s.requests[r], Call(cfg, s, r, s.requests[r], supply);
    if RotateTx(s.db, p.selector, p.session, p.userId).Ok? {
      RotationConserves(s, r, s'.db, userId);
      EventConserves(s, s', s'.log[|s.log|], userId);
    }
  }

  lemma LookUpConserves(cfg: Config, s: State, r: nat, supply: Supply, userId: int)
    requires r in s.requests && s.requests[r].Presented? && Conserved(s, userId)
    ensures Conserved(LookUp(cfg, s, r, s.requests[r], supply), userId)
  {
    var s' := LookUp(cfg, s, r, s.requests[r], supply);
    EventConserves(s, s', s'.log[|s.log|], userId);
  }

  lemma CallConserves(cfg: Config, s: State, r: nat, supply: Supply, userId: int)
    requires Inv(s) && r in s.requests && Conserved(s, userId)
    ensures Conserved(Call(cfg, s, r, s.requests[r], supply), userId)
  {
    match s.requests[r]
    case Issuing(_, _) => IssueConserves(cfg, s, r, supply, userId);
    case Presented(_, _, _) => LookUpConserves(cfg, s, r, supply, userId);
    case Missed(_) =>
    case Revoking(deleted) =>
      CountAfterDelete(s.db, deleted, userId);
      EventConserves(s, Call(cfg, s, r, s.requests[r], supply), Wiped(r, deleted), userId);
    case Rotating(_, _, _) => RotateConserves(cfg, s, r, supply, userId);
    case Finished =>
  }

  /** The mark takes an active row away from the user the new row is for, or from no one. */
  lemma RotationConserves(s: State, r: nat, after: Db, userId: int)
    requires Inv(s) && r in s.requests && s.requests[r].Rotating?
    requires var p := s.requests[r]; RotateTx(s.db, p.selector, p.session, p.userId) == Ok(after)
    ensures var p := s.requests[r];
            var own := p.userId == userId;
            && |RowIds(after, userId)| == |RowIds(s.db, userId)| + (if own then 1 else 0)
            && |ActiveIds(after, userId)| == |ActiveIds(s.db, userId)|
                 + (if own && FindActive(s.db, p.selector).None? then 1 else 0)
  {
    var p := s.requests[r];
    RotateFacts(s.db, p.selector, p.session, p.userId);
    CountAfterMark(s.db, p.selector, userId);
    CountAfterInsert(MarkUsed(s.db, p.selector), after, p.session.(userId := p.userId), userId);
    assert RotatingIsFounded(s, r);
    if FindActive(s.db, p.selector).Some? {
      var k := FoundWasMade(s, p.selector);
    }
  }

  /** Under every interleaving, a user's active rows are the issues since that user was last
      revoked plus the rotations since whose mark hit no active row, and all of the user's rows
      are the issues and rotations since. */
  lemma {:induction false} RowsAreConserved(cfg: Config, actions: seq<Action>, userId: int)
    requires AllEnabled(cfg, actions)
    ensures Conserved(Run(cfg, actions), userId)
  {
    if |actions| == 0 {
      NoRowsAtStart(userId);
    } else {
      var front, a := actions[..|actions| - 1], actions[|actions| - 1];
      RowsAreConserved(cfg, front, userId);
      RunKeepsInv(cfg, front);
      NextConserves(cfg, Run(cfg, front), a, userId);
    }
  }

  lemma NextConserves(cfg: Config, s: State, a: Action, userId: int)
    requires Inv(s) && Enabled(s, a) && Conserved(s, userId)
    ensures Conserved(Next(cfg, s, a), userId)
  {
    if a.Advance? {
      CallConserves(cfg, s, a.request, a.supply, userId);
    }
  }

  lemma NoRowsAtStart(userId: int)
    ensures Conserved(IDLE, userId)
  {
    assert RowIds(EMPTY, userId) == {} && ActiveIds(EMPTY, userId) == {};
  }
}
