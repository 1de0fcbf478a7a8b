/** The invariant of runs of requests that do not overlap. */
module Lineage {
  import opened Prelude
  import opened Encoding
  import opened Tokens
  import opened Database
  import opened Auth
  import opened Requests

  // ---------- the three ways a request changes the sessions ----------

  /** All of a user's rows are deleted. */
  ghost predicate Wiped(w: World, w': World, userId: int) {
    && w'.db == DeleteUserSessions(w.db, userId)
    && w'.grants == w.grants
    && w'.marks == w.marks[userId := |w.grants|]
  }

  ghost predicate Novel(grants: seq<Grant>, session: Session) {
    forall g :: g in grants ==> g.session.selector != session.selector && g.session.jti != session.jti
  }

  /** One active row and its grant are added. With a parent, the parent's row was active and is
      marked used; without one, the user may be new. */
  ghost predicate Granted(cfg: Config, w: World, w': World, g: Grant) {
    && w'.grants == w.grants + [g] && w'.marks == w.marks
    && Novel(w.grants, g.session) && PairMatches(cfg, g)
    && Consistent(w'.db)
    && w.db.nextSession !in w.db.sessions
    && g.session.userId in w'.db.users && w'.db.users[g.session.userId] == g.guid
    && (forall u :: u in w.db.users ==> u in w'.db.users && w'.db.users[u] == w.db.users[u])
    && (g.parent.None? ==> g.notice.None?)
    && (g.parent.None? ==> w'.db.sessions == w.db.sessions[w.db.nextSession := Row(g.session, Active)])
    && (g.parent.Some? ==>
          var p := g.parent.value;
          && p < |w.grants|
          && FindActive(w.db, w.grants[p].session.selector) == Some(w.grants[p].session)
          && w'.db.sessions == MarkUsed(w.db, w.grants[p].session.selector).sessions[w.db.nextSession := Row(g.session, Active)]
          && g.session.userId == w.grants[p].session.userId
          && g.session.userAgent == w.grants[p].session.userAgent
          && g.guid == w.grants[p].guid
          && g.notice == Expected(w.grants[p].session, g.session))
  }

  // ---------- each keeps the invariant ----------

  lemma GrantIndex(w: World, i: nat)
    requires GrantsAreDistinct(w.grants) && i < |w.grants|
    ensures GrantOf(w.grants, w.grants[i].session.selector) == Some(i)
  {
  }

  lemma WipeKeepsRow(cfg: Config, w: World, w': World, userId: int, i: nat)
    requires Good(cfg, w) && Wiped(w, w', userId) && i < |w.grants|
    ensures GrantHasRow(w', i)
  {
    RowIdAfterDelete(w.db, userId, w.grants[i].session.selector);
    assert GrantHasRow(w, i);
  }

  lemma WipeKeepsGood(cfg: Config, w: World, w': World, userId: int)
    requires Good(cfg, w) && Wiped(w, w', userId)
    ensures Good(cfg, w')
  {
    DeleteFacts(w.db, userId);
    forall i | 0 <= i < |w'.grants| ensures GrantHasRow(w', i) {
      WipeKeepsRow(cfg, w, w', userId, i);
    }
    forall i | 0 <= i < |w'.grants| && w'.grants[i].parent.Some?
      ensures IsLive(w', i) <==> IsLive(w', w'.grants[i].parent.value)
    {
      assert IsLive(w, i) <==> IsLive(w, w.grants[i].parent.value);
    }
  }

  /** Where the rows are once a grant has been added. */
  lemma RowsAfterGrant(cfg: Config, w: World, w': World, g: Grant, selector: string)
    requires Good(cfg, w) && Granted(cfg, w, w', g)
    ensures !Stored(w.db, g.session.selector)
    ensures RowId(w'.db, selector) == if selector == g.session.selector then Some(w.db.nextSession) else RowId(w.db, selector)
  {
    forall id | id in w.db.sessions
      ensures w.db.sessions[id].session.selector != g.session.selector
    {
      var i := GrantOf(w.grants, w.db.sessions[id].session.selector).value;
      assert w.grants[i] in w.grants;
    }
    if g.parent.None? {
      RowIdAfterInsert(w.db, w'.db, g.session, selector);
    } else {
      var marked := MarkUsed(w.db, w.grants[g.parent.value].session.selector);
      MarkUsedFacts(w.db, w.grants[g.parent.value].session.selector);
      RowIdAfterMark(w.db, w.grants[g.parent.value].session.selector, selector);
      RowIdAfterMark(w.db, w.grants[g.parent.value].session.selector, g.session.selector);
      RowIdAfterInsert(marked, w'.db, g.session, selector);
    }
  }

  lemma ParentIsLast(cfg: Config, w: World, w': World, g: Grant)
    requires Good(cfg, w) && Granted(cfg, w, w', g) && g.parent.Some?
    ensures !HasChild(w.grants, g.parent.value) && IsLive(w, g.parent.value)
  {
    assert GrantHasRow(w, g.parent.value);
  }

  lemma ChildrenAfterGrant(grants: seq<Grant>, g: Grant, i: nat)
    requires GrantsFormChains(grants) && i <= |grants| && (g.parent.Some? ==> g.parent.value < |grants|)
    ensures HasChild(grants + [g], i) <==> i < |grants| && (HasChild(grants, i) || g.parent == Some(i))
  {
    var all := grants + [g];
    assert all[|grants|] == g;
    forall j | 0 <= j < |grants| ensures all[j] == grants[j] {
    }
    if HasChild(grants, i) {
      var j :| 0 <= j < |grants| && grants[j].parent == Some(i);
      assert all[j].parent == Some(i);
    }
  }

  lemma GrantKeepsRow(cfg: Config, w: World, w': World, g: Grant, i: nat)
    requires Good(cfg, w) && Granted(cfg, w, w', g) && i < |w.grants|
    ensures GrantHasRow(w', i)
  {
    ChildrenAfterGrant(w.grants, g, i);
    RowsAfterGrant(cfg, w, w', g, w'.grants[i].session.selector);
    assert GrantHasRow(w, i) && w.grants[i] in w.grants;
    if g.parent.Some? {
      ParentIsLast(cfg, w, w', g);
      assert g.parent == Some(i) <==> w.grants[g.parent.value].session.selector == w.grants[i].session.selector;
    }
  }

  lemma NewGrantHasRow(cfg: Config, w: World, w': World, g: Grant)
    requires Good(cfg, w) && Granted(cfg, w, w', g)
    ensures GrantHasRow(w', |w.grants|)
  {
    ChildrenAfterGrant(w.grants, g, |w.grants|);
    RowsAfterGrant(cfg, w, w', g, g.session.selector);
  }

  lemma GrantStaysDistinct(grants: seq<Grant>, g: Grant)
    requires GrantsAreDistinct(grants) && Novel(grants, g.session)
    ensures GrantsAreDistinct(grants + [g])
  {
    var all := grants + [g];
    forall i, j | 0 <= i < j < |all|
      ensures all[i].session.selector != all[j].session.selector && all[i].session.jti != all[j].session.jti
    {
      assert all[i] in grants;
    }
  }

  lemma GrantExtendsChains(grants: seq<Grant>, g: Grant)
    requires GrantsFormChains(grants) && (g.parent.None? ==> g.notice.None?)
    requires g.parent.Some? ==>
               var p := g.parent.value;
               && p < |grants| && !HasChild(grants, p)
               && g.session.userId == grants[p].session.userId
               && g.session.userAgent == grants[p].session.userAgent
               && g.guid == grants[p].guid
               && g.notice == Expected(grants[p].session, g.session)
    ensures GrantsFormChains(grants + [g])
  {
    var all := grants + [g];
    assert forall i :: 0 <= i < |grants| ==> all[i] == grants[i];
    forall i, j | 0 <= i < j < |all| && all[i].parent.Some?
      ensures all[i].parent != all[j].parent
    {
      if j == |grants| {
        assert grants[i].parent == Some(all[i].parent.value);
        assert HasChild(grants, all[i].parent.value);
      }
    }
  }

  lemma GrantKeepsMarks(cfg: Config, w: World, w': World, g: Grant)
    requires Good(cfg, w) && Granted(cfg, w, w', g)
    ensures MarksAreSane(w')
  {
    if g.parent.Some? {
      ParentIsLast(cfg, w, w', g);
    }
    forall i | 0 <= i < |w'.grants| && w'.grants[i].parent.Some?
      ensures var p := w'.grants[i].parent.value;
              p < |w'.grants| && (IsLive(w', i) <==> IsLive(w', p))
    {
      var p := w'.grants[i].parent.value;
      assert w'.grants[p] == w.grants[p];
      if i < |w.grants| {
        assert w'.grants[i] == w.grants[i];
        assert IsLive(w, i) <==> IsLive(w, p);
      }
    }
  }

  lemma RowsStayKnown(cfg: Config, w: World, w': World, g: Grant, id: int)
    requires Good(cfg, w) && Granted(cfg, w, w', g) && id in w'.db.sessions
    ensures GrantOf(w'.grants, w'.db.sessions[id].session.selector).Some?
  {
    if id == w.db.nextSession {
      assert w'.grants[|w.grants|].session == w'.db.sessions[id].session;
    } else {
      var i := GrantOf(w.grants, w.db.sessions[id].session.selector).value;
      assert w'.grants[i].session.selector == w'.db.sessions[id].session.selector;
    }
  }

  ghost predicate RowsUpTo(w: World, n: nat)
    requires n <= |w.grants|
  {
    forall i :: 0 <= i < n ==> GrantHasRow(w, i)
  }

  lemma OldGrantsHaveRows(cfg: Config, w: World, w': World, g: Grant)
    requires Good(cfg, w) && Granted(cfg, w, w', g)
    ensures RowsUpTo(w', |w.grants|)
  {
    forall i | 0 <= i < |w.grants| ensures GrantHasRow(w', i) {
      GrantKeepsRow(cfg, w, w', g, i);
    }
  }

  lemma EveryGrantHasRow(cfg: Config, w: World, w': World, g: Grant)
    requires Good(cfg, w) && Granted(cfg, w, w', g)
    ensures RowsUpTo(w', |w'.grants|)
  {
    OldGrantsHaveRows(cfg, w, w', g);
    NewGrantHasRow(cfg, w, w', g);
    OneMoreRow(w', |w.grants|);
  }

  lemma OneMoreRow(w: World, n: nat)
    requires |w.grants| == n + 1 && RowsUpTo(w, n) && GrantHasRow(w, n)
    ensures RowsUpTo(w, |w.grants|)
  {
  }

  lemma EveryRowIsKnown(cfg: Config, w: World, w': World, g: Grant)
    requires Good(cfg, w) && Granted(cfg, w, w', g)
    ensures forall id :: id in w'.db.sessions ==> GrantOf(w'.grants, w'.db.sessions[id].session.selector).Some?
  {
    forall id | id in w'.db.sessions
      ensures GrantOf(w'.grants, w'.db.sessions[id].session.selector).Some?
    {
      RowsStayKnown(cfg, w, w', g, id);
    }
  }

  lemma GrantKeepsUsers(cfg: Config, w: World, w': World, g: Grant)
    requires GrantsMatchUsers(cfg, w) && Granted(cfg, w, w', g)
    ensures GrantsMatchUsers(cfg, w')
  {
    assert forall i :: 0 <= i < |w.grants| ==> w'.grants[i] == w.grants[i];
  }

  lemma GrantKeepsGood(cfg: Config, w: World, w': World, g: Grant)
    requires Good(cfg, w) && Granted(cfg, w, w', g)
    ensures Good(cfg, w')
  {
    GrantStaysDistinct(w.grants, g);
    if g.parent.Some? {
      ParentIsLast(cfg, w, w', g);
    }
    GrantExtendsChains(w.grants, g);
    GrantKeepsMarks(cfg, w, w', g);
    GrantKeepsUsers(cfg, w, w', g);
    EveryGrantHasRow(cfg, w, w', g);
    EveryRowIsKnown(cfg, w, w', g);
  }

  // ---------- every request is one of the three, or changes no session ----------

  lemma NewPairMatches(cfg: Config, raw: seq<byte>, meta: Metadata, userId: int, supply: Supply, parent: Option<nat>,
                       guid: string, notice: Option<Notice>)
    requires |raw| == RAW_TOKEN_LENGTH
    ensures PairMatches(cfg, Grant(guid, NewSession(cfg, raw, meta, supply).(userId := userId),
                                   NewPair(cfg, raw, userId, supply), parent, notice))
  {
    RefreshTokenRoundTrip(cfg, raw);
  }

  lemma IssueStep(cfg: Config, w: World, r: Request)
    requires Good(cfg, w) && Fresh(w, r) && r.IssueRequest?
    ensures var w' := Step(cfg, w, r);
            match Handed(cfg, w, r)
            case None => w'.db == w.db && w'.grants == w.grants && w'.marks == w.marks
            case Some(g) => Granted(cfg, w, w', g) && g.parent.None? && g.guid == r.guid
  {
    if |r.supply.entropy| >= RAW_TOKEN_LENGTH {
      var raw := r.supply.entropy[..RAW_TOKEN_LENGTH];
      var session := NewSession(cfg, raw, r.meta, r.supply);
      if IssueTx(w.db, r.guid, session).Ok? {
        IssueFacts(w.db, r.guid, session);
        var (after, id) := IssueTx(w.db, r.guid, session).value;
        UserIdIs(after, id);
        NewPairMatches(cfg, raw, r.meta, id, r.supply, None, r.guid, None);
      }
    }
  }

  /** What a refresh finds when its selector has an active row. */
  lemma ActiveRowIsGrants(cfg: Config, w: World, selector: string)
    requires Good(cfg, w) && FindActive(w.db, selector).Some?
    ensures var i := GrantOf(w.grants, selector);
            && i.Some? && w.grants[i.value].session == FindActive(w.db, selector).value
            && IsLive(w, i.value) && !HasChild(w.grants, i.value)
  {
    var id := RowId(w.db, selector).value;
    assert w.db.sessions[id].session.selector == selector;
    var i := GrantOf(w.grants, selector).value;
    assert GrantHasRow(w, i);
  }

  /** What a successful refresh did. */
  lemma RotationEffect(cfg: Config, db: Db, access: string, refresh: string, meta: Metadata, supply: Supply)
    requires RefreshEffect(cfg, db, access, refresh, meta, supply).result.Ok?
    ensures var done := RefreshEffect(cfg, db, access, refresh, meta, supply);
            var selector := Split(refresh, '.')[0];
            && FindActive(db, selector).Some? && |supply.entropy| >= RAW_TOKEN_LENGTH
            && var found := FindActive(db, selector).value;
            var raw := supply.entropy[..RAW_TOKEN_LENGTH];
            var session := NewSession(cfg, raw, meta, supply);
            && RotateTx(db, selector, session, found.userId) == Ok(done.db)
            && done.result == Ok(NewPair(cfg, raw, found.userId, supply))
            && found.userAgent == meta.userAgent
            && done.notice == Expected(found, session.(userId := found.userId))
  {
  }

  /** The world after a successful refresh, spelled out. */
  lemma RotationShape(cfg: Config, w: World, r: Request)
    requires Good(cfg, w) && r.RefreshRequest?
    requires RefreshEffect(cfg, w.db, r.access, r.refresh, r.meta, r.supply).result.Ok?
    ensures |r.supply.entropy| >= RAW_TOKEN_LENGTH
    ensures var selector := Split(r.refresh, '.')[0];
            var (p, raw) := (GrantOf(w.grants, selector), r.supply.entropy[..RAW_TOKEN_LENGTH]);
            var session := NewSession(cfg, raw, r.meta, r.supply);
            && p.Some? && FindActive(w.db, selector) == Some(w.grants[p.value].session)
            && var parent := w.grants[p.value];
            var g := Grant(parent.guid, session.(userId := parent.session.userId),
                           NewPair(cfg, raw, parent.session.userId, r.supply), p,
                           Expected(parent.session, session.(userId := parent.session.userId)));
            && parent.session.userAgent == r.meta.userAgent
            && Handed(cfg, w, r) == Some(g)
            && Step(cfg, w, r).grants == w.grants + [g] && Step(cfg, w, r).marks == w.marks
            && RotateTx(w.db, selector, session, parent.session.userId) == Ok(Step(cfg, w, r).db)
  {
    RotationEffect(cfg, w.db, r.access, r.refresh, r.meta, r.supply);
    ActiveRowIsGrants(cfg, w, Split(r.refresh, '.')[0]);
  }

  lemma RotationStep(cfg: Config, w: World, r: Request)
    requires Good(cfg, w) && Fresh(w, r) && r.RefreshRequest?
    requires RefreshEffect(cfg, w.db, r.access, r.refresh, r.meta, r.supply).result.Ok?
    ensures Handed(cfg, w, r).Some? && Granted(cfg, w, Step(cfg, w, r), Handed(cfg, w, r).value)
  {
    var selector, raw := Split(r.refresh, '.')[0], r.supply.entropy[..RAW_TOKEN_LENGTH];
    RotationShape(cfg, w, r);
    var p := GrantOf(w.grants, selector);
    var parent := w.grants[p.value];
    RotateFacts(w.db, selector, NewSession(cfg, raw, r.meta, r.supply), parent.session.userId);
    NewPairMatches(cfg, raw, r.meta, parent.session.userId, r.supply, p, parent.guid, Handed(cfg, w, r).value.notice);
  }

  /** A refresh that finds no active row: either nothing happens, or a used row gives its owner away. */
  lemma ReplayStep(cfg: Config, db: Db, access: string, refresh: string, meta: Metadata, supply: Supply)
    requires FindActive(db, Split(refresh, '.')[0]).None?
    ensures var selector := Split(refresh, '.')[0];
            var done := RefreshEffect(cfg, db, access, refresh, meta, supply);
            && done.result.Err? && done.notice.None? && done.result != Err(AgentChanged)
            && (done.result == Err(ReuseDetected) ==>
                  Find(db, selector).Some? && done.db == DeleteUserSessions(db, Find(db, selector).value.userId))
            && (done.result != Err(ReuseDetected) ==> done.db == db)
  {
  }

  lemma RefusedPlans(cfg: Config, found: Session, jti: string, refresh: string, meta: Metadata, supply: Supply)
    ensures var plan := Decide(cfg, found, jti, refresh, meta, supply).0;
            && (plan.Refuse? ==> plan.error != ReuseDetected && plan.error != AgentChanged)
            && (plan.Revoke? ==> plan.error == AgentChanged && plan.userId == found.userId)
  {
  }

  lemma FailedRotation(db: Db, selector: string, session: Session, userId: int)
    requires RotateTx(db, selector, session, userId).Err?
    ensures RotateTx(db, selector, session, userId).error !in {ReuseDetected, AgentChanged}
  {
  }

  /** A refresh that finds an active row and fails: only a changed client deletes rows. */
  lemma RefusalStep(cfg: Config, db: Db, access: string, refresh: string, meta: Metadata, supply: Supply)
    requires FindActive(db, Split(refresh, '.')[0]).Some?
    requires RefreshEffect(cfg, db, access, refresh, meta, supply).result.Err?
    ensures var selector := Split(refresh, '.')[0];
            var done := RefreshEffect(cfg, db, access, refresh, meta, supply);
            && done.result != Err(ReuseDetected)
            && (done.result == Err(AgentChanged) ==>
                  done.db == DeleteUserSessions(db, FindActive(db, selector).value.userId))
            && (done.result != Err(AgentChanged) ==> done.db == db)
  {
    var found := FindActive(db, Split(refresh, '.')[0]).value;
    if cfg.decode(access).Some? {
      var jti := cfg.decode(access).value.jti;
      RefusedPlans(cfg, found, jti, refresh, meta, supply);
      var plan := Decide(cfg, found, jti, refresh, meta, supply).0;
      if plan.Rotate? && RotateTx(db, Split(refresh, '.')[0], plan.session, plan.userId).Err? {
        FailedRotation(db, Split(refresh, '.')[0], plan.session, plan.userId);
      }
    }
  }

  lemma FailedRefreshStep(cfg: Config, w: World, r: Request)
    requires r.RefreshRequest?
    requires RefreshEffect(cfg, w.db, r.access, r.refresh, r.meta, r.supply).result.Err?
    ensures var w' := Step(cfg, w, r);
            match Revoked(cfg, w, r)
            case None => w'.db == w.db && w'.grants == w.grants && w'.marks == w.marks
            case Some(u) => Wiped(w, w', u)
  {
    if FindActive(w.db, Split(r.refresh, '.')[0]).None? {
      ReplayStep(cfg, w.db, r.access, r.refresh, r.meta, r.supply);
    } else {
      RefusalStep(cfg, w.db, r.access, r.refresh, r.meta, r.supply);
    }
  }

  lemma LogoutStep(cfg: Config, w: World, r: Request)
    requires r.LogoutRequest?
    ensures var w' := Step(cfg, w, r);
            match Revoked(cfg, w, r)
            case None => w'.db == w.db && w'.grants == w.grants && w'.marks == w.marks
            case Some(u) => Wiped(w, w', u)
  {
  }

  lemma SameSessionsKeepGood(cfg: Config, w: World, w': World)
    requires Good(cfg, w) && w'.db == w.db && w'.grants == w.grants && w'.marks == w.marks
    ensures Good(cfg, w')
  {
    forall i | 0 <= i < |w'.grants| ensures GrantHasRow(w', i) {
      assert GrantHasRow(w, i);
    }
    forall i | 0 <= i < |w'.grants| && w'.grants[i].parent.Some?
      ensures IsLive(w', i) <==> IsLive(w', w'.grants[i].parent.value)
    {
      assert IsLive(w, i) <==> IsLive(w, w.grants[i].parent.value);
    }
  }

  /** Every request changes the sessions in one of the three ways, or not at all. */
  lemma StepShape(cfg: Config, w: World, r: Request)
    requires Good(cfg, w) && Fresh(w, r)
    ensures var w' := Step(cfg, w, r);
            match Handed(cfg, w, r)
            case Some(g) => Granted(cfg, w, w', g)
            case None =>
              match Revoked(cfg, w, r)
              case Some(u) => Wiped(w, w', u)
              case None => w'.db == w.db && w'.grants == w.grants && w'.marks == w.marks
  {
    match r
    case IssueRequest(_, _, _) => IssueStep(cfg, w, r);
    case RefreshRequest(access, refresh, meta, supply) =>
      if RefreshEffect(cfg, w.db, access, refresh, meta, supply).result.Ok? {
        RotationStep(cfg, w, r);
      } else {
        FailedRefreshStep(cfg, w, r);
      }
    case LogoutRequest(_, _, _) => LogoutStep(cfg, w, r);
  }

  lemma StepKeepsGood(cfg: Config, w: World, r: Request)
    requires Good(cfg, w) && Fresh(w, r)
    ensures Good(cfg, Step(cfg, w, r))
  {
    StepShape(cfg, w, r);
    var w' := Step(cfg, w, r);
    if Handed(cfg, w, r).Some? {
      GrantKeepsGood(cfg, w, w', Handed(cfg, w, r).value);
    } else if Revoked(cfg, w, r).Some? {
      WipeKeepsGood(cfg, w, w', Revoked(cfg, w, r).value);
    } else {
      SameSessionsKeepGood(cfg, w, w');
    }
  }

  /** The invariant holds after every run of requests that do not overlap. */
  lemma {:induction false} RunKeepsGood(cfg: Config, requests: seq<Request>)
    requires AllFresh(cfg, requests)
    ensures Good(cfg, Run(cfg, requests))
  {
    if |requests| > 0 {
      var front := requests[..|requests| - 1];
      RunKeepsGood(cfg, front);
      StepKeepsGood(cfg, Run(cfg, front), requests[|requests| - 1]);
    }
  }

  lemma {:induction false} PrefixesAreFresh(cfg: Config, requests: seq<Request>, k: nat)
    requires AllFresh(cfg, requests) && k <= |requests|
    ensures AllFresh(cfg, requests[..k])
  {
    if k == |requests| {
      assert requests[..k] == requests;
    } else {
      var front := requests[..|requests| - 1];
      PrefixesAreFresh(cfg, front, k);
      assert front[..k] == requests[..k];
    }
  }

  /** The last request of a run takes a good world to the final one, in one of the three ways. */
  lemma LastStep(cfg: Config, requests: seq<Request>)
    requires AllFresh(cfg, requests) && |requests| > 0
    ensures var (front, last) := (requests[..|requests| - 1], requests[|requests| - 1]);
            var (w, w') := (Run(cfg, front), Run(cfg, requests));
            && AllFresh(cfg, front) && Good(cfg, w) && Fresh(w, last)
            && match Handed(cfg, w, last)
               case Some(g) => Granted(cfg, w, w', g)
               case None =>
                 match Revoked(cfg, w, last)
                 case Some(u) => Wiped(w, w', u)
                 case None => w'.db == w.db && w'.grants == w.grants && w'.marks == w.marks
  {
    var front := requests[..|requests| - 1];
    RunKeepsGood(cfg, front);
    StepShape(cfg, Run(cfg, front), requests[|requests| - 1]);
  }
}
