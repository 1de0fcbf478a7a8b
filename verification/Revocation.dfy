/** What deleting a user's sessions achieves while other requests are in flight. Logouts, theft
    and a changed client all delete in the same way. */
module Revocation {
  import opened Prelude
  import opened Decimal
  import opened Encoding
  import opened Tokens
  import opened Database
  import opened Auth
  import opened Interleaving
  import opened Steps
  import opened Races
  import opened Overlap

  // ---------- a refresh beside a deletion ----------

  /** A refresh that looked its session up before a logout deletes its user's rows still commits
      after it: the logged-out user is left with one active row. */
  lemma LogoutThenCommit(cfg: Config, actions: seq<Action>, q: nat, r: nat, supply: Supply)
    requires AllEnabled(cfg, actions)
    requires var s := Run(cfg, actions);
             && q in s.requests && r in s.requests && s.requests[r].Rotating?
             && s.requests[q] == Revoking(s.requests[r].userId) && s.db.nextSession <= MAX_INT64
    ensures var s := Run(cfg, actions);
            var (both, p) := (actions + [Advance(q, supply), Advance(r, supply)], s.requests[r]);
            var t := Run(cfg, both);
            && AllEnabled(cfg, both)
            && t.log == s.log + [Wiped(q, p.userId), Rotated(r, p.selector, p.session.(userId := p.userId), false)]
            && |ActiveIds(t.db, p.userId)| == 1
            && FindActive(t.db, p.session.selector) == Some(p.session.(userId := p.userId))
  {
    var s, once := Run(cfg, actions), actions + [Advance(q, supply)];
    var p := s.requests[r];
    LogoutFirst(cfg, actions, q, r, supply);
    FoundedRotationCommits(cfg, once, r, supply);
    NewRowIsActive(cfg, once, r, supply);
    Extend(cfg, once, Advance(r, supply));
    var both := once + [Advance(r, supply)];
    assert actions + [Advance(q, supply), Advance(r, supply)] == both;
    var e := Rotated(r, p.selector, p.session.(userId := p.userId), false);
    assert Run(cfg, both).log == s.log + [Wiped(q, p.userId)] + [e];
    OneAfterWipe(cfg, both, s.log, Wiped(q, p.userId), e);
  }

  lemma LogoutFirst(cfg: Config, actions: seq<Action>, q: nat, r: nat, supply: Supply)
    requires AllEnabled(cfg, actions)
    requires var s := Run(cfg, actions);
             && q in s.requests && r in s.requests && s.requests[r].Rotating?
             && s.requests[q] == Revoking(s.requests[r].userId)
    ensures var (s, once) := (Run(cfg, actions), actions + [Advance(q, supply)]);
            var (t, p) := (Run(cfg, once), s.requests[r]);
            && AllEnabled(cfg, once)
            && r in t.requests && t.requests[r] == p && t.db.nextSession == s.db.nextSession
            && t.log == s.log + [Wiped(q, p.userId)]
            && FindActive(t.db, p.selector).None?
  {
    RunKeepsInv(cfg, actions);
    var s := Run(cfg, actions);
    assert RotatingIsFounded(s, r);
    Extend(cfg, actions, Advance(q, supply));
    NoRowOfWiped(cfg, actions + [Advance(q, supply)], s, s.requests[r]);
  }

  lemma NoRowOfWiped(cfg: Config, once: seq<Action>, s: State, p: Phase)
    requires p.Rotating? && Inv(s)
    requires Run(cfg, once).db == DeleteUserSessions(s.db, p.userId)
    requires Owned(s.log, p.selector, p.userId)
    ensures FindActive(Run(cfg, once).db, p.selector).None?
  {
    RowIdAfterDelete(s.db, p.userId, p.selector);
    if FindActive(s.db, p.selector).Some? {
      var k := FoundWasMade(s, p.selector);
    }
  }

  lemma NewRowIsActive(cfg: Config, actions: seq<Action>, r: nat, supply: Supply)
    requires AllEnabled(cfg, actions) && r in Run(cfg, actions).requests && Run(cfg, actions).requests[r].Rotating?
    requires Run(cfg, actions).db.nextSession <= MAX_INT64
    ensures var p := Run(cfg, actions).requests[r];
            var after := Next(cfg, Run(cfg, actions), Advance(r, supply)).db;
            FindActive(after, p.session.selector) == Some(p.session.(userId := p.userId))
  {
    var s := Run(cfg, actions);
    var p := s.requests[r];
    RunKeepsInv(cfg, actions);
    FoundedRotationCommits(cfg, actions, r, supply);
    NextKeeps(cfg, s, Advance(r, supply));
    var s' := Next(cfg, s, Advance(r, supply));
    var e := Rotated(r, p.selector, p.session.(userId := p.userId), FindActive(s.db, p.selector).Some?);
    assert RotatingIsFounded(s, r);
    RetiredGrows(s.log, [e], p.session.selector);
    assert !WipedSince(s'.log, |s.log|, |s'.log|, p.userId);
    ActiveExactly(s', |s.log|);
  }

  /** Since a wipe, one rotation whose mark missed: one active row. */
  lemma OneAfterWipe(cfg: Config, actions: seq<Action>, log: seq<Event>, wiped: Event, e: Event)
    requires AllEnabled(cfg, actions) && Run(cfg, actions).log == log + [wiped] + [e]
    requires wiped.Wiped? && e.Rotated? && !e.fromActive && e.session.userId == wiped.userId
    ensures |ActiveIds(Run(cfg, actions).db, wiped.userId)| == 1
  {
    RowsAreConserved(cfg, actions, wiped.userId);
    SinceGrows(log, wiped, Issues, wiped.userId);
    SinceGrows(log, wiped, Misses, wiped.userId);
    SinceGrows(log + [wiped], e, Issues, wiped.userId);
    SinceGrows(log + [wiped], e, Misses, wiped.userId);
  }

  // ---------- exactly when a deletion holds ----------

  /** No issue for this user commits from event `n` on. */
  ghost predicate NoIssueFrom(log: seq<Event>, n: nat, userId: int) {
    forall k :: n <= k < |log| && log[k].Issued? ==> log[k].session.userId != userId
  }

  /** In every continuation without a new issue for this user, the user has no row. */
  ghost predicate StaysClosed(cfg: Config, base: seq<Action>, userId: int) {
    forall more: seq<Action> ::
      (AllEnabled(cfg, base + more) && NoIssueFrom(Run(cfg, base + more).log, |Run(cfg, base).log|, userId)) ==>
        RowIds(Run(cfg, base + more).db, userId) == {}
  }

  /** No request has found a session of this user active and has yet to rotate it. */
  ghost predicate NoneInFlight(s: State, userId: int) {
    forall r :: r in s.requests && s.requests[r].Rotating? ==> s.requests[r].userId != userId
  }

  ghost predicate Closed(s: State, userId: int) {
    RowIds(s.db, userId) == {} && NoneInFlight(s, userId)
  }

  lemma LookUpKeepsClosed(cfg: Config, s: State, r: nat, supply: Supply, userId: int)
    requires Inv(s) && Closed(s, userId) && r in s.requests && s.requests[r].Presented?
    ensures Closed(LookUp(cfg, s, r, s.requests[r], supply), userId)
  {
    var p := s.requests[r];
    var selector := Split(p.refresh, '.')[0];
    if FindActive(s.db, selector).Some? {
      assert RowId(s.db, selector).value !in RowIds(s.db, userId);
      if Decide(cfg, FindActive(s.db, selector).value, p.jti, p.refresh, p.meta, supply).0.Rotate? {
        DecideRotates(cfg, FindActive(s.db, selector).value, p.jti, p.refresh, p.meta, supply);
      }
    }
  }

  lemma InsertKeepsClosed(db: Db, after: Db, selector: string, session: Session, userId: int)
    requires Consistent(db) && RowIds(db, userId) == {} && session.userId != userId && db.nextSession !in db.sessions
    requires after.sessions == MarkUsed(db, selector).sessions[db.nextSession := Row(session, Active)]
    ensures RowIds(after, userId) == {}
  {
    IdsAfterMark(db, selector, userId);
    IdsAfterInsert(MarkUsed(db, selector), after, session, userId);
  }

  lemma IssueKeepsClosed(cfg: Config, s: State, r: nat, supply: Supply, userId: int)
    requires Inv(s) && Closed(s, userId) && r in s.requests && s.requests[r].Issuing?
    requires NoIssueFrom(Call(cfg, s, r, s.requests[r], supply).log, |s.log|, userId)
    ensures Closed(Call(cfg, s, r, s.requests[r], supply), userId)
  {
    var s', p := Call(cfg, s, r, s.requests[r], supply), s.requests[r];
    if IssueTx(s.db, p.guid, p.session).Ok? {
      IssueFacts(s.db, p.guid, p.session);
      assert s'.log[|s.log|].Issued?;
      IdsAfterInsert(s.db, s'.db, s'.log[|s.log|].session, userId);
    }
  }

  lemma RotateKeepsClosed(cfg: Config, s: State, r: nat, supply: Supply, userId: int)
    requires Inv(s) && Closed(s, userId) && r in s.requests && s.requests[r].Rotating?
    ensures Closed(Call(cfg, s, r, s.requests[r], supply), userId)
  {
    var s', p := Call(cfg, s, r, s.requests[r], supply), s.requests[r];
    if RotateTx(s.db, p.selector, p.session, p.userId).Ok? {
      RotateFacts(s.db, p.selector, p.session, p.userId);
      InsertKeepsClosed(s.db, s'.db, p.selector, p.session.(userId := p.userId), userId);
    }
  }

  lemma CallKeepsClosed(cfg: Config, s: State, r: nat, supply: Supply, userId: int)
    requires Inv(s) && Closed(s, userId) && r in s.requests
    requires NoIssueFrom(Call(cfg, s, r, s.requests[r], supply).log, |s.log|, userId)
    ensures Closed(Call(cfg, s, r, s.requests[r], supply), userId)
  {
    match s.requests[r]
    case Issuing(_, _) => IssueKeepsClosed(cfg, s, r, supply, userId);
    case Presented(_, _, _) => LookUpKeepsClosed(cfg, s, r, supply, userId);
    case Missed(_) =>
    case Revoking(deleted) => CountAfterDelete(s.db, deleted, userId);
    case Rotating(_, _, _) => RotateKeepsClosed(cfg, s, r, supply, userId);
    case Finished =>
  }

  lemma NextKeepsClosed(cfg: Config, s: State, a: Action, userId: int)
    requires Inv(s) && Enabled(s, a) && Closed(s, userId)
    requires NoIssueFrom(Next(cfg, s, a).log, |s.log|, userId)
    ensures Closed(Next(cfg, s, a), userId)
  {
    if a.Advance? {
      CallKeepsClosed(cfg, s, a.request, a.supply, userId);
    }
  }

  lemma NoIssueBetween(first: seq<Event>, second: seq<Event>, third: seq<Event>, userId: int)
    requires first <= second <= third && NoIssueFrom(third, |first|, userId)
    ensures NoIssueFrom(second, |first|, userId) && NoIssueFrom(third, |second|, userId)
  {
    assert forall k :: 0 <= k < |second| ==> second[k] == third[k];
  }

  lemma {:induction false} RunKeepsClosed(cfg: Config, base: seq<Action>, more: seq<Action>, userId: int)
    requires AllEnabled(cfg, base + more) && Closed(Run(cfg, base), userId)
    requires NoIssueFrom(Run(cfg, base + more).log, |Run(cfg, base).log|, userId)
    ensures Closed(Run(cfg, base + more), userId)
  {
    if more == [] {
      assert base + more == base;
    } else {
      var all, front := base + more, base + more[..|more| - 1];
      assert all[..|all| - 1] == front && all[|all| - 1] == more[|more| - 1];
      assert all[..|front|] == front && front[..|base|] == base;
      LogGrows(cfg, all, |front|);
      LogGrows(cfg, front, |base|);
      NoIssueBetween(Run(cfg, base).log, Run(cfg, front).log, Run(cfg, all).log, userId);
      RunKeepsClosed(cfg, base, more[..|more| - 1], userId);
      RunKeepsInv(cfg, front);
      NextKeepsClosed(cfg, Run(cfg, front), more[|more| - 1], userId);
    }
  }

  /** Deleting a user's sessions leaves that user without a session in every continuation, until
      the user is issued a new one, exactly when no refresh of the user is between its lookup and
      its commit at the moment of the deletion. */
  lemma LogoutHoldsExactly(cfg: Config, actions: seq<Action>, q: nat, userId: int, supply: Supply)
    requires AllEnabled(cfg, actions)
    requires var s := Run(cfg, actions);
             q in s.requests && s.requests[q] == Revoking(userId) && s.db.nextSession <= MAX_INT64
    ensures StaysClosed(cfg, actions + [Advance(q, supply)], userId) <==> NoneInFlight(Run(cfg, actions), userId)
  {
    var s, base := Run(cfg, actions), actions + [Advance(q, supply)];
    Extend(cfg, actions, Advance(q, supply));
    if NoneInFlight(s, userId) {
      CountAfterDelete(s.db, userId, userId);
      forall more: seq<Action> | AllEnabled(cfg, base + more) && NoIssueFrom(Run(cfg, base + more).log, |Run(cfg, base).log|, userId)
        ensures RowIds(Run(cfg, base + more).db, userId) == {}
      {
        RunKeepsClosed(cfg, base, more, userId);
      }
    } else {
      var r :| r in s.requests && s.requests[r].Rotating? && s.requests[r].userId == userId;
      NotClosed(cfg, actions, q, r, supply);
    }
  }

  lemma NotClosed(cfg: Config, actions: seq<Action>, q: nat, r: nat, supply: Supply)
    requires AllEnabled(cfg, actions)
    requires var s := Run(cfg, actions);
             && q in s.requests && r in s.requests && s.requests[r].Rotating?
             && s.requests[q] == Revoking(s.requests[r].userId) && s.db.nextSession <= MAX_INT64
    ensures !StaysClosed(cfg, actions + [Advance(q, supply)], Run(cfg, actions).requests[r].userId)
  {
    var base, more, userId := actions + [Advance(q, supply)], [Advance(r, supply)], Run(cfg, actions).requests[r].userId;
    LogoutFirst(cfg, actions, q, r, supply);
    LogoutThenCommit(cfg, actions, q, r, supply);
    assert actions + [Advance(q, supply), Advance(r, supply)] == base + more;
    ActiveHasRow(Run(cfg, base + more).db, userId);
    assert NoIssueFrom(Run(cfg, base + more).log, |Run(cfg, base).log|, userId);
  }

  lemma ActiveHasRow(db: Db, userId: int)
    requires |ActiveIds(db, userId)| == 1
    ensures RowIds(db, userId) != {}
  {
    assert ActiveIds(db, userId) <= RowIds(db, userId);
  }

  /** The access token issued to the first user authenticates for that user until its expiry and leeway. */
  ghost predicate NamesFirstUser(cfg: Config, issued: Supply) {
    forall now :: now < (issued.now + cfg.accessTtl) / 1000 * 1000 + 5_000 ==>
      Authenticate(cfg, map[], MintAccess(cfg, 1, issued.now, issued.jti), now) == Ok(1)
  }

  lemma FirstUserIsNamed(cfg: Config, issued: Supply)
    requires Sound(cfg)
    ensures NamesFirstUser(cfg, issued)
  {
    forall now | now < (issued.now + cfg.accessTtl) / 1000 * 1000 + 5_000
      ensures Authenticate(cfg, map[], MintAccess(cfg, 1, issued.now, issued.jti), now) == Ok(1)
    {
      MintedTokenAccepted(cfg, map[], 1, issued.jti, issued.now, now);
    }
  }

  /** The documentation promises that a logout closes every session of its user. For every client
      and every three distinct draws there is an interleaving that ends with a logout and then the
      commit of a refresh, after which the user has an active row. The user is the one the first
      access token authenticates for, until its expiry and leeway. */
  lemma LoggedOutYetActive(cfg: Config, guid: string, meta: Metadata, issued: Supply, first: Supply, second: Supply)
    returns (actions: seq<Action>)
    requires Sound(cfg)
    requires DrawsDiffer(issued, first) && DrawsDiffer(issued, second) && DrawsDiffer(first, second)
    ensures AllEnabled(cfg, actions)
    ensures var s := Run(cfg, actions);
            && |s.log| == 5 && s.log[3] == Wiped(3, 1) && s.log[4].Rotated?
            && |ActiveIds(s.db, 1)| == 1
    ensures NamesFirstUser(cfg, issued)
  {
    FirstUserIsNamed(cfg, issued);
    var waiting := TwoRotating(cfg, guid, meta, issued, first, second);
    Extend(cfg, waiting, BeginLogout(3, 1));
    var leaving := waiting + [BeginLogout(3, 1)];
    LogoutThenCommit(cfg, leaving, 3, 1, issued);
    actions := leaving + [Advance(3, issued), Advance(1, issued)];
  }

  // ---------- a replayed token ----------

  /** A selector was made by event `k`, and at this point of the log it has no active row. */
  ghost predicate Spent(log: seq<Event>, k: nat, selector: string) {
    && k < |log| && Made(log[k]).Some? && Made(log[k]).value.selector == selector
    && (Retired(log, |log|, selector) || WipedSince(log, k, |log|, Made(log[k]).value.userId))
  }

  lemma SpentIsMissed(cfg: Config, front: seq<Action>, r: nat, supply: Supply, k: nat, selector: string)
    requires AllEnabled(cfg, front) && r in Run(cfg, front).requests && Run(cfg, front).requests[r].Presented?
    requires selector == Split(Run(cfg, front).requests[r].refresh, '.')[0] && Spent(Run(cfg, front).log, k, selector)
    ensures var (s, t) := (Run(cfg, front), Next(cfg, Run(cfg, front), Advance(r, supply)));
            t.db == s.db && r in t.requests && t.requests[r] == Missed(selector) && t.log == s.log + [LookedUp(r, selector, false)]
  {
    RunKeepsInv(cfg, front);
    ActiveExactly(Run(cfg, front), k);
    LookupMisses(cfg, Run(cfg, front), r, supply, selector);
  }

  lemma LookupMisses(cfg: Config, s: State, r: nat, supply: Supply, selector: string)
    requires r in s.requests && s.requests[r].Presented? && selector == Split(s.requests[r].refresh, '.')[0]
    requires FindActive(s.db, selector).None?
    ensures var t := Next(cfg, s, Advance(r, supply));
            t.db == s.db && r in t.requests && t.requests[r] == Missed(selector) && t.log == s.log + [LookedUp(r, selector, false)]
  {
  }

  lemma FindAfterMiss(cfg: Config, actions: seq<Action>, r: nat, supply: Supply, k: nat, selector: string)
    requires AllEnabled(cfg, actions) && r in Run(cfg, actions).requests && Run(cfg, actions).requests[r] == Missed(selector)
    requires k < |Run(cfg, actions).log| && Made(Run(cfg, actions).log[k]).Some?
    requires Made(Run(cfg, actions).log[k]).value.selector == selector
    ensures var (s, t) := (Run(cfg, actions), Next(cfg, Run(cfg, actions), Advance(r, supply)));
            var userId := Made(s.log[k]).value.userId;
            && t.db == s.db && t.log == s.log && r in t.requests
            && t.requests[r] == if WipedSince(s.log, k, |s.log|, userId) then Finished else Revoking(userId)
  {
    RunKeepsInv(cfg, actions);
    assert RowReflects(Run(cfg, actions), k);
  }

  /** The steps of one request, with any steps of the others between them. */
  ghost function Replay(front: seq<Action>, r: nat, first: Supply, others: seq<Action>): seq<Action> {
    front + [Advance(r, first)] + others
  }

  lemma MissedUntilFind(cfg: Config, front: seq<Action>, r: nat, first: Supply, others: seq<Action>, k: nat, selector: string)
    requires AllEnabled(cfg, front) && r in Run(cfg, front).requests && Run(cfg, front).requests[r].Presented?
    requires selector == Split(Run(cfg, front).requests[r].refresh, '.')[0] && Spent(Run(cfg, front).log, k, selector)
    requires LeavesAlone(others, r)
    ensures var (s, t) := (Run(cfg, front), Run(cfg, Replay(front, r, first, others)));
            && r in t.requests && t.requests[r] == Missed(selector)
            && k < |t.log| && t.log[k] == s.log[k]
  {
    var looked, middle := front + [Advance(r, first)], Replay(front, r, first, others);
    SpentIsMissed(cfg, front, r, first, k, selector);
    assert looked[..|front|] == front && middle[..|front|] == front;
    StaysPut(cfg, looked, others, r);
    LogGrows(cfg, middle, |front|);
  }

  /** Replaying a spent token, however the others interleave: its owner's sessions, all that are
      stored when the last step comes, are deleted exactly if the owner was not wiped between the
      making of the session and the second lookup; otherwise the request ends with nothing changed. */
  lemma ReplayIsDetected(cfg: Config, front: seq<Action>, r: nat, first: Supply, others: seq<Action>, second: Supply,
                         rest: seq<Action>, last: Supply, k: nat, selector: string)
    requires r in Run(cfg, front).requests && Run(cfg, front).requests[r].Presented?
    requires selector == Split(Run(cfg, front).requests[r].refresh, '.')[0] && Spent(Run(cfg, front).log, k, selector)
    requires LeavesAlone(others, r) && LeavesAlone(rest, r) && AllEnabled(cfg, front)
    requires AllEnabled(cfg, Replay(front, r, first, others))
    requires AllEnabled(cfg, Replay(Replay(front, r, first, others), r, second, rest))
    ensures var middle := Replay(front, r, first, others);
            var (at, s) := (Run(cfg, middle), Run(cfg, Replay(middle, r, second, rest)));
            var (x, t) := (Made(Run(cfg, front).log[k]).value, Next(cfg, s, Advance(r, last)));
            && k < |at.log| && Made(at.log[k]) == Some(x)
            && if WipedSince(at.log, k, |at.log|, x.userId) then t == s
               else t.db == DeleteUserSessions(s.db, x.userId) && t.log == s.log + [Wiped(r, x.userId)]
  {
    var middle := Replay(front, r, first, others);
    MissedUntilFind(cfg, front, r, first, others, k, selector);
    FindAfterMiss(cfg, middle, r, second, k, selector);
    assert (middle + [Advance(r, second)])[..|middle|] == middle;
    StaysPut(cfg, middle + [Advance(r, second)], rest, r);
  }
}
