/** How the interleaved service relates to one request at a time, and what it permits beyond. */
module Overlap {
  import opened Prelude
  import opened Decimal
  import opened Encoding
  import opened Redis
  import opened Tokens
  import opened Database
  import opened Auth
  import opened Interleaving
  import opened Steps
  import opened Races

  // ---------- one request left to itself ----------

  /** At most how many storage calls a request has left. */
  function Remaining(p: Phase): nat {
    match p
    case Presented(_, _, _) => 3
    case Missed(_) => 2
    case Issuing(_, _) => 1
    case Revoking(_) => 1
    case Rotating(_, _, _) => 1
    case Finished => 0
  }

  /** The state once this request has run to its end with no other step in between. */
  ghost function Settle(cfg: Config, s: State, r: nat, supply: Supply): State
    requires r in s.requests
    decreases Remaining(s.requests[r])
  {
    if s.requests[r].Finished? then s else Settle(cfg, Call(cfg, s, r, s.requests[r], supply), r, supply)
  }

  /** Left to itself, a refresh does to the tables what the request-level service does, and
      commits a rotation exactly when that hands out a pair. */
  lemma SoloRefresh(cfg: Config, s: State, r: nat, access: string, refresh: string, meta: Metadata, supply: Supply)
    requires r !in s.requests
    ensures var done := RefreshEffect(cfg, s.db, access, refresh, meta, supply);
            var t := Settle(cfg, Next(cfg, s, BeginRefresh(r, access, refresh, meta)), r, supply);
            && t.db == done.db
            && (done.result.Ok? <==> |t.log| > 0 && t.log[|t.log| - 1].Rotated? && |t.log| == |s.log| + 2)
  {
    var t0 := Next(cfg, s, BeginRefresh(r, access, refresh, meta));
    if t0.requests[r].Presented? {
      var p := t0.requests[r];
      var selector := Split(refresh, '.')[0];
      var t1 := LookUp(cfg, t0, r, p, supply);
      assert t1 == Call(cfg, t0, r, p, supply);
      if FindActive(s.db, selector).Some? {
        SoloExchange(cfg, s, t0, t1, r, FindActive(s.db, selector).value, supply);
      } else {
        SoloReplay(cfg, t1, r, selector, supply);
      }
    }
  }

  lemma SoloReplay(cfg: Config, t1: State, r: nat, selector: string, supply: Supply)
    requires r in t1.requests && t1.requests[r] == Missed(selector)
    requires |t1.log| > 0 && t1.log[|t1.log| - 1].LookedUp?
    ensures var t := Settle(cfg, t1, r, supply);
            && t.db == DetectTheft(t1.db, selector).0
            && |t.log| > 0 && !t.log[|t.log| - 1].Rotated?
  {
    var t2 := Call(cfg, t1, r, t1.requests[r], supply);
    if t2.requests[r].Revoking? {
      var t3 := Call(cfg, t2, r, t2.requests[r], supply);
      assert t3.requests[r].Finished? && Settle(cfg, t3, r, supply) == t3;
    } else {
      assert t2.requests[r].Finished? && Settle(cfg, t2, r, supply) == t2;
    }
  }

  lemma SoloExchange(cfg: Config, s: State, t0: State, t1: State, r: nat, found: Session, supply: Supply)
    requires t0.db == s.db && t0.log == s.log && r in t0.requests && t0.requests[r].Presented?
    requires FindActive(s.db, Split(t0.requests[r].refresh, '.')[0]) == Some(found)
    requires t1 == LookUp(cfg, t0, r, t0.requests[r], supply)
    ensures var p := t0.requests[r];
            var selector := Split(p.refresh, '.')[0];
            var (after, result) := Carry(s.db, selector, Decide(cfg, found, p.jti, p.refresh, p.meta, supply).0);
            && r in t1.requests
            && var t := Settle(cfg, t1, r, supply);
            && t.db == after
            && (result.Ok? <==> |t.log| > 0 && t.log[|t.log| - 1].Rotated? && |t.log| == |s.log| + 2)
  {
    var p := t0.requests[r];
    var plan := Decide(cfg, found, p.jti, p.refresh, p.meta, supply).0;
    assert t1.db == s.db && t1.log == s.log + [LookedUp(r, Split(p.refresh, '.')[0], true)];
    if !plan.Refuse? {
      var t2 := Call(cfg, t1, r, t1.requests[r], supply);
      assert t2.requests[r].Finished? && Settle(cfg, t2, r, supply) == t2;
    }
  }

  /** The same for an issue. */
  lemma SoloIssue(cfg: Config, s: State, r: nat, guid: string, meta: Metadata, supply: Supply)
    requires r !in s.requests
    ensures var (after, result) := IssueEffect(cfg, s.db, guid, meta, supply);
            var t := Settle(cfg, Next(cfg, s, BeginIssue(r, guid, meta, supply)), r, supply);
            && t.db == after
            && (result.Ok? <==> |t.log| == |s.log| + 1 && t.log[|s.log|].Issued?)
  {
    var t0 := Next(cfg, s, BeginIssue(r, guid, meta, supply));
    if t0.requests[r].Issuing? {
      var t1 := Call(cfg, t0, r, t0.requests[r], supply);
      assert t1.requests[r].Finished? && Settle(cfg, t1, r, supply) == t1;
    }
  }

  /** The same for a logout whose token authenticates and whose deletion succeeds. */
  lemma SoloLogout(cfg: Config, s: State, r: nat, store: Store, access: string, now: int, supply: Supply)
    requires r !in s.requests && Authenticate(cfg, store, access, now).Ok?
    ensures var userId := Authenticate(cfg, store, access, now).value;
            var (after, _, error) := LogoutEffect(cfg, s.db, store, access, now, false);
            var t := Settle(cfg, Next(cfg, s, BeginLogout(r, userId)), r, supply);
            && error == None && t.db == after && t.log == s.log + [Wiped(r, userId)]
  {
    var userId := Authenticate(cfg, store, access, now).value;
    var t0 := Next(cfg, s, BeginLogout(r, userId));
    var t1 := Call(cfg, t0, r, t0.requests[r], supply);
    assert t1.requests[r].Finished? && Settle(cfg, t1, r, supply) == t1;
  }

  // ---------- runs, step by step ----------

  lemma Extend(cfg: Config, actions: seq<Action>, a: Action)
    requires AllEnabled(cfg, actions) && Enabled(Run(cfg, actions), a)
    ensures AllEnabled(cfg, actions + [a]) && Run(cfg, actions + [a]) == Next(cfg, Run(cfg, actions), a)
  {
    assert (actions + [a])[..|actions|] == actions;
  }

  lemma CallShrinks(cfg: Config, s: State, r: nat, supply: Supply)
    requires r in s.requests && !s.requests[r].Finished?
    ensures var t := Call(cfg, s, r, s.requests[r], supply);
            r in t.requests && Remaining(t.requests[r]) < Remaining(s.requests[r]) && !t.requests[r].Presented?
  {
  }

  lemma SettleStep(cfg: Config, actions: seq<Action>, r: nat, supply: Supply)
    requires AllEnabled(cfg, actions) && r in Run(cfg, actions).requests && !Run(cfg, actions).requests[r].Finished?
    requires Run(cfg, actions).requests[r].Presented? ==> FreshDraw(Run(cfg, actions), supply)
    ensures var (s, longer) := (Run(cfg, actions), actions + [Advance(r, supply)]);
            && AllEnabled(cfg, longer) && r in Run(cfg, longer).requests && !Run(cfg, longer).requests[r].Presented?
            && Remaining(Run(cfg, longer).requests[r]) < Remaining(s.requests[r])
            && Settle(cfg, s, r, supply) == Settle(cfg, Run(cfg, longer), r, supply)
  {
    Extend(cfg, actions, Advance(r, supply));
    CallShrinks(cfg, Run(cfg, actions), r, supply);
  }

  /** A request left to itself is one of the interleavings. */
  lemma {:induction false} SettleIsRun(cfg: Config, actions: seq<Action>, r: nat, supply: Supply) returns (more: seq<Action>)
    requires AllEnabled(cfg, actions) && r in Run(cfg, actions).requests
    requires Run(cfg, actions).requests[r].Presented? ==> FreshDraw(Run(cfg, actions), supply)
    ensures AllEnabled(cfg, actions + more) && Run(cfg, actions + more) == Settle(cfg, Run(cfg, actions), r, supply)
    decreases Remaining(Run(cfg, actions).requests[r])
  {
    var s := Run(cfg, actions);
    if s.requests[r].Finished? {
      more := [];
      assert actions + more == actions;
    } else {
      var longer := actions + [Advance(r, supply)];
      SettleStep(cfg, actions, r, supply);
      var rest := SettleIsRun(cfg, longer, r, supply);
      more := [Advance(r, supply)] + rest;
      assert actions + more == longer + rest;
    }
  }

  // ---------- when a refresh commits ----------

  ghost predicate LeavesAlone(actions: seq<Action>, r: nat) {
    forall a :: a in actions ==> a.request != r
  }

  lemma OthersLeave(cfg: Config, s: State, a: Action, r: nat)
    requires a.request != r && r in s.requests
    ensures r in Next(cfg, s, a).requests && Next(cfg, s, a).requests[r] == s.requests[r]
  {
  }

  /** Whatever the other requests do, this one stays where it is. */
  lemma {:induction false} StaysPut(cfg: Config, front: seq<Action>, others: seq<Action>, r: nat)
    requires LeavesAlone(others, r) && r in Run(cfg, front).requests
    ensures r in Run(cfg, front + others).requests
    ensures Run(cfg, front + others).requests[r] == Run(cfg, front).requests[r]
  {
    if others == [] {
      assert front + others == front;
    } else {
      var n := |others| - 1;
      assert forall a :: a in others[..n] ==> a in others;
      StaysPut(cfg, front, others[..n], r);
      assert others[n] in others;
      assert (front + others)[..|front + others| - 1] == front + others[..n];
      OthersLeave(cfg, Run(cfg, front + others[..n]), others[n], r);
    }
  }

  /** The next step of this request commits a rotation of this selector. */
  ghost predicate Commits(cfg: Config, s: State, r: nat, selector: string, supply: Supply) {
    var log := Next(cfg, s, Advance(r, supply)).log;
    |log| > |s.log| && log[|s.log|].Rotated? && log[|s.log|].selector == selector
  }

  /** What the log says at a lookup for it to lead to a rotation: the selector was made, its user
      has not been wiped since, no rotation of it has committed, and the session passes the checks. */
  ghost predicate MayRotate(cfg: Config, s: State, p: Phase, supply: Supply)
    requires p.Presented?
  {
    var selector := Split(p.refresh, '.')[0];
    && !Retired(s.log, |s.log|, selector)
    && exists k: nat :: k < |s.log| && Made(s.log[k]).Some? && Made(s.log[k]).value.selector == selector
                        && !WipedSince(s.log, k, |s.log|, Made(s.log[k]).value.userId)
                        && Decide(cfg, Made(s.log[k]).value, p.jti, p.refresh, p.meta, supply).0.Rotate?
  }

  /** The same, read off the table. */
  ghost predicate FindsAndMayRotate(cfg: Config, s: State, p: Phase, supply: Supply)
    requires p.Presented?
  {
    var found := FindActive(s.db, Split(p.refresh, '.')[0]);
    found.Some? && Decide(cfg, found.value, p.jti, p.refresh, p.meta, supply).0.Rotate?
  }

  lemma TableTellsLog(cfg: Config, s: State, p: Phase, supply: Supply)
    requires Inv(s) && p.Presented?
    ensures FindsAndMayRotate(cfg, s, p, supply) <==> MayRotate(cfg, s, p, supply)
  {
    var selector := Split(p.refresh, '.')[0];
    if FindsAndMayRotate(cfg, s, p, supply) {
      var k := FoundWasMade(s, selector);
      assert MayRotate(cfg, s, p, supply);
    }
    if MayRotate(cfg, s, p, supply) {
      var k: nat :| k < |s.log| && Made(s.log[k]).Some? && Made(s.log[k]).value.selector == selector
                    && !WipedSince(s.log, k, |s.log|, Made(s.log[k]).value.userId)
                    && Decide(cfg, Made(s.log[k]).value, p.jti, p.refresh, p.meta, supply).0.Rotate?;
      ActiveExactly(s, k);
    }
  }

  lemma LookupRotates(cfg: Config, s: State, r: nat, supply: Supply)
    requires r in s.requests && s.requests[r].Presented?
    ensures var s' := Next(cfg, s, Advance(r, supply));
            r in s'.requests && (s'.requests[r].Rotating? <==> FindsAndMayRotate(cfg, s, s.requests[r], supply))
            && (s'.requests[r].Rotating? ==> s'.requests[r].selector == Split(s.requests[r].refresh, '.')[0])
  {
  }

  lemma OnlyRotationsCommit(cfg: Config, s: State, r: nat, selector: string, supply: Supply)
    requires r in s.requests && Commits(cfg, s, r, selector, supply)
    ensures s.requests[r].Rotating?
  {
  }

  /** A request that has presented a refresh token, looks it up, and reaches its next call after
      any steps of the others. */
  ghost predicate LooksUp(cfg: Config, front: seq<Action>, r: nat, supply: Supply, others: seq<Action>, selector: string) {
    && AllEnabled(cfg, front) && AllEnabled(cfg, front + [Advance(r, supply)] + others) && LeavesAlone(others, r)
    && r in Run(cfg, front).requests && Run(cfg, front).requests[r].Presented?
    && selector == Split(Run(cfg, front).requests[r].refresh, '.')[0]
    && Run(cfg, front + [Advance(r, supply)] + others).db.nextSession <= MAX_INT64
  }

  /** A refresh commits exactly when its lookup met those conditions, whatever the other requests
      do between its lookup and its commit, as long as ids are left. */
  lemma CommitsExactly(cfg: Config, front: seq<Action>, r: nat, supply: Supply, others: seq<Action>, selector: string,
                       last: Supply)
    requires LooksUp(cfg, front, r, supply, others, selector)
    ensures Commits(cfg, Run(cfg, front + [Advance(r, supply)] + others), r, selector, last)
            <==> MayRotate(cfg, Run(cfg, front), Run(cfg, front).requests[r], supply)
  {
    var looked := front + [Advance(r, supply)];
    assert looked[..|front|] == front;
    RunKeepsInv(cfg, front);
    LookupRotates(cfg, Run(cfg, front), r, supply);
    TableTellsLog(cfg, Run(cfg, front), Run(cfg, front).requests[r], supply);
    StaysPut(cfg, looked, others, r);
    CallShrinks(cfg, Run(cfg, front), r, supply);
    if Commits(cfg, Run(cfg, looked + others), r, selector, last) {
      OnlyRotationsCommit(cfg, Run(cfg, looked + others), r, selector, last);
    }
    if Run(cfg, looked).requests[r].Rotating? {
      FoundedRotationCommits(cfg, looked + others, r, last);
    }
  }

  /** The first rotation of a selector in a log. */
  ghost predicate FirstRotation(log: seq<Event>, i: nat, selector: string) {
    && i < |log| && log[i].Rotated? && log[i].selector == selector && !Retired(log, i, selector)
  }

  /** Two refreshes of one token, both with everything in order: the second commits exactly when
      its lookup came before the first one's commit. */
  lemma SecondCommitsExactly(cfg: Config, front: seq<Action>, r: nat, supply: Supply, others: seq<Action>, selector: string,
                             last: Supply, i: nat, k: nat)
    requires LooksUp(cfg, front, r, supply, others, selector)
    requires var (s, p) := (Run(cfg, front), Run(cfg, front).requests[r]);
             && k < |s.log| && Made(s.log[k]).Some? && Made(s.log[k]).value.selector == selector
             && !WipedSince(s.log, k, |s.log|, Made(s.log[k]).value.userId)
             && Decide(cfg, Made(s.log[k]).value, p.jti, p.refresh, p.meta, supply).0.Rotate?
    requires FirstRotation(Run(cfg, front + [Advance(r, supply)] + others).log, i, selector)
    ensures Commits(cfg, Run(cfg, front + [Advance(r, supply)] + others), r, selector, last) <==> |Run(cfg, front).log| <= i
  {
    var all := front + [Advance(r, supply)] + others;
    CommitsExactly(cfg, front, r, supply, others, selector, last);
    assert all[..|front|] == front;
    LogGrows(cfg, all, |front|);
    RetiredBefore(Run(cfg, front).log, Run(cfg, all).log, i, selector);
  }

  lemma RetiredBefore(before: seq<Event>, log: seq<Event>, i: nat, selector: string)
    requires before <= log && FirstRotation(log, i, selector)
    ensures Retired(before, |before|, selector) <==> i < |before|
  {
    if i < |before| {
      assert before[i] == log[i];
    }
    if Retired(before, |before|, selector) {
      var j :| 0 <= j < |before| && before[j].Rotated? && before[j].selector == selector;
      assert log[j] == before[j];
    }
  }

  // ---------- when a token is used up ----------

  /** From event `n` on no rotation of this selector commits. */
  ghost predicate NotRotatedFrom(log: seq<Event>, n: nat, selector: string) {
    forall k :: n <= k < |log| && log[k].Rotated? ==> log[k].selector != selector
  }

  /** In every continuation no rotation of this selector commits again. */
  ghost predicate StaysUsedUp(cfg: Config, base: seq<Action>, selector: string) {
    forall more: seq<Action> :: AllEnabled(cfg, base + more) ==>
      NotRotatedFrom(Run(cfg, base + more).log, |Run(cfg, base).log|, selector)
  }

  /** A rotation of this selector has committed, and no request is about to commit another. */
  ghost predicate UsedUp(s: State, selector: string) {
    && Retired(s.log, |s.log|, selector)
    && forall r :: r in s.requests && s.requests[r].Rotating? ==> s.requests[r].selector != selector
  }

  lemma MoveStaysUsedUp(s: State, s': State, r: nat, p: Phase, es: seq<Event>, selector: string)
    requires UsedUp(s, selector) && Moves(s, s', r, p, es)
    requires p.Rotating? ==> p.selector != selector
    requires |es| == 1 && es[0].Rotated? ==> es[0].selector != selector
    ensures UsedUp(s', selector) && NotRotatedFrom(s'.log, |s.log|, selector)
  {
    RetiredGrows(s.log, es, selector);
  }

  lemma NextStaysUsedUp(cfg: Config, s: State, a: Action, selector: string)
    requires Inv(s) && Enabled(s, a) && UsedUp(s, selector)
    ensures var s' := Next(cfg, s, a);
            UsedUp(s', selector) && NotRotatedFrom(s'.log, |s.log|, selector)
  {
    if a.Advance? && s.requests[a.request].Presented? {
      LookUpStaysUsedUp(cfg, s, a.request, a.supply, selector);
    } else {
      var p, es := NextMoves(cfg, s, a);
      MoveStaysUsedUp(s, Next(cfg, s, a), a.request, p, es, selector);
    }
  }

  lemma LookUpStaysUsedUp(cfg: Config, s: State, r: nat, supply: Supply, selector: string)
    requires Inv(s) && UsedUp(s, selector) && r in s.requests && s.requests[r].Presented?
    ensures var s' := LookUp(cfg, s, r, s.requests[r], supply);
            UsedUp(s', selector) && NotRotatedFrom(s'.log, |s.log|, selector)
  {
    var s', wanted := LookUp(cfg, s, r, s.requests[r], supply), Split(s.requests[r].refresh, '.')[0];
    LookupRotates(cfg, s, r, supply);
    if FindActive(s.db, selector).Some? {
      var k := FoundWasMade(s, selector);
    }
    MoveStaysUsedUp(s, s', r, s'.requests[r], [LookedUp(r, wanted, FindActive(s.db, wanted).Some?)], selector);
  }

  lemma NotRotatedOn(first: seq<Event>, second: seq<Event>, third: seq<Event>, selector: string)
    requires first <= second <= third
    requires NotRotatedFrom(second, |first|, selector) && NotRotatedFrom(third, |second|, selector)
    ensures NotRotatedFrom(third, |first|, selector)
  {
    assert forall k :: 0 <= k < |second| ==> second[k] == third[k];
  }

  lemma {:induction false} RunStaysUsedUp(cfg: Config, base: seq<Action>, more: seq<Action>, selector: string)
    requires AllEnabled(cfg, base + more) && UsedUp(Run(cfg, base), selector)
    ensures UsedUp(Run(cfg, base + more), selector)
    ensures NotRotatedFrom(Run(cfg, base + more).log, |Run(cfg, base).log|, selector)
  {
    if more == [] {
      assert base + more == base;
    } else {
      var all, front := base + more, base + more[..|more| - 1];
      assert all[..|all| - 1] == front && all[|all| - 1] == more[|more| - 1];
      assert all[..|front|] == front && front[..|base|] == base;
      RunStaysUsedUp(cfg, base, more[..|more| - 1], selector);
      RunKeepsInv(cfg, front);
      NextStaysUsedUp(cfg, Run(cfg, front), more[|more| - 1], selector);
      LogGrows(cfg, all, |front|);
      LogGrows(cfg, front, |base|);
      NotRotatedOn(Run(cfg, base).log, Run(cfg, front).log, Run(cfg, all).log, selector);
    }
  }

  /** Once a rotation of a selector has committed, no other ever does exactly when at that moment
      no other refresh of it is between its lookup and its commit. */
  lemma SingleUseHoldsExactly(cfg: Config, base: seq<Action>, selector: string)
    requires AllEnabled(cfg, base) && Run(cfg, base).db.nextSession <= MAX_INT64
    requires Retired(Run(cfg, base).log, |Run(cfg, base).log|, selector)
    ensures var s := Run(cfg, base);
            StaysUsedUp(cfg, base, selector)
            <==> forall r :: r in s.requests && s.requests[r].Rotating? ==> s.requests[r].selector != selector
  {
    var s := Run(cfg, base);
    if UsedUp(s, selector) {
      forall more: seq<Action> | AllEnabled(cfg, base + more)
        ensures NotRotatedFrom(Run(cfg, base + more).log, |s.log|, selector)
      {
        RunStaysUsedUp(cfg, base, more, selector);
      }
    } else {
      var r :| r in s.requests && s.requests[r].Rotating? && s.requests[r].selector == selector;
      var a := Advance(r, Supply([], "", 0));
      FoundedRotationCommits(cfg, base, r, a.supply);
      Extend(cfg, base, a);
      assert Run(cfg, base + [a]).log[|s.log|].Rotated?;
      assert !NotRotatedFrom(Run(cfg, base + [a]).log, |s.log|, selector);
    }
  }

  // ---------- two refreshes of one token ----------

  /** Any two requests that have both found a selector active both commit. */
  lemma BothCommit(cfg: Config, actions: seq<Action>, q: nat, r: nat, supply: Supply)
    requires AllEnabled(cfg, actions) && q != r
    requires var s := Run(cfg, actions);
             && q in s.requests && r in s.requests && s.requests[q].Rotating? && s.requests[r].Rotating?
             && s.requests[q].selector == s.requests[r].selector && s.db.nextSession < MAX_INT64
    ensures var s := Run(cfg, actions);
            var both := actions + [Advance(q, supply), Advance(r, supply)];
            && AllEnabled(cfg, both)
            && var log := Run(cfg, both).log;
            && |log| == |s.log| + 2
            && log[|s.log|].Rotated? && log[|s.log|].request == q && log[|s.log|].selector == s.requests[q].selector
            && log[|s.log| + 1].Rotated? && log[|s.log| + 1].request == r && log[|s.log| + 1].selector == s.requests[q].selector
            && !log[|s.log| + 1].fromActive
  {
    var s := Run(cfg, actions);
    var once := actions + [Advance(q, supply)];
    FirstCommits(cfg, actions, q, r, supply);
    FoundedRotationCommits(cfg, once, r, supply);
    Extend(cfg, once, Advance(r, supply));
    assert actions + [Advance(q, supply), Advance(r, supply)] == once + [Advance(r, supply)];
    NotActiveOnceRotated(cfg, once, |s.log|);
  }

  lemma FirstCommits(cfg: Config, actions: seq<Action>, q: nat, r: nat, supply: Supply)
    requires AllEnabled(cfg, actions) && q != r
    requires var s := Run(cfg, actions);
             && q in s.requests && r in s.requests && s.requests[q].Rotating? && s.requests[r].Rotating?
             && s.db.nextSession < MAX_INT64
    ensures var (s, once) := (Run(cfg, actions), actions + [Advance(q, supply)]);
            && AllEnabled(cfg, once)
            && var t := Run(cfg, once);
            && r in t.requests && t.requests[r] == s.requests[r] && t.db.nextSession <= MAX_INT64
            && |t.log| == |s.log| + 1 && t.log[..|s.log|] == s.log
            && t.log[|s.log|].Rotated? && t.log[|s.log|].request == q && t.log[|s.log|].selector == s.requests[q].selector
  {
    FoundedRotationCommits(cfg, actions, q, supply);
    Extend(cfg, actions, Advance(q, supply));
    RunKeepsInv(cfg, actions);
    RotationTakesOneId(cfg, Run(cfg, actions), q, supply);
    OthersLeave(cfg, Run(cfg, actions), Advance(q, supply), r);
  }

  lemma RotationTakesOneId(cfg: Config, s: State, q: nat, supply: Supply)
    requires Inv(s) && q in s.requests && s.requests[q].Rotating?
    ensures Next(cfg, s, Advance(q, supply)).db.nextSession <= s.db.nextSession + 1
  {
    var p := s.requests[q];
    if RotateTx(s.db, p.selector, p.session, p.userId).Ok? {
      RotateFacts(s.db, p.selector, p.session, p.userId);
    }
  }

  lemma NotActiveOnceRotated(cfg: Config, actions: seq<Action>, k: nat)
    requires AllEnabled(cfg, actions) && k < |Run(cfg, actions).log| && Run(cfg, actions).log[k].Rotated?
    ensures FindActive(Run(cfg, actions).db, Run(cfg, actions).log[k].selector).None?
  {
    var s := Run(cfg, actions);
    assert Retired(s.log, |s.log|, s.log[k].selector);
    LookupOutcome(cfg, actions, s.log[k].selector);
  }

  /** The first user's first session. */
  function FirstDb(guid: string, session: Session): Db {
    Db(map[1 := guid], map[1 := Row(session, Active)], 2, 2)
  }

  lemma FirstIssue(guid: string, session: Session)
    ensures IssueTx(EMPTY, guid, session) == Ok((FirstDb(guid, session.(userId := 1)), 1))
  {
    assert UserId(EMPTY, guid).None?;
    assert CreateUser(EMPTY, guid) == Ok((Db(map[1 := guid], map[], 2, 1), 1));
    assert !Stored(Db(map[1 := guid], map[], 2, 1), session.selector);
  }

  /** The issued pair's row is the only one, and a request has presented the pair. */
  ghost predicate Waiting(cfg: Config, s: State, r: nat, guid: string, meta: Metadata, issued: Supply)
    requires |issued.entropy| >= RAW_TOKEN_LENGTH
  {
    var raw := issued.entropy[..RAW_TOKEN_LENGTH];
    && s.db == FirstDb(guid, NewSession(cfg, raw, meta, issued).(userId := 1))
    && r in s.requests && s.requests[r] == Presented(issued.jti, MintRefresh(cfg, raw).token, meta)
  }

  lemma FirstLookup(cfg: Config, s: State, r: nat, guid: string, meta: Metadata, issued: Supply, supply: Supply)
    requires |issued.entropy| >= RAW_TOKEN_LENGTH && |supply.entropy| >= RAW_TOKEN_LENGTH
    requires Waiting(cfg, s, r, guid, meta, issued)
    ensures var raw := issued.entropy[..RAW_TOKEN_LENGTH];
            var s' := Next(cfg, s, Advance(r, supply));
            var session := NewSession(cfg, supply.entropy[..RAW_TOKEN_LENGTH], meta, supply);
            && s'.db == s.db
            && s'.requests == s.requests[r := Rotating(Selector(raw), session, 1)]
            && s'.drawn == s.drawn + {session.selector} && s'.ids == s.ids + {session.jti}
            && s'.log == s.log + [LookedUp(r, Selector(raw), true)]
  {
    var raw := issued.entropy[..RAW_TOKEN_LENGTH];
    var found := NewSession(cfg, raw, meta, issued).(userId := 1);
    RefreshTokenRoundTrip(cfg, raw);
    assert s.db.sessions[1] == Row(found, Active);
    assert RowId(s.db, Selector(raw)) == Some(1);
  }

  /** One issued pair, and two refreshes that have both presented it. */
  ghost function Presentations(cfg: Config, guid: string, meta: Metadata, issued: Supply): State
    requires |issued.entropy| >= RAW_TOKEN_LENGTH
  {
    var raw := issued.entropy[..RAW_TOKEN_LENGTH];
    var session := NewSession(cfg, raw, meta, issued);
    var waiting := Presented(issued.jti, MintRefresh(cfg, raw).token, meta);
    State(FirstDb(guid, session.(userId := 1)), map[0 := Finished, 1 := waiting, 2 := waiting],
          {session.selector}, {session.jti}, [Issued(0, session.(userId := 1))])
  }

  lemma OneIssued(cfg: Config, guid: string, meta: Metadata, issued: Supply) returns (actions: seq<Action>)
    requires |issued.entropy| >= RAW_TOKEN_LENGTH
    ensures AllEnabled(cfg, actions)
    ensures Run(cfg, actions) == Presentations(cfg, guid, meta, issued).(requests := map[0 := Finished])
  {
    var session := NewSession(cfg, issued.entropy[..RAW_TOKEN_LENGTH], meta, issued);
    FirstIssue(guid, session);
    var begin, call := BeginIssue(0, guid, meta, issued), Advance(0, issued);
    Extend(cfg, [], begin);
    assert [] + [begin] == [begin];
    Extend(cfg, [begin], call);
    actions := [begin] + [call];
  }

  lemma TwoPresented(cfg: Config, guid: string, meta: Metadata, issued: Supply) returns (actions: seq<Action>)
    requires Sound(cfg) && |issued.entropy| >= RAW_TOKEN_LENGTH
    ensures AllEnabled(cfg, actions) && Run(cfg, actions) == Presentations(cfg, guid, meta, issued)
  {
    var raw := issued.entropy[..RAW_TOKEN_LENGTH];
    var pair := NewPair(cfg, raw, 1, issued);
    MintedFor(cfg, 1, issued);
    RefreshTokenRoundTrip(cfg, raw);
    actions := OneIssued(cfg, guid, meta, issued);
    var first, second := BeginRefresh(1, pair.access, pair.refresh, meta), BeginRefresh(2, pair.access, pair.refresh, meta);
    Extend(cfg, actions, first);
    Extend(cfg, actions + [first], second);
    actions := actions + [first] + [second];
  }

  /** Two draws with enough bytes, distinct selectors and distinct token ids. */
  ghost predicate DrawsDiffer(a: Supply, b: Supply) {
    && |a.entropy| >= RAW_TOKEN_LENGTH && |b.entropy| >= RAW_TOKEN_LENGTH
    && Selector(a.entropy[..RAW_TOKEN_LENGTH]) != Selector(b.entropy[..RAW_TOKEN_LENGTH])
    && a.jti != b.jti
  }

  lemma OneRotating(cfg: Config, guid: string, meta: Metadata, issued: Supply, first: Supply) returns (actions: seq<Action>)
    requires Sound(cfg) && DrawsDiffer(issued, first)
    ensures AllEnabled(cfg, actions)
    ensures var s := Run(cfg, actions);
            var a, b := Selector(issued.entropy[..RAW_TOKEN_LENGTH]), Selector(first.entropy[..RAW_TOKEN_LENGTH]);
            && Waiting(cfg, s, 2, guid, meta, issued) && |s.log| == 2 && s.db.nextSession == 2
            && 1 in s.requests && s.requests[1].Rotating? && s.requests[1].selector == a && s.requests[1].userId == 1
            && 3 !in s.requests && s.drawn == {a, b} && s.ids == {issued.jti, first.jti}
  {
    var presented := TwoPresented(cfg, guid, meta, issued);
    FirstLookup(cfg, Run(cfg, presented), 1, guid, meta, issued, first);
    Extend(cfg, presented, Advance(1, first));
    actions := presented + [Advance(1, first)];
  }

  lemma TwoRotating(cfg: Config, guid: string, meta: Metadata, issued: Supply, first: Supply, second: Supply)
    returns (actions: seq<Action>)
    requires Sound(cfg)
    requires DrawsDiffer(issued, first) && DrawsDiffer(issued, second) && DrawsDiffer(first, second)
    ensures AllEnabled(cfg, actions)
    ensures var s := Run(cfg, actions);
            && |s.log| == 3 && s.db.nextSession == 2
            && 1 in s.requests && s.requests[1].Rotating? && 2 in s.requests && s.requests[2].Rotating?
            && s.requests[1].selector == s.requests[2].selector
            && s.requests[1].userId == 1 && 3 !in s.requests
  {
    var once := OneRotating(cfg, guid, meta, issued, first);
    FirstLookup(cfg, Run(cfg, once), 2, guid, meta, issued, second);
    Extend(cfg, once, Advance(2, second));
    actions := once + [Advance(2, second)];
  }

  /** The documentation promises that a refresh token works once. For every client and every
      three distinct draws there is an interleaving in which two refreshes of one
      token both commit: both look it up before either commits. */
  lemma OneTokenTwoRefreshes(cfg: Config, guid: string, meta: Metadata, issued: Supply, first: Supply, second: Supply)
    returns (actions: seq<Action>)
    requires Sound(cfg)
    requires DrawsDiffer(issued, first) && DrawsDiffer(issued, second) && DrawsDiffer(first, second)
    ensures AllEnabled(cfg, actions)
    ensures var log := Run(cfg, actions).log;
            && |log| == 5
            && log[3].Rotated? && log[4].Rotated? && log[3].selector == log[4].selector
            && log[3].request != log[4].request
  {
    var waiting := TwoRotating(cfg, guid, meta, issued, first, second);
    BothCommit(cfg, waiting, 1, 2, issued);
    actions := waiting + [Advance(1, issued), Advance(2, issued)];
  }

  lemma MintedFor(cfg: Config, userId: int, supply: Supply)
    requires Sound(cfg)
    ensures cfg.decode(MintAccess(cfg, userId, supply.now, supply.jti)).Some?
    ensures cfg.decode(MintAccess(cfg, userId, supply.now, supply.jti)).value.jti == supply.jti
  {
  }
}
