/** Where sessions come from, however requests interleave: every session descends from an issue
    for the same user and client, and a line of sessions forks only where a mark missed. */
module Ancestry {
  import opened Encoding
  import opened Tokens
  import opened Database
  import opened Auth
  import opened Interleaving
  import opened Steps
  import opened Races

  // ---------- what every run keeps ----------

  /** Event `k` rotated the session that event `j` made, for the same user and client. */
  ghost predicate IsParent(log: seq<Event>, j: nat, k: nat) {
    && j < k < |log| && log[k].Rotated? && Made(log[j]).Some?
    && Made(log[j]).value.selector == log[k].selector
    && Made(log[j]).value.userId == log[k].session.userId
    && Made(log[j]).value.userAgent == log[k].session.userAgent
  }

  ghost predicate HasParent(log: seq<Event>, k: nat) {
    exists j: nat :: IsParent(log, j, k)
  }

  ghost predicate AllParented(log: seq<Event>) {
    forall k: nat :: k < |log| && log[k].Rotated? ==> HasParent(log, k)
  }

  /** A selector belongs to one client for ever. */
  ghost predicate OfClient(log: seq<Event>, selector: string, userAgent: string) {
    forall k :: 0 <= k < |log| && Made(log[k]).Some? && Made(log[k]).value.selector == selector ==>
      Made(log[k]).value.userAgent == userAgent
  }

  ghost predicate PendingKeepClient(s: State) {
    forall r :: r in s.requests && s.requests[r].Rotating? ==>
      OfClient(s.log, s.requests[r].selector, s.requests[r].session.userAgent)
  }

  /** Among the first `n` events this selector was made, and its user not wiped after that. */
  ghost predicate Standing(log: seq<Event>, n: nat, selector: string)
    requires n <= |log|
  {
    exists j: nat :: j < n && Made(log[j]).Some? && Made(log[j]).value.selector == selector
                     && !WipedSince(log, j, n, Made(log[j]).value.userId)
  }

  /** A rotation's mark hit an active row exactly when its session stood unrotated. */
  ghost predicate MarkIsHonest(log: seq<Event>, k: nat)
    requires k < |log|
  {
    log[k].Rotated? ==> (log[k].fromActive <==> !Retired(log, k, log[k].selector) && Standing(log, k, log[k].selector))
  }

  ghost predicate Kin(s: State) {
    && PendingKeepClient(s)
    && AllParented(s.log)
    && (forall k: nat :: k < |s.log| ==> MarkIsHonest(s.log, k))
  }

  // ---------- a log with at most one more event ----------

  lemma ParentsStay(log: seq<Event>, es: seq<Event>, k: nat)
    requires k < |log| && HasParent(log, k)
    ensures HasParent(log + es, k)
  {
    var j: nat :| IsParent(log, j, k);
    assert IsParent(log + es, j, k);
  }

  lemma ClientStays(log: seq<Event>, es: seq<Event>, selector: string, userAgent: string)
    requires |es| <= 1 && OfClient(log, selector, userAgent)
    requires |es| == 1 && Made(es[0]).Some? ==> Made(es[0]).value.selector != selector
    ensures OfClient(log + es, selector, userAgent)
  {
  }

  lemma WipedPrefix(log: seq<Event>, es: seq<Event>, j: nat, n: nat, userId: int)
    requires n <= |log|
    ensures WipedSince(log + es, j, n, userId) <==> WipedSince(log, j, n, userId)
  {
    assert forall i :: 0 <= i < |log| ==> (log + es)[i] == log[i];
  }

  lemma RetiredPrefix(log: seq<Event>, es: seq<Event>, n: nat, selector: string)
    requires n <= |log|
    ensures Retired(log + es, n, selector) <==> Retired(log, n, selector)
  {
    assert forall i :: 0 <= i < |log| ==> (log + es)[i] == log[i];
  }

  lemma StandingPrefix(log: seq<Event>, es: seq<Event>, n: nat, selector: string)
    requires n <= |log|
    ensures Standing(log + es, n, selector) <==> Standing(log, n, selector)
  {
    forall j: nat | j < n && Made(log[j]).Some?
      ensures (log + es)[j] == log[j]
      ensures WipedSince(log + es, j, n, Made(log[j]).value.userId) <==> WipedSince(log, j, n, Made(log[j]).value.userId)
    {
      WipedPrefix(log, es, j, n, Made(log[j]).value.userId);
    }
    assert forall j: nat :: j < n ==> (log + es)[j] == log[j];
  }

  lemma MarksStay(log: seq<Event>, es: seq<Event>, k: nat)
    requires k < |log| && MarkIsHonest(log, k)
    ensures MarkIsHonest(log + es, k)
  {
    if log[k].Rotated? {
      RetiredPrefix(log, es, k, log[k].selector);
      StandingPrefix(log, es, k, log[k].selector);
    }
  }

  // ---------- the steps ----------

  lemma EventsStayKin(s: State, s': State, es: seq<Event>)
    requires Kin(s) && s'.log == s.log + es && |es| <= 1
    requires |es| == 1 && es[0].Rotated? ==> HasParent(s'.log, |s.log|) && MarkIsHonest(s'.log, |s.log|)
    ensures AllParented(s'.log) && forall k: nat :: k < |s'.log| ==> MarkIsHonest(s'.log, k)
  {
    forall k: nat | k < |s'.log|
      ensures MarkIsHonest(s'.log, k) && (s'.log[k].Rotated? ==> HasParent(s'.log, k))
    {
      if k < |s.log| {
        MarksStay(s.log, es, k);
        if s.log[k].Rotated? {
          ParentsStay(s.log, es, k);
        }
      }
    }
  }

  lemma OthersKeepClient(s: State, es: seq<Event>, q: nat)
    requires Inv(s) && Kin(s) && q in s.requests && s.requests[q].Rotating? && |es| <= 1
    requires |es| == 1 && Made(es[0]).Some? ==> !Known(s.log, |s.log|, Made(es[0]).value.selector)
    ensures OfClient(s.log + es, s.requests[q].selector, s.requests[q].session.userAgent)
  {
    assert RotatingIsFounded(s, q);
    ClientStays(s.log, es, s.requests[q].selector, s.requests[q].session.userAgent);
  }

  /** A step that records `es` for request `r`, and what it needs to keep. */
  lemma StepKeepsKin(s: State, s': State, r: nat, p: Phase, es: seq<Event>)
    requires Inv(s) && Kin(s) && Moves(s, s', r, p, es)
    requires p.Rotating? ==> OfClient(s.log, p.selector, p.session.userAgent)
    requires |es| == 1 && Made(es[0]).Some? ==> !p.Rotating? && !Known(s.log, |s.log|, Made(es[0]).value.selector)
    requires |es| == 1 && es[0].Rotated? ==> HasParent(s'.log, |s.log|) && MarkIsHonest(s'.log, |s.log|)
    ensures Kin(s')
  {
    EventsStayKin(s, s', es);
    if p.Rotating? {
      ClientStays(s.log, es, p.selector, p.session.userAgent);
    }
    forall q | q in s'.requests && s'.requests[q].Rotating?
      ensures OfClient(s'.log, s'.requests[q].selector, s'.requests[q].session.userAgent)
    {
      if q != r {
        OthersKeepClient(s, es, q);
      }
    }
  }

  lemma FoundIsOfClient(s: State, selector: string)
    requires Inv(s) && FindActive(s.db, selector).Some?
    ensures OfClient(s.log, selector, FindActive(s.db, selector).value.userAgent)
  {
    var k := FoundWasMade(s, selector);
    forall j | 0 <= j < |s.log| && Made(s.log[j]).Some? && Made(s.log[j]).value.selector == selector ensures j == k {
    }
  }

  lemma LookUpKeepsKin(cfg: Config, s: State, r: nat, supply: Supply)
    requires Inv(s) && Kin(s) && r in s.requests && s.requests[r].Presented?
    ensures Kin(LookUp(cfg, s, r, s.requests[r], supply))
  {
    var p, e := LookUpMoves(cfg, s, r, supply);
    NewRotatingKeepsClient(cfg, s, r, supply);
    StepKeepsKin(s, LookUp(cfg, s, r, s.requests[r], supply), r, p, [e]);
  }

  lemma RotatesForItsClient(cfg: Config, s: State, r: nat, supply: Supply)
    requires r in s.requests && s.requests[r].Presented?
    ensures var selector := Split(s.requests[r].refresh, '.')[0];
            var next := LookUp(cfg, s, r, s.requests[r], supply).requests[r];
            next.Rotating? ==>
              && FindActive(s.db, selector).Some? && next.selector == selector
              && next.session.userAgent == FindActive(s.db, selector).value.userAgent
  {
  }

  lemma NewRotatingKeepsClient(cfg: Config, s: State, r: nat, supply: Supply)
    requires Inv(s) && r in s.requests && s.requests[r].Presented?
    ensures var next := LookUp(cfg, s, r, s.requests[r], supply).requests[r];
            next.Rotating? ==> OfClient(s.log, next.selector, next.session.userAgent)
  {
    var selector := Split(s.requests[r].refresh, '.')[0];
    RotatesForItsClient(cfg, s, r, supply);
    if FindActive(s.db, selector).Some? {
      FoundIsOfClient(s, selector);
    }
  }

  lemma StandingIsFound(s: State, selector: string)
    requires Inv(s)
    ensures FindActive(s.db, selector).Some? <==> !Retired(s.log, |s.log|, selector) && Standing(s.log, |s.log|, selector)
  {
    if FindActive(s.db, selector).Some? {
      var k := FoundWasMade(s, selector);
      assert Standing(s.log, |s.log|, selector);
    }
    if Standing(s.log, |s.log|, selector) {
      var j: nat :| j < |s.log| && Made(s.log[j]).Some? && Made(s.log[j]).value.selector == selector
                    && !WipedSince(s.log, j, |s.log|, Made(s.log[j]).value.userId);
      ActiveExactly(s, j);
    }
  }

  lemma NewRotationIsKin(s: State, r: nat, e: Event)
    requires Inv(s) && Kin(s) && r in s.requests && s.requests[r].Rotating?
    requires var p := s.requests[r];
             e == Rotated(r, p.selector, p.session.(userId := p.userId), FindActive(s.db, p.selector).Some?)
    ensures HasParent(s.log + [e], |s.log|) && MarkIsHonest(s.log + [e], |s.log|)
  {
    var p := s.requests[r];
    assert RotatingIsFounded(s, r);
    var j: nat :| j < |s.log| && Made(s.log[j]).Some? && Made(s.log[j]).value.selector == p.selector;
    assert IsParent(s.log + [e], j, |s.log|);
    StandingIsFound(s, p.selector);
    RetiredPrefix(s.log, [e], |s.log|, p.selector);
    StandingPrefix(s.log, [e], |s.log|, p.selector);
  }

  lemma InsertIsKin(cfg: Config, s: State, r: nat, supply: Supply)
    requires Inv(s) && Kin(s) && r in s.requests && Pending(s.requests[r]).Some?
    ensures Kin(Call(cfg, s, r, s.requests[r], supply))
  {
    var s' := Call(cfg, s, r, s.requests[r], supply);
    assert s'.log[..|s.log|] == s.log;
    var es := s'.log[|s.log|..];
    if s.requests[r].Rotating? && |es| == 1 {
      NewRotationIsKin(s, r, es[0]);
    }
    StepKeepsKin(s, s', r, Finished, es);
  }

  lemma OtherStepIsKin(cfg: Config, s: State, a: Action)
    requires Inv(s) && Enabled(s, a) && Kin(s)
    requires a.Advance? ==> !s.requests[a.request].Presented? && Pending(s.requests[a.request]).None?
    ensures Kin(Next(cfg, s, a))
  {
    var p, es := NextMoves(cfg, s, a);
    assert |es| == 1 ==> es == [Next(cfg, s, a).log[|s.log|]];
    StepKeepsKin(s, Next(cfg, s, a), a.request, p, es);
  }

  lemma NextKeepsKin(cfg: Config, s: State, a: Action)
    requires Inv(s) && Enabled(s, a) && Kin(s)
    ensures Kin(Next(cfg, s, a))
  {
    if a.Advance? && s.requests[a.request].Presented? {
      LookUpKeepsKin(cfg, s, a.request, a.supply);
    } else if a.Advance? && Pending(s.requests[a.request]).Some? {
      InsertIsKin(cfg, s, a.request, a.supply);
    } else {
      OtherStepIsKin(cfg, s, a);
    }
  }

  lemma {:induction false} RunKeepsKin(cfg: Config, actions: seq<Action>)
    requires AllEnabled(cfg, actions)
    ensures Kin(Run(cfg, actions))
  {
    if |actions| > 0 {
      var front := actions[..|actions| - 1];
      RunKeepsKin(cfg, front);
      RunKeepsInv(cfg, front);
      NextKeepsKin(cfg, Run(cfg, front), actions[|actions| - 1]);
    }
  }

  // ---------- lines of sessions ----------

  /** The events from the issue a session descends from down to the one that made it. */
  ghost function LineOf(log: seq<Event>, k: nat): (line: seq<nat>)
    requires AllParented(log) && k < |log| && Made(log[k]).Some?
    ensures |line| > 0 && line[|line| - 1] == k && forall i :: 0 <= i < |line| ==> line[i] <= k
    decreases k
  {
    if log[k].Issued? then [k]
    else
      assert HasParent(log, k);
      var j: nat :| IsParent(log, j, k);
      LineOf(log, j) + [k]
  }

  /** A line starts with an issue, goes from parent to child, and keeps its user and client. */
  ghost predicate IsLine(log: seq<Event>, line: seq<nat>) {
    && |line| > 0 && (forall i :: 0 <= i < |line| ==> line[i] < |log| && Made(log[line[i]]).Some?)
    && log[line[0]].Issued?
    && (forall i :: 0 < i < |line| ==> IsParent(log, line[i - 1], line[i]))
    && (forall i :: 0 <= i < |line| ==>
          && Made(log[line[i]]).value.userId == Made(log[line[|line| - 1]]).value.userId
          && Made(log[line[i]]).value.userAgent == Made(log[line[|line| - 1]]).value.userAgent)
  }

  lemma {:induction false} LinesAreLines(log: seq<Event>, k: nat)
    requires AllParented(log) && k < |log| && Made(log[k]).Some?
    ensures IsLine(log, LineOf(log, k))
    decreases k
  {
    var line := LineOf(log, k);
    if !log[k].Issued? {
      var front := line[..|line| - 1];
      var j := front[|front| - 1];
      assert IsParent(log, j, k) && front == LineOf(log, j);
      LinesAreLines(log, j);
    }
  }

  /** In every interleaving every session ever made descends, rotation by rotation, from an issue
      for the same user and client. */
  lemma DescendsFromIssue(cfg: Config, actions: seq<Action>, k: nat)
    requires AllEnabled(cfg, actions) && k < |Run(cfg, actions).log| && Made(Run(cfg, actions).log[k]).Some?
    ensures var log := Run(cfg, actions).log;
            AllParented(log) && IsLine(log, LineOf(log, k)) && LineOf(log, k)[|LineOf(log, k)| - 1] == k
  {
    RunKeepsKin(cfg, actions);
    LinesAreLines(Run(cfg, actions).log, k);
  }

  /** A rotation's mark hits an active row exactly when no rotation of its session came before and
      its user has not been wiped since the session was made. */
  lemma MarkExactly(cfg: Config, actions: seq<Action>, k: nat)
    requires AllEnabled(cfg, actions) && k < |Run(cfg, actions).log| && Run(cfg, actions).log[k].Rotated?
    ensures var log := Run(cfg, actions).log;
            log[k].fromActive <==> !Retired(log, k, log[k].selector) && Standing(log, k, log[k].selector)
  {
    RunKeepsKin(cfg, actions);
    assert MarkIsHonest(Run(cfg, actions).log, k);
  }

  /** The children of a session in a log, and those of them whose mark hit an active row. */
  function Children(log: seq<Event>, selector: string, hitsOnly: bool): nat {
    if |log| == 0 then 0
    else
      var last := log[|log| - 1];
      Children(log[..|log| - 1], selector, hitsOnly) +
      if last.Rotated? && last.selector == selector && (hitsOnly ==> last.fromActive) then 1 else 0
  }

  ghost predicate MarksAreHonest(log: seq<Event>) {
    forall k: nat :: k < |log| ==> MarkIsHonest(log, k)
  }

  lemma HonestFront(log: seq<Event>)
    requires MarksAreHonest(log) && |log| > 0
    ensures MarksAreHonest(log[..|log| - 1])
  {
    var n := |log| - 1;
    assert log[..n] + [log[n]] == log;
    forall k: nat | k < n ensures MarkIsHonest(log[..n], k) {
      assert MarkIsHonest(log, k);
      if log[k].Rotated? {
        RetiredPrefix(log[..n], [log[n]], k, log[k].selector);
        StandingPrefix(log[..n], [log[n]], k, log[k].selector);
      }
    }
  }

  lemma RetiredLast(log: seq<Event>, selector: string)
    requires |log| > 0
    ensures Retired(log, |log|, selector) <==>
            Retired(log[..|log| - 1], |log| - 1, selector)
            || (log[|log| - 1].Rotated? && log[|log| - 1].selector == selector)
  {
    assert log[..|log| - 1] + [log[|log| - 1]] == log;
    RetiredGrows(log[..|log| - 1], [log[|log| - 1]], selector);
  }

  /** Of the rotations of one session at most the first has a mark that hits. */
  lemma {:induction false} OnlyFirstHits(log: seq<Event>, selector: string)
    requires MarksAreHonest(log)
    ensures Children(log, selector, true) <= 1
    ensures Children(log, selector, true) > 0 ==> Retired(log, |log|, selector)
    ensures Children(log, selector, false) > 0 <==> Retired(log, |log|, selector)
  {
    if |log| > 0 {
      var n := |log| - 1;
      HonestFront(log);
      OnlyFirstHits(log[..n], selector);
      RetiredLast(log, selector);
      assert MarkIsHonest(log, n);
      assert log[..n] + [log[n]] == log;
      RetiredPrefix(log[..n], [log[n]], n, selector);
    }
  }

  /** While its user is not wiped, the first rotation of a session does hit. */
  lemma {:induction false} FirstHits(log: seq<Event>, selector: string, j: nat)
    requires MarksAreHonest(log) && j < |log| && Made(log[j]).Some? && Made(log[j]).value.selector == selector
    requires !WipedSince(log, j, |log|, Made(log[j]).value.userId) && !Retired(log, j + 1, selector)
    ensures Children(log, selector, true) == if Retired(log, |log|, selector) then 1 else 0
  {
    var n := |log| - 1;
    OnlyFirstHits(log, selector);
    if j < n {
      var front := log[..n];
      assert front + [log[n]] == log;
      HonestFront(log);
      WipedPrefix(front, [log[n]], j, n, Made(log[j]).value.userId);
      RetiredPrefix(front, [log[n]], j + 1, selector);
      assert !WipedSince(log, j, n, Made(log[j]).value.userId);
      FirstHits(front, selector, j);
      RetiredLast(log, selector);
      assert MarkIsHonest(log, n);
      RetiredPrefix(front, [log[n]], n, selector);
      assert Standing(log, n, selector);
    }
  }

  lemma NotRetiredWhenMade(s: State, j: nat)
    requires Inv(s) && Kin(s) && j < |s.log| && Made(s.log[j]).Some?
    ensures !Retired(s.log, j + 1, Made(s.log[j]).value.selector)
  {
    forall k: nat | k < |s.log| && s.log[k].Rotated? && s.log[k].selector == Made(s.log[j]).value.selector
      ensures j < k
    {
      assert HasParent(s.log, k);
    }
  }

  /** A session has at most one child whose mark hit an active row. While its user has not been
      wiped since, it has exactly one as soon as it has any: the further ones, which make its line
      fork, are the rotations whose mark missed. */
  lemma ForksAreMisses(cfg: Config, actions: seq<Action>, j: nat)
    requires AllEnabled(cfg, actions) && j < |Run(cfg, actions).log| && Made(Run(cfg, actions).log[j]).Some?
    ensures var log := Run(cfg, actions).log;
            var x := Made(log[j]).value;
            && Children(log, x.selector, true) <= 1
            && (!WipedSince(log, j, |log|, x.userId) ==>
                  (Children(log, x.selector, true) == 1 <==> Children(log, x.selector, false) > 0))
  {
    RunKeepsKin(cfg, actions);
    RunKeepsInv(cfg, actions);
    var log := Run(cfg, actions).log;
    var x := Made(log[j]).value;
    OnlyFirstHits(log, x.selector);
    NotRetiredWhenMade(Run(cfg, actions), j);
    if !WipedSince(log, j, |log|, x.userId) {
      FirstHits(log, x.selector, j);
    }
  }
}
