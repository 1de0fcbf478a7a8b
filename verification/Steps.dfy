/** Every step of the interleaved service keeps its invariant. */
module Steps {
  import opened Prelude
  import opened Database
  import opened Interleaving

  // ---------- a log with at most one more event ----------

  lemma KnownGrows(log: seq<Event>, es: seq<Event>, selector: string)
    requires |es| <= 1
    ensures Known(log + es, |log + es|, selector)
            <==> Known(log, |log|, selector) || (|es| == 1 && Made(es[0]).Some? && Made(es[0]).value.selector == selector)
  {
    var all := log + es;
    if Known(log, |log|, selector) {
      var k :| 0 <= k < |log| && Made(log[k]).Some? && Made(log[k]).value.selector == selector;
      assert all[k] == log[k];
    }
    if |es| == 1 {
      assert all[|log|] == es[0];
    }
  }

  lemma RetiredGrows(log: seq<Event>, es: seq<Event>, selector: string)
    requires |es| <= 1
    ensures Retired(log + es, |log + es|, selector)
            <==> Retired(log, |log|, selector) || (|es| == 1 && es[0].Rotated? && es[0].selector == selector)
  {
    var all := log + es;
    if Retired(log, |log|, selector) {
      var k :| 0 <= k < |log| && log[k].Rotated? && log[k].selector == selector;
      assert all[k] == log[k];
    }
    if |es| == 1 {
      assert all[|log|] == es[0];
    }
  }

  lemma WipedGrows(log: seq<Event>, es: seq<Event>, k: nat, userId: int)
    requires |es| <= 1 && k < |log|
    ensures WipedSince(log + es, k, |log + es|, userId)
            <==> WipedSince(log, k, |log|, userId) || (|es| == 1 && es[0].Wiped? && es[0].userId == userId)
  {
    var all := log + es;
    if WipedSince(log, k, |log|, userId) {
      var j :| k < j < |log| && log[j].Wiped? && log[j].userId == userId;
      assert all[j] == log[j];
    }
    if |es| == 1 {
      assert all[|log|] == es[0];
    }
  }

  lemma FoundGrows(log: seq<Event>, es: seq<Event>, n: nat, r: nat, selector: string)
    requires n <= |log| && FoundBy(log, n, r, selector)
    ensures FoundBy(log + es, n, r, selector) && FoundBy(log + es, |log + es|, r, selector)
  {
    var k :| 0 <= k < n && log[k] == LookedUp(r, selector, true);
    assert (log + es)[k] == log[k];
  }

  lemma HonestyGrows(log: seq<Event>, es: seq<Event>, k: nat)
    requires k < |log| && LookupIsHonest(log, k)
    ensures LookupIsHonest(log + es, k)
  {
    var all := log + es;
    assert forall i :: 0 <= i < |log| ==> all[i] == log[i];
  }

  // ---------- one step: a request moves on, at most one event is recorded ----------

  ghost predicate Moves(s: State, s': State, r: nat, p: Phase, es: seq<Event>) {
    && s'.requests == s.requests[r := p]
    && s'.log == s.log + es && |es| <= 1
    && (|es| == 1 ==> es[0].request == r)
  }

  /** The event, if it makes a session, makes the one its request was waiting to store; a newly
      waiting session has a selector never drawn before. */
  ghost predicate Draws(s: State, s': State, r: nat, p: Phase, es: seq<Event>) {
    && Moves(s, s', r, p, es)
    && s'.drawn == Draw(s, p).drawn && s'.ids == Draw(s, p).ids
    && (Pending(p).Some? ==>
          && Pending(p).value.selector !in s.drawn && Pending(p).value.jti !in s.ids
          && (|es| == 1 ==> Made(es[0]).None?))
    && (|es| == 1 && Made(es[0]).Some? ==>
          && r in s.requests && Pending(s.requests[r]).Some?
          && Pending(s.requests[r]).value.selector == Made(es[0]).value.selector
          && Pending(s.requests[r]).value.jti == Made(es[0]).value.jti)
  }

  lemma DrawsStayUnique(s: State, s': State, r: nat, p: Phase, es: seq<Event>)
    requires DrawsAreUnique(s) && MadeOnce(s.log) && Draws(s, s', r, p, es)
    ensures DrawsAreUnique(s') && MadeOnce(s'.log)
  {
    assert forall k :: 0 <= k < |s.log| ==> s'.log[k] == s.log[k];
    if |es| == 1 {
      assert s'.log[|s.log|] == es[0];
    }
    forall q | q in s'.requests && Pending(s'.requests[q]).Some?
      ensures var selector := Pending(s'.requests[q]).value.selector;
              selector in s'.drawn && !Known(s'.log, |s'.log|, selector)
    {
      KnownGrows(s.log, es, Pending(s'.requests[q]).value.selector);
    }
  }

  lemma IdsStayUnique(s: State, s': State, r: nat, p: Phase, es: seq<Event>)
    requires IdsAreUnique(s) && Draws(s, s', r, p, es)
    ensures IdsAreUnique(s')
  {
    assert forall k :: 0 <= k < |s.log| ==> s'.log[k] == s.log[k];
    if |es| == 1 {
      assert s'.log[|s.log|] == es[0];
    }
  }

  lemma FoundationsHold(s: State, s': State, r: nat, p: Phase, es: seq<Event>, q: nat)
    requires Moves(s, s', r, p, es) && q in s.requests && q != r && RotatingIsFounded(s, q)
    requires |es| == 1 && Made(es[0]).Some? ==> !Known(s.log, |s.log|, Made(es[0]).value.selector)
    requires s.db.users.Keys <= s'.db.users.Keys
    ensures RotatingIsFounded(s', q)
  {
    if s.requests[q].Rotating? {
      var selector := s.requests[q].selector;
      FoundGrows(s.log, es, |s.log|, q, selector);
      KnownGrows(s.log, es, selector);
      assert forall k :: 0 <= k < |s.log| ==> s'.log[k] == s.log[k];
    }
  }

  lemma LookupsStayOnce(s: State, s': State, r: nat, p: Phase, es: seq<Event>)
    requires LookupsAreOnce(s) && Moves(s, s', r, p, es)
    requires p.Presented? ==> r !in s.requests && es == []
    requires |es| == 1 ==> r in s.requests && (es[0].LookedUp? ==> s.requests[r].Presented?)
    ensures LookupsAreOnce(s')
  {
    assert forall k :: 0 <= k < |s.log| ==> s'.log[k] == s.log[k];
    if |es| == 1 {
      assert s'.log[|s.log|] == es[0];
      if es[0].LookedUp? {
        assert !HasLookedUp(s.log, r);
      }
    }
    forall q | q in s'.requests && s'.requests[q].Presented?
      ensures !HasLookedUp(s'.log, q)
    {
      if q in s.requests {
        assert !HasLookedUp(s.log, q);
      }
    }
  }

  lemma RotationsStayFounded(s: State, s': State, r: nat, p: Phase, es: seq<Event>)
    requires RotationsAreFounded(s.log) && Moves(s, s', r, p, es)
    requires |es| == 1 && es[0].Rotated? ==>
               FoundBy(s.log, |s.log|, r, es[0].selector) && Known(s.log, |s.log|, es[0].selector)
    ensures RotationsAreFounded(s'.log)
  {
    forall k | 0 <= k < |s'.log| && s'.log[k].Rotated?
      ensures FoundBy(s'.log, k, s'.log[k].request, s'.log[k].selector) && Known(s'.log, |s'.log|, s'.log[k].selector)
    {
      KnownGrows(s.log, es, s'.log[k].selector);
      FoundGrows(s.log, es, k, s'.log[k].request, s'.log[k].selector);
    }
  }

  lemma HonestyHolds(s: State, s': State, r: nat, p: Phase, es: seq<Event>)
    requires Moves(s, s', r, p, es) && forall k :: 0 <= k < |s.log| ==> LookupIsHonest(s.log, k)
    requires |es| == 1 && es[0].LookedUp? && es[0].active ==>
               && !Retired(s.log, |s.log|, es[0].selector)
               && (forall i :: 0 <= i < |s.log| && Made(s.log[i]).Some? && Made(s.log[i]).value.selector == es[0].selector ==>
                     !WipedSince(s.log, i, |s.log|, Made(s.log[i]).value.userId))
    ensures forall k :: 0 <= k < |s'.log| ==> LookupIsHonest(s'.log, k)
  {
    forall k | 0 <= k < |s'.log| ensures LookupIsHonest(s'.log, k) {
      if k < |s.log| {
        HonestyGrows(s.log, es, k);
      } else {
        assert forall i :: 0 <= i < |s.log| ==> s'.log[i] == s.log[i];
      }
    }
  }

  // ---------- the rows and the log ----------

  lemma RowsHoldAfterLookup(s: State, s': State, es: seq<Event>)
    requires RowsReflectLog(s) && s'.db == s.db && s'.log == s.log + es && |es| <= 1
    requires |es| == 1 ==> es[0].LookedUp?
    ensures RowsReflectLog(s')
  {
    forall k | 0 <= k < |s'.log| ensures RowReflects(s', k) {
      if k < |s.log| && Made(s.log[k]).Some? {
        assert RowReflects(s, k);
        WipedGrows(s.log, es, k, Made(s.log[k]).value.userId);
        RetiredGrows(s.log, es, Made(s.log[k]).value.selector);
      }
    }
    forall id | id in s'.db.sessions ensures Known(s'.log, |s'.log|, s'.db.sessions[id].session.selector) {
      KnownGrows(s.log, es, s'.db.sessions[id].session.selector);
    }
  }

  /** A new row: `marked` is the rotated selector, or none. */
  ghost predicate Inserts(s: State, s': State, e: Event, marked: Option<string>) {
    && s'.log == s.log + [e] && Made(e).Some?
    && (e.Rotated? <==> marked.Some?) && (e.Rotated? ==> marked.value == e.selector && Known(s.log, |s.log|, e.selector))
    && Consistent(s.db) && Consistent(s'.db) && s.db.nextSession !in s.db.sessions
    && !Known(s.log, |s.log|, Made(e).value.selector)
    && s'.db.sessions == (if marked.Some? then MarkUsed(s.db, marked.value) else s.db).sessions
                           [s.db.nextSession := Row(Made(e).value, Active)]
  }

  lemma RowIdAfterInserts(s: State, s': State, e: Event, marked: Option<string>, selector: string)
    requires Inserts(s, s', e, marked) && RowsReflectLog(s)
    ensures RowId(s'.db, selector) ==
            if selector == Made(e).value.selector then Some(s.db.nextSession) else RowId(s.db, selector)
  {
    var x := Made(e).value;
    assert !Stored(s.db, x.selector);
    if marked.Some? {
      MarkUsedFacts(s.db, marked.value);
      RowIdAfterMark(s.db, marked.value, selector);
      RowIdAfterMark(s.db, marked.value, x.selector);
      RowIdAfterInsert(MarkUsed(s.db, marked.value), s'.db, x, selector);
    } else {
      RowIdAfterInsert(s.db, s'.db, x, selector);
    }
  }

  lemma RowHoldsAfterInsert(s: State, s': State, e: Event, marked: Option<string>, k: nat)
    requires Inserts(s, s', e, marked) && RowsReflectLog(s) && k < |s.log|
    ensures RowReflects(s', k)
  {
    if Made(s.log[k]).Some? {
      var x := Made(s.log[k]).value;
      assert RowReflects(s, k);
      WipedGrows(s.log, [e], k, x.userId);
      RetiredGrows(s.log, [e], x.selector);
      RowIdAfterInserts(s, s', e, marked, x.selector);
      assert Known(s.log, |s.log|, x.selector);
    }
  }

  lemma NewRowHolds(s: State, s': State, e: Event, marked: Option<string>)
    requires Inserts(s, s', e, marked) && RowsReflectLog(s) && RotationsAreFounded(s.log)
    ensures RowReflects(s', |s.log|)
  {
    var x := Made(e).value;
    RetiredGrows(s.log, [e], x.selector);
    RowIdAfterInserts(s, s', e, marked, x.selector);
  }

  lemma RowsHoldAfterInsert(s: State, s': State, e: Event, marked: Option<string>)
    requires Inserts(s, s', e, marked) && RowsReflectLog(s) && RotationsAreFounded(s.log)
    ensures RowsReflectLog(s')
  {
    NewRowHolds(s, s', e, marked);
    forall k | 0 <= k < |s.log| ensures RowReflects(s', k) {
      RowHoldsAfterInsert(s, s', e, marked, k);
    }
    forall id | id in s'.db.sessions ensures Known(s'.log, |s'.log|, s'.db.sessions[id].session.selector) {
      KnownGrows(s.log, [e], s'.db.sessions[id].session.selector);
    }
  }

  lemma RowsHoldAfterWipe(s: State, s': State, e: Event)
    requires RowsReflectLog(s) && Consistent(s.db) && e.Wiped?
    requires s'.log == s.log + [e] && s'.db == DeleteUserSessions(s.db, e.userId)
    ensures RowsReflectLog(s')
  {
    forall k | 0 <= k < |s'.log| ensures RowReflects(s', k) {
      if k < |s.log| && Made(s.log[k]).Some? {
        var x := Made(s.log[k]).value;
        assert RowReflects(s, k);
        WipedGrows(s.log, [e], k, x.userId);
        RetiredGrows(s.log, [e], x.selector);
        RowIdAfterDelete(s.db, e.userId, x.selector);
      }
    }
    forall id | id in s'.db.sessions ensures Known(s'.log, |s'.log|, s'.db.sessions[id].session.selector) {
      KnownGrows(s.log, [e], s'.db.sessions[id].session.selector);
    }
  }

  /** What the log says of a selector, exactly: it has an active row when it was made, its user
      has not been wiped since, and no rotation of it has committed. */
  lemma ActiveExactly(s: State, k: nat)
    requires Inv(s) && k < |s.log| && Made(s.log[k]).Some?
    ensures var x := Made(s.log[k]).value;
            && (FindActive(s.db, x.selector).Some? <==>
                  !WipedSince(s.log, k, |s.log|, x.userId) && !Retired(s.log, |s.log|, x.selector))
            && (FindActive(s.db, x.selector).Some? ==> FindActive(s.db, x.selector).value == x)
            && (Find(s.db, x.selector).Some? <==> !WipedSince(s.log, k, |s.log|, x.userId))
  {
    assert RowReflects(s, k);
  }

  lemma FoundWasMade(s: State, selector: string) returns (k: nat)
    requires Inv(s) && FindActive(s.db, selector).Some?
    ensures k < |s.log| && Made(s.log[k]) == FindActive(s.db, selector) && Made(s.log[k]).value.selector == selector
    ensures Known(s.log, |s.log|, selector) && !Retired(s.log, |s.log|, selector)
    ensures Owned(s.log, selector, Made(s.log[k]).value.userId)
    ensures !WipedSince(s.log, k, |s.log|, Made(s.log[k]).value.userId)
  {
    var id := RowId(s.db, selector).value;
    assert Known(s.log, |s.log|, s.db.sessions[id].session.selector);
    k :| 0 <= k < |s.log| && Made(s.log[k]).Some? && Made(s.log[k]).value.selector == selector;
    ActiveExactly(s, k);
    OwnedByItsMaker(s.log, k);
  }

  lemma OwnedByItsMaker(log: seq<Event>, k: nat)
    requires MadeOnce(log) && k < |log| && Made(log[k]).Some?
    ensures Owned(log, Made(log[k]).value.selector, Made(log[k]).value.userId)
  {
    forall j | 0 <= j < |log| && Made(log[j]).Some? && Made(log[j]).value.selector == Made(log[k]).value.selector
      ensures j == k
    {
    }
  }

  // ---------- the steps ----------

  /** A step that records nothing and stores nothing. */
  lemma EnterKeeps(s: State, r: nat, p: Phase, s': State)
    requires Inv(s) && !p.Rotating? && (p.Presented? ==> r !in s.requests)
    requires Pending(p).Some? ==> Pending(p).value.selector !in s.drawn && Pending(p).value.jti !in s.ids
    requires s' == Draw(Enter(s, r, p), p)
    ensures Inv(s')
  {
    assert s.log + [] == s.log;
    DrawsStayUnique(s, s', r, p, []);
    IdsStayUnique(s, s', r, p, []);
    RowsHoldAfterLookup(s, s', []);
    LookupsStayOnce(s, s', r, p, []);
    forall q | q in s'.requests ensures RotatingIsFounded(s', q) {
      if q != r {
        FoundationsHold(s, s', r, p, [], q);
      }
    }
  }

  /** Recording a lookup of an active or missing row. */
  lemma LookupKeeps(s: State, r: nat, p: Phase, e: Event, s': State)
    requires Inv(s) && r in s.requests && s.requests[r].Presented? && !p.Presented?
    requires e.LookedUp? && e.request == r && e.active == FindActive(s.db, e.selector).Some?
    requires Pending(p).Some? ==> p.Rotating? && e.active
                                  && Pending(p).value.selector !in s.drawn && Pending(p).value.jti !in s.ids
                                  && p.selector == e.selector && p.userId == FindActive(s.db, e.selector).value.userId
    requires s' == Draw(Record(s, r, p, s.db, e), p)
    ensures Inv(s')
  {
    DrawsStayUnique(s, s', r, p, [e]);
    IdsStayUnique(s, s', r, p, [e]);
    RowsHoldAfterLookup(s, s', [e]);
    LookupsStayOnce(s, s', r, p, [e]);
    RotationsStayFounded(s, s', r, p, [e]);
    if e.active {
      ActiveLookupIsHonest(s, e.selector);
    }
    HonestyHolds(s, s', r, p, [e]);
    forall q | q in s'.requests ensures RotatingIsFounded(s', q) {
      if q != r {
        FoundationsHold(s, s', r, p, [e], q);
      } else if p.Rotating? {
        LookupFounds(s, r, p, e, s');
      }
    }
  }

  /** A request that has just found its selector active is founded. */
  lemma LookupFounds(s: State, r: nat, p: Phase, e: Event, s': State)
    requires Inv(s) && p.Rotating? && e == LookedUp(r, p.selector, true)
    requires FindActive(s.db, p.selector).Some? && p.userId == FindActive(s.db, p.selector).value.userId
    requires s'.db == s.db && s'.requests == s.requests[r := p] && s'.log == s.log + [e]
    ensures RotatingIsFounded(s', r)
  {
    var k := FoundWasMade(s, p.selector);
    assert FoundBy(s'.log, |s'.log|, r, p.selector) by {
      assert s'.log[|s.log|] == e;
    }
    KnownGrows(s.log, [e], p.selector);
    OwnedGrows(s.log, e, p.selector, p.userId);
    UserOfRow(s, p.selector);
  }

  lemma OwnedGrows(log: seq<Event>, e: Event, selector: string, userId: int)
    requires Owned(log, selector, userId) && Made(e).None?
    ensures Owned(log + [e], selector, userId)
  {
    assert forall i :: 0 <= i < |log| ==> (log + [e])[i] == log[i];
  }

  lemma UserOfRow(s: State, selector: string)
    requires Consistent(s.db) && FindActive(s.db, selector).Some?
    ensures FindActive(s.db, selector).value.userId in s.db.users
  {
  }

  lemma ActiveLookupIsHonest(s: State, selector: string)
    requires Inv(s) && FindActive(s.db, selector).Some?
    ensures !Retired(s.log, |s.log|, selector)
    ensures forall i :: 0 <= i < |s.log| && Made(s.log[i]).Some? && Made(s.log[i]).value.selector == selector ==>
              !WipedSince(s.log, i, |s.log|, Made(s.log[i]).value.userId)
  {
    var k := FoundWasMade(s, selector);
    forall i | 0 <= i < |s.log| && Made(s.log[i]).Some? && Made(s.log[i]).value.selector == selector
      ensures !WipedSince(s.log, i, |s.log|, Made(s.log[i]).value.userId)
    {
      ActiveExactly(s, i);
    }
  }

  /** Recording a new row, issued or rotated. */
  lemma InsertKeeps(s: State, r: nat, e: Event, db: Db, marked: Option<string>, s': State)
    requires Inv(s) && r in s.requests && Pending(s.requests[r]).Some? && e.request == r
    requires s' == Record(s, r, Finished, db, e)
    requires Inserts(s, s', e, marked) && s.db.users.Keys <= db.users.Keys
    requires Made(e).value.selector == Pending(s.requests[r]).value.selector
    requires Made(e).value.jti == Pending(s.requests[r]).value.jti
    requires e.Rotated? ==> FoundBy(s.log, |s.log|, r, e.selector)
    ensures Inv(s')
  {
    DrawsStayUnique(s, s', r, Finished, [e]);
    IdsStayUnique(s, s', r, Finished, [e]);
    RowsHoldAfterInsert(s, s', e, marked);
    LookupsStayOnce(s, s', r, Finished, [e]);
    RotationsStayFounded(s, s', r, Finished, [e]);
    HonestyHolds(s, s', r, Finished, [e]);
    forall q | q in s'.requests ensures RotatingIsFounded(s', q) {
      if q != r {
        FoundationsHold(s, s', r, Finished, [e], q);
      }
    }
  }

  lemma WipeKeeps(s: State, r: nat, userId: int, s': State)
    requires Inv(s) && r in s.requests && !s.requests[r].Presented?
    requires s' == Record(s, r, Finished, DeleteUserSessions(s.db, userId), Wiped(r, userId))
    ensures Inv(s')
  {
    var e := Wiped(r, userId);
    DeleteFacts(s.db, userId);
    DrawsStayUnique(s, s', r, Finished, [e]);
    IdsStayUnique(s, s', r, Finished, [e]);
    RowsHoldAfterWipe(s, s', e);
    LookupsStayOnce(s, s', r, Finished, [e]);
    RotationsStayFounded(s, s', r, Finished, [e]);
    HonestyHolds(s, s', r, Finished, [e]);
    forall q | q in s'.requests ensures RotatingIsFounded(s', q) {
      if q != r {
        FoundationsHold(s, s', r, Finished, [e], q);
      }
    }
  }
}
