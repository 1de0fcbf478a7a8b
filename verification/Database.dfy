/** The two tables, their constraints (internal/migrations/00001_initial_schema.sql) and what
    each statement and transaction of the repositories does to them. */
module Database {
  import opened Prelude
  import opened Decimal
  import opened Tokens

  datatype Status = Active | Used

  datatype Session = Session(
    userId: int,
    selector: string,
    verifierHash: string,
    userAgent: string,
    ip: string,
    jti: string,
    createdAt: int,
    expiresAt: int)

  datatype Row = Row(session: Session, status: Status)

  /** Rows by primary key, and the next values of the two id sequences. */
  datatype Db = Db(users: map<int, string>, sessions: map<int, Row>, nextUser: int, nextSession: int)

  const EMPTY: Db := Db(map[], map[], 1, 1)

  /** The schema: ids come from the sequences, guid and selector are unique, every session has a user. */
  ghost predicate Consistent(db: Db) {
    && 1 <= db.nextUser <= MAX_INT64 + 1
    && (forall id :: id in db.users ==> 1 <= id < db.nextUser)
    && (forall i, j :: i in db.users && j in db.users && db.users[i] == db.users[j] ==> i == j)
    && (forall id :: id in db.sessions ==> id < db.nextSession && db.sessions[id].session.userId in db.users)
    && (forall i, j | i in db.sessions && j in db.sessions ::
          db.sessions[i].session.selector == db.sessions[j].session.selector ==> i == j)
  }

  // ---------- statements ----------

  ghost function UserId(db: Db, guid: string): (r: Option<int>)
    ensures r.Some? ==> r.value in db.users && db.users[r.value] == guid
    ensures r.None? ==> forall id :: id in db.users ==> db.users[id] != guid
  {
    if exists id :: id in db.users && db.users[id] == guid
    then var id :| id in db.users && db.users[id] == guid; Some(id)
    else None
  }

  ghost function RowId(db: Db, selector: string): (r: Option<int>)
    ensures r.Some? ==> r.value in db.sessions && db.sessions[r.value].session.selector == selector
    ensures r.None? ==> forall id :: id in db.sessions ==> db.sessions[id].session.selector != selector
  {
    if exists id :: id in db.sessions && db.sessions[id].session.selector == selector
    then var id :| id in db.sessions && db.sessions[id].session.selector == selector; Some(id)
    else None
  }

  ghost predicate Stored(db: Db, selector: string) {
    RowId(db, selector).Some?
  }

  ghost function Find(db: Db, selector: string): Option<Session> {
    match RowId(db, selector)
    case None => None
    case Some(id) => Some(db.sessions[id].session)
  }

  ghost function FindActive(db: Db, selector: string): Option<Session> {
    match RowId(db, selector)
    case None => None
    case Some(id) => if db.sessions[id].status == Active then Some(db.sessions[id].session) else None
  }

  ghost function CreateUser(db: Db, guid: string): Result<(Db, int), Error> {
    if db.nextUser > MAX_INT64 then Err(IdsExhausted)
    else if UserId(db, guid).Some? then Err(DuplicateGuid)
    else Ok((db.(users := db.users[db.nextUser := guid], nextUser := db.nextUser + 1), db.nextUser))
  }

  ghost function CreateSession(db: Db, session: Session): Result<Db, Error> {
    if db.nextSession > MAX_INT64 then Err(IdsExhausted)
    else if Stored(db, session.selector) then Err(DuplicateSelector)
    else if session.userId !in db.users then Err(NoSuchUser)
    else Ok(db.(sessions := db.sessions[db.nextSession := Row(session, Active)], nextSession := db.nextSession + 1))
  }

  function MarkUsed(db: Db, selector: string): Db {
    db.(sessions := map id | id in db.sessions ::
      if db.sessions[id].session.selector == selector then db.sessions[id].(status := Used) else db.sessions[id])
  }

  function DeleteUserSessions(db: Db, userId: int): Db {
    db.(sessions := map id | id in db.sessions && db.sessions[id].session.userId != userId :: db.sessions[id])
  }

  // ---------- transactions: all of it or nothing ----------

  ghost function IssueTx(db: Db, guid: string, session: Session): Result<(Db, int), Error> {
    var user := if UserId(db, guid).Some? then Ok((db, UserId(db, guid).value)) else CreateUser(db, guid);
    match user
    case Err(e) => Err(e)
    case Ok(found) =>
      match CreateSession(found.0, session.(userId := found.1))
      case Err(e) => Err(e)
      case Ok(after) => Ok((after, found.1))
  }

  ghost function RotateTx(db: Db, oldSelector: string, session: Session, userId: int): Result<Db, Error> {
    match CreateSession(MarkUsed(db, oldSelector), session.(userId := userId))
    case Err(e) => Err(e)
    case Ok(after) => if userId in after.users then Ok(after) else Err(NoSuchUser)
  }

  // ---------- basic facts ----------

  lemma RowIdIs(db: Db, id: int)
    requires Consistent(db) && id in db.sessions
    ensures RowId(db, db.sessions[id].session.selector) == Some(id)
  {
  }

  lemma UserIdIs(db: Db, id: int)
    requires Consistent(db) && id in db.users
    ensures UserId(db, db.users[id]) == Some(id)
  {
  }

  lemma CreateUserFacts(db: Db, guid: string)
    requires Consistent(db) && CreateUser(db, guid).Ok?
    ensures var (after, id) := CreateUser(db, guid).value;
            && Consistent(after) && id !in db.users && after.users == db.users[id := guid]
            && after.sessions == db.sessions && after.nextSession == db.nextSession
  {
  }

  lemma CreateSessionFacts(db: Db, session: Session)
    requires Consistent(db) && CreateSession(db, session).Ok?
    ensures var after := CreateSession(db, session).value;
            && Consistent(after) && after.users == db.users
            && db.nextSession !in db.sessions
            && after.sessions == db.sessions[db.nextSession := Row(session, Active)]
            && after.nextSession == db.nextSession + 1
  {
  }

  lemma MarkUsedFacts(db: Db, selector: string)
    requires Consistent(db)
    ensures Consistent(MarkUsed(db, selector)) && MarkUsed(db, selector).sessions.Keys == db.sessions.Keys
  {
  }

  lemma DeleteFacts(db: Db, userId: int)
    requires Consistent(db)
    ensures Consistent(DeleteUserSessions(db, userId))
  {
  }

  /** Issuing adds one active row and at most one user, and touches nothing else. */
  lemma IssueFacts(db: Db, guid: string, session: Session)
    requires Consistent(db) && IssueTx(db, guid, session).Ok?
    ensures var (after, id) := IssueTx(db, guid, session).value;
            && Consistent(after)
            && db.users.Keys <= after.users.Keys && (forall u :: u in db.users ==> after.users[u] == db.users[u])
            && id in after.users && after.users[id] == guid
            && !Stored(db, session.selector)
            && db.nextSession !in db.sessions && after.nextSession == db.nextSession + 1
            && after.sessions == db.sessions[db.nextSession := Row(session.(userId := id), Active)]
  {
    if UserId(db, guid).Some? {
      CreateSessionFacts(db, session.(userId := UserId(db, guid).value));
    } else {
      CreateUserFacts(db, guid);
      var (with, id) := CreateUser(db, guid).value;
      CreateSessionFacts(with, session.(userId := id));
      assert !Stored(with, session.selector);
      assert forall i :: i in db.sessions ==> i in with.sessions && with.sessions[i] == db.sessions[i];
    }
  }

  /** A user is created exactly for a guid that no user has, while ids are left. */
  lemma UserCreated(db: Db, guid: string)
    ensures CreateUser(db, guid).Ok? <==> db.nextUser <= MAX_INT64 && guid !in db.users.Values
    ensures CreateUser(db, guid) == Err(DuplicateGuid) <==> db.nextUser <= MAX_INT64 && guid in db.users.Values
    ensures CreateUser(db, guid).Ok? ==>
              CreateUser(db, guid).value == (db.(users := db.users[db.nextUser := guid], nextUser := db.nextUser + 1), db.nextUser)
  {
  }

  /** An issue for a guid that a user has commits exactly while a session can be added, for that
      user and without touching the users; and says which constraint stopped it. */
  lemma IssueForKnown(db: Db, guid: string, session: Session, id: int)
    requires Consistent(db) && id in db.users && db.users[id] == guid
    ensures var r := IssueTx(db, guid, session);
            && (r.Ok? <==> !Stored(db, session.selector) && db.nextSession <= MAX_INT64)
            && (r.Ok? ==> r.value.1 == id && r.value.0.users == db.users)
            && (r.Err? ==> r.error == if db.nextSession > MAX_INT64 then IdsExhausted else DuplicateSelector)
  {
    UserIdIs(db, id);
  }

  /** An issue for a guid that no user has also needs an id for the new user. */
  lemma IssueForNew(db: Db, guid: string, session: Session)
    requires Consistent(db) && guid !in db.users.Values
    ensures var r := IssueTx(db, guid, session);
            && (r.Ok? <==> !Stored(db, session.selector) && db.nextSession <= MAX_INT64 && db.nextUser <= MAX_INT64)
            && (r.Ok? ==> r.value.1 == db.nextUser && r.value.0.users == db.users[db.nextUser := guid])
            && (r.Err? ==> r.error == if db.nextUser > MAX_INT64 || db.nextSession > MAX_INT64 then IdsExhausted else DuplicateSelector)
  {
    assert UserId(db, guid).None?;
    UserCreated(db, guid);
    if db.nextUser <= MAX_INT64 {
      var with := CreateUser(db, guid).value.0;
      assert with.sessions == db.sessions && (Stored(with, session.selector) <==> Stored(db, session.selector));
    }
  }

  /** Which constraint stops a rotation. */
  lemma RotationStopped(db: Db, oldSelector: string, session: Session, userId: int)
    requires Consistent(db) && userId in db.users && RotateTx(db, oldSelector, session, userId).Err?
    ensures RotateTx(db, oldSelector, session, userId).error == if db.nextSession > MAX_INT64 then IdsExhausted else DuplicateSelector
  {
    RotationCommits(db, oldSelector, session, userId);
  }

  /** The guid under an id, and the id of a guid, are each other's inverse. */
  lemma GuidsAndIds(db: Db, id: int, guid: string)
    requires Consistent(db)
    ensures UserId(db, guid) == Some(id) <==> id in db.users && db.users[id] == guid
  {
    if id in db.users {
      UserIdIs(db, id);
    }
  }

  /** Rotating marks the old row, if it is there, and adds one active row for the same user. */
  lemma RotateFacts(db: Db, oldSelector: string, session: Session, userId: int)
    requires Consistent(db) && RotateTx(db, oldSelector, session, userId).Ok?
    ensures var after := RotateTx(db, oldSelector, session, userId).value;
            && Consistent(after) && after.users == db.users
            && !Stored(db, session.selector)
            && db.nextSession !in db.sessions && after.nextSession == db.nextSession + 1
            && after.sessions == MarkUsed(db, oldSelector).sessions[db.nextSession := Row(session.(userId := userId), Active)]
  {
    MarkUsedFacts(db, oldSelector);
    var marked := MarkUsed(db, oldSelector);
    CreateSessionFacts(marked, session.(userId := userId));
    assert forall i :: i in db.sessions ==> marked.sessions[i].session == db.sessions[i].session;
  }

  /** With ids left and an unused selector, a rotation for a known user always commits,
      whatever has become of the row it marks. */
  lemma RotationCommits(db: Db, oldSelector: string, session: Session, userId: int)
    requires Consistent(db) && userId in db.users
    ensures RotateTx(db, oldSelector, session, userId).Ok?
            <==> !Stored(db, session.selector) && db.nextSession <= MAX_INT64
  {
    var marked := MarkUsed(db, oldSelector);
    assert forall i :: i in db.sessions ==> marked.sessions[i].session == db.sessions[i].session;
    assert Stored(marked, session.selector) <==> Stored(db, session.selector);
  }

  // ---------- lookups after each change ----------

  lemma RowIdAfterInsert(db: Db, after: Db, session: Session, selector: string)
    requires Consistent(db) && Consistent(after) && db.nextSession !in db.sessions && !Stored(db, session.selector)
    requires after.sessions == db.sessions[db.nextSession := Row(session, Active)]
    ensures RowId(after, selector) == if selector == session.selector then Some(db.nextSession) else RowId(db, selector)
  {
    assert after.sessions[db.nextSession].session == session;
    if selector == session.selector {
      RowIdIs(after, db.nextSession);
    } else if RowId(db, selector).Some? {
      assert RowId(db, selector).value in after.sessions;
      RowIdIs(after, RowId(db, selector).value);
    }
  }

  lemma RowIdAfterMark(db: Db, marked: string, selector: string)
    requires Consistent(db)
    ensures RowId(MarkUsed(db, marked), selector) == RowId(db, selector)
    ensures FindActive(MarkUsed(db, marked), selector) == if selector == marked then None else FindActive(db, selector)
  {
    var after := MarkUsed(db, marked);
    MarkUsedFacts(db, marked);
    if RowId(db, selector).Some? {
      assert RowId(db, selector).value in after.sessions;
      RowIdIs(after, RowId(db, selector).value);
    }
  }

  lemma RowIdAfterDelete(db: Db, userId: int, selector: string)
    requires Consistent(db)
    ensures RowId(DeleteUserSessions(db, userId), selector) ==
            if Stored(db, selector) && Find(db, selector).value.userId != userId then RowId(db, selector) else None
  {
    var after := DeleteUserSessions(db, userId);
    DeleteFacts(db, userId);
    if RowId(db, selector).Some? {
      var id := RowId(db, selector).value;
      if db.sessions[id].session.userId != userId {
        assert id in after.sessions;
        RowIdIs(after, id);
      } else if RowId(after, selector).Some? {
        RowIdIs(db, RowId(after, selector).value);
      }
    }
  }

  // ---------- counting a user's rows ----------

  function RowIds(db: Db, userId: int): set<int> {
    set id | id in db.sessions && db.sessions[id].session.userId == userId
  }

  function ActiveIds(db: Db, userId: int): set<int> {
    set id | id in db.sessions && db.sessions[id].session.userId == userId && db.sessions[id].status == Active
  }

  lemma IdsAfterInsert(db: Db, after: Db, session: Session, userId: int)
    requires db.nextSession !in db.sessions
    requires after.sessions == db.sessions[db.nextSession := Row(session, Active)]
    ensures var added := if session.userId == userId then {db.nextSession} else {};
            && RowIds(after, userId) == RowIds(db, userId) + added
            && ActiveIds(after, userId) == ActiveIds(db, userId) + added
            && db.nextSession !in RowIds(db, userId) && db.nextSession !in ActiveIds(db, userId)
  {
  }

  lemma CountAfterInsert(db: Db, after: Db, session: Session, userId: int)
    requires db.nextSession !in db.sessions
    requires after.sessions == db.sessions[db.nextSession := Row(session, Active)]
    ensures |RowIds(after, userId)| == |RowIds(db, userId)| + if session.userId == userId then 1 else 0
    ensures |ActiveIds(after, userId)| == |ActiveIds(db, userId)| + if session.userId == userId then 1 else 0
  {
    IdsAfterInsert(db, after, session, userId);
    OneMore(RowIds(db, userId), db.nextSession);
    OneMore(ActiveIds(db, userId), db.nextSession);
  }

  lemma OneMore(ids: set<int>, id: int)
    requires id !in ids
    ensures |ids + {id}| == |ids| + 1 && ids + {} == ids
  {
  }

  lemma IdsAfterMark(db: Db, selector: string, userId: int)
    requires Consistent(db)
    ensures RowIds(MarkUsed(db, selector), userId) == RowIds(db, userId)
    ensures ActiveIds(MarkUsed(db, selector), userId) ==
            ActiveIds(db, userId) - if Stored(db, selector) then {RowId(db, selector).value} else {}
  {
    forall id | id in db.sessions
      ensures db.sessions[id].session.selector == selector <==> RowId(db, selector) == Some(id)
    {
      RowIdIs(db, id);
    }
  }

  lemma CountAfterMark(db: Db, selector: string, userId: int)
    requires Consistent(db)
    ensures |RowIds(MarkUsed(db, selector), userId)| == |RowIds(db, userId)|
    ensures |ActiveIds(MarkUsed(db, selector), userId)| == |ActiveIds(db, userId)|
            - if FindActive(db, selector).Some? && FindActive(db, selector).value.userId == userId then 1 else 0
  {
    var active := ActiveIds(db, userId);
    IdsAfterMark(db, selector, userId);
    if FindActive(db, selector).Some? && FindActive(db, selector).value.userId == userId {
      assert RowId(db, selector).value in active;
    } else if Stored(db, selector) {
      assert active - {RowId(db, selector).value} == active;
    }
  }

  lemma CountAfterDelete(db: Db, deleted: int, userId: int)
    ensures var after := DeleteUserSessions(db, deleted);
            && RowIds(after, userId) == (if userId == deleted then {} else RowIds(db, userId))
            && ActiveIds(after, userId) == (if userId == deleted then {} else ActiveIds(db, userId))
  {
  }
}
