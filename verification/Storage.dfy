/** The repositories and the two transactions (internal/storage/postgres). */
module Storage {
  import opened Prelude
  import opened Decimal
  import opened Tokens
  import opened Database

  /** What statements run against: the pool itself, or the staged copy inside a transaction. */
  class Connection {
    var db: Db

    constructor (db: Db)
      ensures this.db == db
    {
      this.db := db;
    }
  }

  class UserRepository {
    const conn: Connection

    constructor (conn: Connection)
      ensures this.conn == conn
    {
      this.conn := conn;
    }

    method CreateUser(guid: string) returns (r: Result<int, Error>)
      requires Consistent(conn.db)
      modifies conn
      ensures match Database.CreateUser(old(conn.db), guid)
              case Ok(made) => r == Ok(made.1) && conn.db == made.0
              case Err(e) => r == Err(e) && conn.db == old(conn.db)
    {
      if conn.db.nextUser > MAX_INT64 {
        return Err(IdsExhausted);
      }
      if exists id :: id in conn.db.users && conn.db.users[id] == guid {
        return Err(DuplicateGuid);
      }
      var id := conn.db.nextUser;
      conn.db := conn.db.(users := conn.db.users[id := guid], nextUser := id + 1);
      return Ok(id);
    }

    method GetUserByGUID(guid: string) returns (r: Option<int>)
      requires Consistent(conn.db)
      ensures r == UserId(conn.db, guid)
    {
      if id :| id in conn.db.users && conn.db.users[id] == guid {
        return Some(id);
      }
      return None;
    }

    method GetUserByID(id: int) returns (r: Option<string>)
      ensures r == if id in conn.db.users then Some(conn.db.users[id]) else None
    {
      if id in conn.db.users {
        return Some(conn.db.users[id]);
      }
      return None;
    }
  }

  class SessionRepository {
    const conn: Connection

    constructor (conn: Connection)
      ensures this.conn == conn
    {
      this.conn := conn;
    }

    method CreateSession(session: Session) returns (r: Result<int, Error>)
      modifies conn
      ensures match Database.CreateSession(old(conn.db), session)
              case Ok(after) => r == Ok(old(conn.db).nextSession) && conn.db == after
              case Err(e) => r == Err(e) && conn.db == old(conn.db)
    {
      if conn.db.nextSession > MAX_INT64 {
        return Err(IdsExhausted);
      }
      if exists id :: id in conn.db.sessions && conn.db.sessions[id].session.selector == session.selector {
        return Err(DuplicateSelector);
      }
      if session.userId !in conn.db.users {
        return Err(NoSuchUser);
      }
      var id := conn.db.nextSession;
      conn.db := conn.db.(sessions := conn.db.sessions[id := Row(session, Active)], nextSession := id + 1);
      return Ok(id);
    }

    method GetActiveSessionBySelector(selector: string) returns (r: Option<Session>)
      requires Consistent(conn.db)
      ensures r == FindActive(conn.db, selector)
    {
      if id :| id in conn.db.sessions
               && conn.db.sessions[id].session.selector == selector && conn.db.sessions[id].status == Active {
        return Some(conn.db.sessions[id].session);
      }
      return None;
    }

    method FindSessionBySelector(selector: string) returns (r: Option<Session>)
      requires Consistent(conn.db)
      ensures r == Find(conn.db, selector)
    {
      if id :| id in conn.db.sessions && conn.db.sessions[id].session.selector == selector {
        return Some(conn.db.sessions[id].session);
      }
      return None;
    }

    /** Neither the status nor the number of rows hit is looked at. */
    method MarkSessionAsUsed(selector: string)
      modifies conn
      ensures conn.db == MarkUsed(old(conn.db), selector)
    {
      var rows := conn.db.sessions;
      conn.db := conn.db.(sessions := map id | id in rows ::
        if rows[id].session.selector == selector then Row(rows[id].session, Used) else rows[id]);
      assert conn.db.sessions == MarkUsed(old(conn.db), selector).sessions;
    }

    method DeleteAllUserSessions(userId: int)
      requires Consistent(conn.db)
      modifies conn
      ensures conn.db == DeleteUserSessions(old(conn.db), userId) && Consistent(conn.db)
    {
      DeleteFacts(conn.db, userId);
      var rows := conn.db.sessions;
      var kept := set id | id in rows && rows[id].session.userId != userId;
      conn.db := conn.db.(sessions := map id | id in kept :: rows[id]);
      assert conn.db.sessions == DeleteUserSessions(old(conn.db), userId).sessions;
    }
  }

  class PostgresStorage {
    const db: Connection
    const users: UserRepository
    const sessions: SessionRepository

    ghost predicate Valid() {
      users.conn == db && sessions.conn == db
    }

    constructor (db: Connection)
      ensures Valid() && this.db == db
    {
      this.db := db;
      users := new UserRepository(db);
      sessions := new SessionRepository(db);
    }

    /** Works on a staged copy; the pool sees it only if every statement succeeded. */
    method IssueTokensTx(guid: string, session: Session) returns (r: Result<int, Error>)
      requires Valid() && Consistent(db.db)
      modifies db
      ensures match IssueTx(old(db.db), guid, session)
              case Ok(done) => r == Ok(done.1) && db.db == done.0
              case Err(e) => r == Err(e) && db.db == old(db.db)
      ensures Consistent(db.db)
    {
      var tx := new Connection(db.db);
      var userRepoTx := new UserRepository(tx);
      var sessionRepoTx := new SessionRepository(tx);

      var user: int;
      var found := userRepoTx.GetUserByGUID(guid);
      if found.Some? {
        user := found.value;
      } else {
        var created := userRepoTx.CreateUser(guid);
        if created.Err? {
          return Err(created.error);
        }
        user := created.value;
      }
      var made := sessionRepoTx.CreateSession(session.(userId := user));
      if made.Err? {
        return Err(made.error);
      }
      IssueFacts(db.db, guid, session);
      db.db := tx.db;
      return Ok(user);
    }

    method RotateTokensTx(oldSelector: string, newSession: Session, userId: int) returns (error: Option<Error>)
      requires Valid() && Consistent(db.db)
      modifies db
      ensures match RotateTx(old(db.db), oldSelector, newSession, userId)
              case Ok(after) => error == None && db.db == after
              case Err(e) => error == Some(e) && db.db == old(db.db)
      ensures Consistent(db.db)
    {
      var tx := new Connection(db.db);
      var sessionRepoTx := new SessionRepository(tx);
      var userRepoTx := new UserRepository(tx);

      sessionRepoTx.MarkSessionAsUsed(oldSelector);
      var made := sessionRepoTx.CreateSession(newSession.(userId := userId));
      if made.Err? {
        return Some(made.error);
      }
      var user := userRepoTx.GetUserByID(userId);
      if user.None? {
        return Some(NoSuchUser);
      }
      RotateFacts(db.db, oldSelector, newSession, userId);
      db.db := tx.db;
      return None;
    }
  }
}
